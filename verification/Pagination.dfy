/**
 * Cursor chains: how a client walks a paged list whose next-page cursor comes
 * from the server (packages/gitlab-client/src/pagination.ts), and the cursor
 * check that the sync engine applies to every page it reads.
 */
module Pagination {
  import opened Base

  datatype Cursor = Cursor(page: nat, perPage: nat)

  datatype Page<+T> = Page(items: seq<T>, next: Option<Cursor>)

  /** The answers of one list endpoint; `None` asks for the first page. */
  type Listing<T> = Option<Cursor> -> Page<T>

  /** The server only ever hands out cursors of a finite set. */
  ghost predicate Bounded<T>(list: Listing<T>, space: set<Cursor>) {
    forall at :: list(at).next.Some? ==> list(at).next.value in space
  }

  /** All items met from `at` on, up to the end or to the first cursor seen before. */
  ghost function Reached<T>(list: Listing<T>, space: set<Cursor>, at: Option<Cursor>, seen: set<Cursor>): seq<T>
    requires Bounded(list, space)
    decreases space - seen
  {
    var page := list(at);
    if page.next.None? || page.next.value in seen then
      page.items
    else
      page.items + Reached(list, space, page.next, seen + {page.next.value})
  }

  /** The walk comes to a page without successor before any cursor repeats. */
  ghost predicate Ends<T>(list: Listing<T>, space: set<Cursor>, at: Option<Cursor>, seen: set<Cursor>)
    requires Bounded(list, space)
    decreases space - seen
  {
    var next := list(at).next;
    next.None? || (next.value !in seen && Ends(list, space, next, seen + {next.value}))
  }

  /** `path` follows next-page links from `at` to a page that has none. */
  ghost predicate IsWalk<T>(list: Listing<T>, at: Option<Cursor>, path: seq<Cursor>)
    decreases |path|
  {
    if path == [] then
      list(at).next == None
    else
      list(at).next == Some(path[0]) && IsWalk(list, Some(path[0]), path[1..])
  }

  ghost function WalkItems<T>(list: Listing<T>, at: Option<Cursor>, path: seq<Cursor>): seq<T>
    decreases |path|
  {
    if path == [] then list(at).items
    else list(at).items + WalkItems(list, Some(path[0]), path[1..])
  }

  ghost predicate Distinct(path: seq<Cursor>) {
    forall i, j :: 0 <= i < j < |path| ==> path[i] != path[j]
  }

  /** A finished walk without repeated cursors is exactly what `Reached` and `Ends` describe. */
  lemma {:induction false} WalkIsReached<T>(list: Listing<T>, space: set<Cursor>, at: Option<Cursor>,
                                            seen: set<Cursor>, path: seq<Cursor>)
    requires Bounded(list, space)
    requires IsWalk(list, at, path) && Distinct(path)
    requires forall c :: c in path ==> c !in seen
    ensures Ends(list, space, at, seen)
    ensures Reached(list, space, at, seen) == WalkItems(list, at, path)
    decreases |path|
  {
    if path != [] {
      assert forall c :: c in path[1..] ==> c !in seen + {path[0]};
      WalkIsReached(list, space, Some(path[0]), seen + {path[0]}, path[1..]);
    }
  }

  /** And conversely a walk that ends has such a path. */
  lemma {:induction false} EndsHasWalk<T>(list: Listing<T>, space: set<Cursor>, at: Option<Cursor>, seen: set<Cursor>)
    returns (path: seq<Cursor>)
    requires Bounded(list, space) && Ends(list, space, at, seen)
    ensures IsWalk(list, at, path) && Distinct(path)
    ensures forall c :: c in path ==> c !in seen
    ensures Reached(list, space, at, seen) == WalkItems(list, at, path)
    decreases space - seen
  {
    var next := list(at).next;
    if next.None? {
      path := [];
    } else {
      var rest := EndsHasWalk(list, space, next, seen + {next.value});
      path := [next.value] + rest;
      assert path[1..] == rest;
    }
  }

  // ----- drainPages -----

  datatype Fetch<+T, +E> = Fetched(page: Page<T>) | Rejected(error: E)

  datatype Drained<+T, +E> =
    | Items(items: seq<T>)
    | CursorCycle
    | MaxPages
    | MaxItems
    | FetchRejected(error: E)

  datatype Bounds = Bounds(maxPages: int, maxItems: int, perPage: nat)

  /** `path` lists cursors in the order in which next-page links lead from `start`. */
  ghost predicate IsTrail<T, E>(fetch: Cursor -> Fetch<T, E>, start: Cursor, path: seq<Cursor>) {
    && (path != [] ==> path[0] == start)
    && (forall i :: 0 <= i < |path| - 1 ==>
          fetch(path[i]).Fetched? && fetch(path[i]).page.next == Some(path[i + 1]))
  }

  ghost function TrailItems<T, E>(fetch: Cursor -> Fetch<T, E>, path: seq<Cursor>): seq<T> {
    if path == [] then []
    else
      var last := fetch(path[|path| - 1]);
      TrailItems(fetch, path[..|path| - 1]) + (if last.Fetched? then last.page.items else [])
  }

  /** The cursor the walk wants to read after `path`. */
  ghost function Upcoming<T, E>(fetch: Cursor -> Fetch<T, E>, start: Cursor, path: seq<Cursor>): Option<Cursor> {
    if path == [] then Some(start)
    else
      var last := fetch(path[|path| - 1]);
      if last.Fetched? then last.page.next else None
  }

  /** The pages read so far stay within the bounds, as far as they were checked before the last one. */
  ghost predicate Within<T, E>(fetch: Cursor -> Fetch<T, E>, bounds: Bounds, start: Cursor, path: seq<Cursor>) {
    && IsTrail(fetch, start, path)
    && Distinct(path)
    && |path| <= Max(bounds.maxPages, 0)
    && (forall k :: 1 <= k < |path| ==> |TrailItems(fetch, path[..k])| <= bounds.maxItems)
  }

  /** The last page was read, too, and did not exceed the item bound. */
  ghost predicate Passed<T, E>(fetch: Cursor -> Fetch<T, E>, bounds: Bounds, start: Cursor, path: seq<Cursor>) {
    && Within(fetch, bounds, start, path)
    && (path != [] ==> fetch(path[|path| - 1]).Fetched? && |TrailItems(fetch, path)| <= bounds.maxItems)
  }

  /** What each way of stopping says about the pages read, `path`, oldest first. */
  ghost predicate Explains<T, E>(fetch: Cursor -> Fetch<T, E>, bounds: Bounds, start: Cursor,
                                 path: seq<Cursor>, result: Drained<T, E>) {
    match result {
      case Items(items) =>
        && Passed(fetch, bounds, start, path) && path != []
        && Upcoming(fetch, start, path) == None
        && items == TrailItems(fetch, path)
      case CursorCycle =>
        && Passed(fetch, bounds, start, path)
        && Upcoming(fetch, start, path).Some? && Upcoming(fetch, start, path).value in path
      case MaxPages =>
        && Passed(fetch, bounds, start, path)
        && |path| == Max(bounds.maxPages, 0)
        && Upcoming(fetch, start, path).Some? && Upcoming(fetch, start, path).value !in path
      case MaxItems =>
        && Within(fetch, bounds, start, path) && path != []
        && fetch(path[|path| - 1]).Fetched? && |TrailItems(fetch, path)| > bounds.maxItems
      case FetchRejected(e) =>
        && Within(fetch, bounds, start, path) && path != []
        && fetch(path[|path| - 1]) == Rejected(e)
    }
  }

  lemma ReadNothing<T, E>(fetch: Cursor -> Fetch<T, E>, bounds: Bounds, start: Cursor)
    ensures Passed(fetch, bounds, start, []) && Upcoming(fetch, start, []) == Some(start) && TrailItems(fetch, []) == []
  {
  }

  lemma ReadOne<T, E>(fetch: Cursor -> Fetch<T, E>, bounds: Bounds, start: Cursor, path: seq<Cursor>, c: Cursor)
    requires Passed(fetch, bounds, start, path) && |path| < bounds.maxPages
    requires Upcoming(fetch, start, path) == Some(c) && c !in path
    ensures Within(fetch, bounds, start, path + [c])
    ensures fetch(c).Fetched? ==>
      && TrailItems(fetch, path + [c]) == TrailItems(fetch, path) + fetch(c).page.items
      && Upcoming(fetch, start, path + [c]) == fetch(c).page.next
      && (|TrailItems(fetch, path + [c])| <= bounds.maxItems ==> Passed(fetch, bounds, start, path + [c]))
  {
    var longer := path + [c];
    assert longer[..|path|] == path && path[..|path|] == path;
    forall k | 1 <= k < |longer| ensures |TrailItems(fetch, longer[..k])| <= bounds.maxItems {
      assert longer[..k] == path[..k];
    }
  }

  /**
   * Walks every page under hard bounds. No cursor is fetched twice, at most
   * `maxPages` are fetched, and the answer is the concatenation of the whole
   * chain or names the first bound that the chain breaks.
   */
  method DrainPages<T, E>(fetch: Cursor -> Fetch<T, E>, bounds: Bounds, start: Option<Cursor>)
    returns (result: Drained<T, E>, path: seq<Cursor>)
    ensures Explains(fetch, bounds, if start.Some? then start.value else Cursor(1, bounds.perPage), path, result)
  {
    hide Within, TrailItems, Upcoming;
    var first := if start.Some? then start.value else Cursor(1, bounds.perPage);
    var items: seq<T> := [];
    var visited: set<Cursor> := {};
    var cursor := Some(first);
    var pages := 0;
    path := [];
    ReadNothing(fetch, bounds, first);
    while cursor.Some?
      invariant Passed(fetch, bounds, first, path)
      invariant pages == |path| <= Max(bounds.maxPages, 0)
      invariant visited == set c | c in path
      invariant cursor == Upcoming(fetch, first, path)
      invariant items == TrailItems(fetch, path)
      decreases bounds.maxPages - pages
    {
      if cursor.value in visited {
        return CursorCycle, path;
      }
      visited := visited + {cursor.value};
      pages := pages + 1;
      if pages > bounds.maxPages {
        return MaxPages, path;
      }
      var page := fetch(cursor.value);
      ReadOne(fetch, bounds, first, path, cursor.value);
      path := path + [cursor.value];
      if page.Rejected? {
        return FetchRejected(page.error), path;
      }
      items := items + page.page.items;
      if |items| > bounds.maxItems {
        return MaxItems, path;
      }
      cursor := page.page.next;
    }
    return Items(items), path;
  }

  /** Two trails from one start agree as far as both go. */
  lemma {:induction false} TrailsAgree<T, E>(fetch: Cursor -> Fetch<T, E>, start: Cursor,
                                             a: seq<Cursor>, b: seq<Cursor>, k: nat)
    requires IsTrail(fetch, start, a) && IsTrail(fetch, start, b)
    requires k < |a| && k < |b|
    ensures a[..k + 1] == b[..k + 1]
  {
    if k > 0 {
      TrailsAgree(fetch, start, a, b, k - 1);
      assert a[k - 1] == a[..k][k - 1] == b[..k][k - 1] == b[k - 1];
      assert Some(a[k]) == fetch(a[k - 1]).page.next == Some(b[k]);
      assert a[..k + 1] == a[..k] + [a[k]] && b[..k + 1] == b[..k] + [b[k]];
    }
  }

  /** Wherever an explained walk went on, every bound still held and the next cursor was new. */
  lemma WentOn<T, E>(fetch: Cursor -> Fetch<T, E>, bounds: Bounds, start: Cursor,
                     path: seq<Cursor>, result: Drained<T, E>, n: nat)
    requires Explains(fetch, bounds, start, path, result)
    requires n < |path|
    ensures n < bounds.maxPages
    ensures Upcoming(fetch, start, path[..n]) == Some(path[n]) && path[n] !in path[..n]
    ensures n > 0 ==> fetch(path[..n][n - 1]).Fetched? && |TrailItems(fetch, path[..n])| <= bounds.maxItems
  {
    if n > 0 {
      assert fetch(path[n - 1]).page.next == Some(path[n]);
    }
  }

  /** The bounds decide the answer: no two different outcomes can be explained. */
  lemma OutcomeIsUnique<T, E>(fetch: Cursor -> Fetch<T, E>, bounds: Bounds, start: Cursor,
                              p: seq<Cursor>, r: Drained<T, E>, q: seq<Cursor>, s: Drained<T, E>)
    requires Explains(fetch, bounds, start, p, r)
    requires Explains(fetch, bounds, start, q, s)
    ensures p == q && r == s
  {
    var n := Min(|p|, |q|);
    if n > 0 {
      TrailsAgree(fetch, start, p, q, n - 1);
    }
    assert p[..n] == q[..n] && p[..|p|] == p && q[..|q|] == q;
    if |p| < |q| {
      WentOn(fetch, bounds, start, q, s, n);
    } else if |q| < |p| {
      WentOn(fetch, bounds, start, p, r, n);
    }
  }
}
