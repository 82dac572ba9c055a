/**
 * What one commit window of the incremental sync means, on values: the rows it
 * writes, the cursor it persists, and the invariant that every persisted state
 * satisfies whatever happened before it (packages/domain/src/sync-orchestrator.ts).
 */
module CommitWindow {
  import opened Base
  import opened Pagination

  type Branch = string
  type Sha = string

  /** 1980-01-01T00:00:00Z: the floor of a cold start. */
  const COLD_START: Time := 315_532_800_000

  datatype Commit = Commit(sha: Sha, authorEmail: Option<string>, authoredAt: Time, title: string,
                           webUrl: Option<string>)

  /** A row of the commit cache; its key, the SHA, is kept by the map that holds it. */
  datatype CommitRow = CommitRow(authorEmail: Option<string>, authoredAt: Time, title: Option<string>,
                                 webUrl: Option<string>, payloadUpdatedAt: Time)

  type CommitCache = map<Sha, CommitRow>

  function ToRow(c: Commit, payloadUpdatedAt: Time): CommitRow {
    CommitRow(c.authorEmail, c.authoredAt, if c.title == "" then None else Some(c.title), c.webUrl, payloadUpdatedAt)
  }

  /** The commit that a row and its SHA stand for. */
  function FromRow(sha: Sha, row: CommitRow): Commit {
    Commit(sha, row.authorEmail, row.authoredAt, if row.title.Some? then row.title.value else "", row.webUrl)
  }

  /** A row gives back its commit, field by field, and says when its window ended; an empty title is stored as none. */
  lemma RowsLoseNothing(c: Commit, payloadUpdatedAt: Time)
    ensures FromRow(c.sha, ToRow(c, payloadUpdatedAt)) == c
    ensures ToRow(c, payloadUpdatedAt).payloadUpdatedAt == payloadUpdatedAt
    ensures ToRow(c, payloadUpdatedAt).title != Some("")
  {
  }

  /** The text stored as last branch cursor, decoded. */
  datatype BranchCursor =
    | Snapshot(branches: seq<Branch>, nextIndex: nat)
    | Legacy(name: Branch)

  datatype CommitState = CommitState(watermark: Option<Time>, windowStart: Option<Time>, windowEnd: Option<Time>,
                                     cursor: Option<BranchCursor>)

  // ----- What GitLab answers -----

  /**
   * GitLab's commit lists: one listing per branch and window, stable while the
   * window is open, drawn from commits whose fields are fixed by their SHA.
   */
  datatype Server = Server(listing: (Branch, Time, Time) -> Listing<Commit>, commitOf: Sha -> Commit,
                           cursors: set<Cursor>)
  {
    ghost predicate Valid() {
      && (forall b, since, until :: Bounded(listing(b, since, until), cursors))
      && (forall b, since, until, at, c ::
            c in listing(b, since, until)(at).items ==> c == commitOf(c.sha))
    }

    /** The SHAs GitLab lists for a branch over a window. */
    ghost function Shas(b: Branch, since: Time, until: Time): set<Sha>
      requires Valid()
    {
      set c | c in Reached(listing(b, since, until), cursors, None, {}) :: c.sha
    }

    /** Paging through the branch comes to a last page. */
    ghost predicate Drains(b: Branch, since: Time, until: Time)
      requires Valid()
    {
      Ends(listing(b, since, until), cursors, None, {})
    }

    ghost function Row(sha: Sha, until: Time): CommitRow {
      ToRow(commitOf(sha), until)
    }
  }

  lemma {:induction false} ReachedKnown(srv: Server, b: Branch, since: Time, until: Time,
                                        at: Option<Cursor>, seen: set<Cursor>)
    requires srv.Valid()
    ensures forall c :: c in Reached(srv.listing(b, since, until), srv.cursors, at, seen) ==> c == srv.commitOf(c.sha)
    decreases srv.cursors - seen
  {
    var page := srv.listing(b, since, until)(at);
    if page.next.Some? && page.next.value !in seen {
      ReachedKnown(srv, b, since, until, page.next, seen + {page.next.value});
    }
  }

  // ----- The window in progress -----

  /**
   * Bookkeeping of the proof, not of the program: the cache as it was when the
   * open window began, the branch names a pre-snapshot cursor made it skip, how
   * often it paused, and the windows completed so far.
   */
  datatype Window = Window(start: Time, end: Time, branches: seq<Branch>, skipped: set<Branch>)
  datatype Ledger = Ledger(base: CommitCache, skipped: set<Branch>, pauses: nat, done: seq<Window>)

  /** What is persisted for one project's commits, with the ledger, the time, and how far windows overlap. */
  datatype View = View(state: Option<CommitState>, commits: CommitCache, led: Ledger, clock: Time, overlapMs: nat) {
    function Watermark(): Option<Time> {
      if state.Some? then state.value.watermark else None
    }

    /** The earliest moment that the next window still has to reach back to. */
    function Floor(): Time {
      if Watermark().Some? then Watermark().value else COLD_START
    }

    predicate Continuing() {
      && state.Some?
      && state.value.cursor.Some?
      && state.value.windowStart.Some?
      && state.value.windowEnd.Some?
    }

    predicate AtSnapshot() {
      Continuing() && state.value.cursor.value.Snapshot?
    }

    function NextIndex(): nat
      requires AtSnapshot()
    {
      state.value.cursor.value.nextIndex
    }

    function OpenWindow(): Window
      requires AtSnapshot()
    {
      Window(state.value.windowStart.value, state.value.windowEnd.value, state.value.cursor.value.branches, led.skipped)
    }
  }

  /** Every SHA that some branch of the set lists over the window. */
  ghost function Listed(srv: Server, w: Window): set<Sha>
    requires srv.Valid()
  {
    set b, sha | b in w.branches && b !in w.skipped && sha in srv.Shas(b, w.start, w.end) :: sha
  }

  /** The specification of a window: everything it lists is written in one atomic step. */
  ghost function Atomic(srv: Server, base: CommitCache, w: Window): CommitCache
    requires srv.Valid()
  {
    base + map sha | sha in Listed(srv, w) :: srv.Row(sha, w.end)
  }

  /** Branch `b` was paged to its last page and all it lists is in the cache. */
  ghost predicate BranchCached(srv: Server, b: Branch, start: Time, end: Time, commits: CommitCache)
    requires srv.Valid()
  {
    && srv.Drains(b, start, end)
    && forall sha :: sha in srv.Shas(b, start, end) ==> sha in commits && commits[sha] == srv.Row(sha, end)
  }

  /**
   * The first `n` branches are drained, and nothing but rows of this window was
   * written since it began.
   */
  ghost predicate Progress(srv: Server, w: Window, n: nat, base: CommitCache, commits: CommitCache)
    requires srv.Valid()
  {
    && n <= |w.branches|
    && (forall b :: b in w.skipped ==> b in w.branches)
    && (forall i :: n <= i < |w.branches| ==> w.branches[i] !in w.skipped)
    && (forall i :: 0 <= i < n && w.branches[i] !in w.skipped ==>
          BranchCached(srv, w.branches[i], w.start, w.end, commits))
    && (forall sha :: sha in base ==> sha in commits)
    && (forall sha :: sha in commits ==>
          || (sha in base && commits[sha] == base[sha])
          || (sha in Listed(srv, w) && commits[sha] == srv.Row(sha, w.end)))
  }

  // ----- Completed windows -----

  /** What a completed window put in the cache is still there; only the stamp may be younger. */
  ghost predicate WindowKept(srv: Server, w: Window, commits: CommitCache)
    requires srv.Valid()
  {
    forall sha :: sha in Listed(srv, w) ==>
      && sha in commits
      && commits[sha] == srv.Row(sha, commits[sha].payloadUpdatedAt)
      && commits[sha].payloadUpdatedAt >= w.end
  }

  ghost predicate CoveredAt(done: seq<Window>, t: Time) {
    exists i :: 0 <= i < |done| && done[i].start <= t <= done[i].end
  }

  /** The completed windows leave no gap between the cold-start floor and `upTo`. */
  ghost predicate Covered(done: seq<Window>, upTo: Time) {
    forall t :: COLD_START <= t <= upTo ==> CoveredAt(done, t)
  }

  // ----- The invariant of every persisted state -----

  /** Where the next window starts: the overlap reaches back from the watermark, but never before the floor. */
  function NextStart(watermark: Option<Time>, overlapMs: nat): Time {
    if watermark.Some? then Max(COLD_START, watermark.value - overlapMs) else COLD_START
  }

  /** The watermark is where the last completed window ends. */
  function EndOf(done: seq<Window>): Option<Time> {
    if done == [] then None else Some(done[|done| - 1].end)
  }

  /** A window reaches back over the watermark by the overlap at least, and ends no earlier than the watermark. */
  predicate FitsAfter(watermark: Option<Time>, overlapMs: nat, start: Time, end: Time, clock: Time) {
    && COLD_START <= start <= NextStart(watermark, overlapMs)
    && (if watermark.Some? then watermark.value else COLD_START) <= end <= clock
  }

  /** Every completed window reaches back over the end of the one before it. */
  predicate Overlapping(done: seq<Window>, overlapMs: nat) {
    forall k :: 0 <= k < |done| ==> done[k].start <= NextStart(EndOf(done[..k]), overlapMs)
  }

  ghost predicate History(srv: Server, v: View)
    requires srv.Valid()
  {
    && COLD_START <= v.Floor() <= v.clock
    && v.Watermark() == EndOf(v.led.done)
    && Overlapping(v.led.done, v.overlapMs)
    && (v.Watermark().Some? ==> Covered(v.led.done, v.Watermark().value))
    && (forall k :: 0 <= k < |v.led.done| ==>
          v.led.done[k].end <= v.Floor() && WindowKept(srv, v.led.done[k], v.commits))
  }

  ghost predicate Open(srv: Server, v: View)
    requires srv.Valid()
  {
    && (v.Continuing() ==>
          FitsAfter(v.Watermark(), v.overlapMs, v.state.value.windowStart.value, v.state.value.windowEnd.value,
                    v.clock))
    && (v.AtSnapshot() ==>
          && v.led.pauses <= v.NextIndex() < |v.OpenWindow().branches|
          && Progress(srv, v.OpenWindow(), v.NextIndex(), v.led.base, v.commits))
  }

  ghost predicate Inv(srv: Server, v: View) {
    srv.Valid() && History(srv, v) && Open(srv, v)
  }

  /** A run that has drained the first `n` branches of window `w`. */
  ghost predicate Draining(srv: Server, v: View, w: Window, n: nat) {
    && Inv(srv, v)
    && Progress(srv, w, n, v.led.base, v.commits)
    && FitsAfter(v.Watermark(), v.overlapMs, w.start, w.end, v.clock)
    && w.skipped == v.led.skipped
    && (v.AtSnapshot() ==> v.OpenWindow() == w && v.NextIndex() == Min(n, |w.branches| - 1))
  }

  // ----- The four writes keep it -----

  /** Writing one more listed commit of the window. */
  lemma UpsertKeepsProgress(srv: Server, w: Window, n: nat, base: CommitCache, commits: CommitCache, i: nat, sha: Sha)
    requires srv.Valid() && Progress(srv, w, n, base, commits)
    requires i < |w.branches| && w.branches[i] !in w.skipped && sha in srv.Shas(w.branches[i], w.start, w.end)
    ensures Progress(srv, w, n, base, commits[sha := srv.Row(sha, w.end)])
  {
    assert sha in Listed(srv, w);
    var after := commits[sha := srv.Row(sha, w.end)];
    forall j | 0 <= j < n && w.branches[j] !in w.skipped
      ensures BranchCached(srv, w.branches[j], w.start, w.end, after)
    {
      assert BranchCached(srv, w.branches[j], w.start, w.end, commits);
    }
  }

  /** Rows of windows completed earlier survive, because their stamps only grow. */
  lemma UpsertKeepsHistory(srv: Server, v: View, sha: Sha, end: Time)
    requires srv.Valid() && History(srv, v)
    requires end >= v.Floor()
    ensures History(srv, v.(commits := v.commits[sha := srv.Row(sha, end)]))
  {
    var after := v.commits[sha := srv.Row(sha, end)];
    forall k | 0 <= k < |v.led.done| ensures WindowKept(srv, v.led.done[k], after) {
      assert WindowKept(srv, v.led.done[k], v.commits);
    }
  }

  lemma UpsertKeepsDraining(srv: Server, v: View, w: Window, n: nat, sha: Sha)
    requires Draining(srv, v, w, n)
    requires n < |w.branches| && sha in srv.Shas(w.branches[n], w.start, w.end)
    ensures Draining(srv, v.(commits := v.commits[sha := srv.Row(sha, w.end)]), w, n)
  {
    UpsertKeepsProgress(srv, w, n, v.led.base, v.commits, n, sha);
    UpsertKeepsHistory(srv, v, sha, w.end);
  }

  /** Appending branches found later keeps what is already drained. */
  lemma AppendKeepsProgress(srv: Server, w: Window, n: nat, base: CommitCache, commits: CommitCache, added: seq<Branch>)
    requires srv.Valid() && Progress(srv, w, n, base, commits)
    requires forall b :: b in added ==> b !in w.branches
    ensures Progress(srv, w.(branches := w.branches + added), n, base, commits)
  {
    var longer := w.(branches := w.branches + added);
    assert forall b :: b in w.branches ==> b in longer.branches;
    assert forall sha :: sha in Listed(srv, w) ==> sha in Listed(srv, longer);
    forall i | n <= i < |longer.branches| ensures longer.branches[i] !in w.skipped {
      if i >= |w.branches| {
        assert longer.branches[i] == added[i - |w.branches|];
      }
    }
  }

  lemma DrainedIsCached(srv: Server, w: Window, base: CommitCache, commits: CommitCache)
    requires srv.Valid() && Progress(srv, w, |w.branches|, base, commits)
    ensures forall b :: b in w.branches && b !in w.skipped ==> BranchCached(srv, b, w.start, w.end, commits)
    ensures forall sha :: sha in Listed(srv, w) ==> sha in commits && commits[sha] == srv.Row(sha, w.end)
  {
    hide Server.Shas, Server.Drains;
    forall b | b in w.branches && b !in w.skipped ensures BranchCached(srv, b, w.start, w.end, commits) {
      var i :| 0 <= i < |w.branches| && w.branches[i] == b;
    }
  }

  /** With every branch drained the cache is what one atomic step would have written. */
  lemma DrainedIsAtomic(srv: Server, w: Window, base: CommitCache, commits: CommitCache)
    requires srv.Valid() && Progress(srv, w, |w.branches|, base, commits)
    ensures commits == Atomic(srv, base, w)
    ensures WindowKept(srv, w, commits)
    ensures forall b :: b in w.branches && b !in w.skipped ==> srv.Drains(b, w.start, w.end)
  {
    hide Server.Shas, Server.Drains, Listed;
    DrainedIsCached(srv, w, base, commits);
  }

  /** Closing a window that starts by the watermark extends the gap-free history to its end. */
  lemma CompletionCovers(done: seq<Window>, overlapMs: nat, w: Window, clock: Time)
    requires EndOf(done).Some? ==> COLD_START <= EndOf(done).value && Covered(done, EndOf(done).value)
    requires Overlapping(done, overlapMs) && FitsAfter(EndOf(done), overlapMs, w.start, w.end, clock)
    ensures Covered(done + [w], w.end) && Overlapping(done + [w], overlapMs) && EndOf(done + [w]) == Some(w.end)
  {
    var longer := done + [w];
    forall k | 0 <= k < |longer| ensures longer[k].start <= NextStart(EndOf(longer[..k]), overlapMs) {
      assert longer[..k] == done[..k];
      assert done[..|done|] == done;
    }
    forall t | COLD_START <= t <= w.end ensures CoveredAt(done + [w], t) {
      if t >= w.start {
        assert (done + [w])[|done|] == w;
      } else {
        assert CoveredAt(done, t);
        var i :| 0 <= i < |done| && done[i].start <= t <= done[i].end;
        assert (done + [w])[i] == done[i];
      }
    }
  }

  /** Opening a window up to `now`, with nothing drained yet. */
  lemma BeginKeepsInv(srv: Server, v: View, now: Time, branches: seq<Branch>)
    requires Inv(srv, v) && v.clock <= now
    ensures Inv(srv, v.(clock := now))
    ensures var start := NextStart(v.Watermark(), v.overlapMs);
            var first := CommitState(v.Watermark(), Some(start), Some(now),
                                     if branches == [] then None else Some(Snapshot(branches, 0)));
            Draining(srv, View(Some(first), v.commits, Ledger(v.commits, {}, 0, v.led.done), now, v.overlapMs),
                     Window(start, now, branches, {}), 0)
  {
  }

  /** Taking up a snapshot, with branches found since appended to it. */
  lemma ResumeKeepsInv(srv: Server, v: View, added: seq<Branch>)
    requires Inv(srv, v) && v.AtSnapshot()
    requires forall b :: b in added ==> b !in v.OpenWindow().branches
    ensures v.led.pauses <= v.NextIndex() < |v.OpenWindow().branches|
    ensures var w := v.OpenWindow();
            var branches := w.branches + added;
            Draining(srv, v.(state := Some(v.state.value.(cursor := Some(Snapshot(branches, v.NextIndex()))))),
                     w.(branches := branches), v.NextIndex())
  {
    AppendKeepsProgress(srv, v.OpenWindow(), v.NextIndex(), v.led.base, v.commits, added);
  }

  /** Taking up a pre-snapshot cursor: the names below it are given up for this window. */
  lemma LegacyKeepsInv(srv: Server, v: View, branches: seq<Branch>, from: nat)
    requires Inv(srv, v) && v.Continuing() && !v.AtSnapshot()
    requires from <= |branches|
    requires forall i, j :: 0 <= i < j < |branches| ==> branches[i] != branches[j]
    ensures var skipped := set b | b in branches[..from];
            Draining(srv, v.(led := Ledger(v.commits, skipped, 0, v.led.done)),
                     Window(v.state.value.windowStart.value, v.state.value.windowEnd.value, branches, skipped), from)
  {
  }

  /** The cursor may move past a branch that is cached. */
  lemma AdvanceKeepsInv(srv: Server, v: View, w: Window, n: nat)
    requires Draining(srv, v, w, n) && v.state.Some?
    requires n + 1 < |w.branches| && BranchCached(srv, w.branches[n], w.start, w.end, v.commits)
    requires v.led.pauses <= n
    requires v.state.value.windowStart == Some(w.start) && v.state.value.windowEnd == Some(w.end)
    ensures Draining(srv, v.(state := Some(v.state.value.(cursor := Some(Snapshot(w.branches, n + 1))))), w, n + 1)
  {
  }

  /** Past the last branch the cursor stays where it is. */
  lemma LastKeepsInv(srv: Server, v: View, w: Window, n: nat)
    requires Draining(srv, v, w, n)
    requires n + 1 == |w.branches| && BranchCached(srv, w.branches[n], w.start, w.end, v.commits)
    ensures Draining(srv, v, w, n + 1)
  {
  }

  /** A pause after branch `n` is counted. */
  lemma PauseKeepsInv(srv: Server, v: View, w: Window, n: nat)
    requires Draining(srv, v, w, n)
    requires v.led.pauses < n < |w.branches|
    ensures Inv(srv, v.(led := v.led.(pauses := v.led.pauses + 1)))
  {
  }

  /** The window closes with the cache an atomic step would have produced. */
  lemma CompleteKeepsInv(srv: Server, v: View, w: Window)
    requires Draining(srv, v, w, |w.branches|) && v.state.Some?
    ensures Inv(srv, v)
    ensures Inv(srv, v.(state := Some(v.state.value.(watermark := Some(w.end), cursor := None)),
                        led := v.led.(done := v.led.done + [w])))
    ensures v.commits == Atomic(srv, v.led.base, w)
    ensures forall b :: b in w.branches && b !in w.skipped ==> srv.Drains(b, w.start, w.end)
  {
    DrainedIsAtomic(srv, w, v.led.base, v.commits);
    CompletionCovers(v.led.done, v.overlapMs, w, v.clock);
    var done := v.led.done + [w];
    forall k | 0 <= k < |done| ensures done[k].end <= w.end && WindowKept(srv, done[k], v.commits) {
      if k < |v.led.done| {
        assert done[k] == v.led.done[k];
      }
    }
  }

  // ----- What the invariant buys -----

  /**
   * GitLab filters a branch's commits by authored date, both ends included. A
   * commit is on the branch from when it was pushed: a window that ends later
   * lists it, a window that ends earlier may miss it.
   */
  ghost predicate Publishes(srv: Server, b: Branch, pushed: Sha -> Time, content: set<Sha>)
    requires srv.Valid()
  {
    forall since, until, sha ::
      && (sha in srv.Shas(b, since, until) ==> sha in content && since <= srv.commitOf(sha).authoredAt <= until)
      && (sha in content && since <= srv.commitOf(sha).authoredAt <= until && pushed(sha) <= until ==>
            sha in srv.Shas(b, since, until))
  }

  /** The first window that ends at `t` or later. */
  lemma {:induction false} FirstUpTo(done: seq<Window>, t: Time, some: nat) returns (k: nat)
    requires some < |done| && done[some].end >= t
    ensures k < |done| && done[k].end >= t && forall j :: 0 <= j < k ==> done[j].end < t
  {
    if j: nat :| j < some && done[j].end >= t {
      k := FirstUpTo(done, t, j);
    } else {
      k := some;
    }
  }

  /**
   * End to end: a commit pushed by the watermark, and no more than the overlap
   * after its authored date, is in the cache with the fields GitLab reports,
   * provided every window since has known its branch. (Times are whole
   * milliseconds, hence the one more.)
   */
  lemma NothingMissingUpToWatermark(srv: Server, v: View, b: Branch, pushed: Sha -> Time, content: set<Sha>, sha: Sha)
    requires Inv(srv, v) && v.Watermark().Some?
    requires Publishes(srv, b, pushed, content) && sha in content
    requires COLD_START <= srv.commitOf(sha).authoredAt <= v.Watermark().value && pushed(sha) <= v.Watermark().value
    requires pushed(sha) <= srv.commitOf(sha).authoredAt + v.overlapMs + 1
    requires forall k :: 0 <= k < |v.led.done| && v.led.done[k].end >= pushed(sha) ==>
               b in v.led.done[k].branches && b !in v.led.done[k].skipped
    ensures sha in v.commits && v.commits[sha] == srv.Row(sha, v.commits[sha].payloadUpdatedAt)
  {
    var authored := srv.commitOf(sha).authoredAt;
    var t := Max(authored, pushed(sha));
    assert CoveredAt(v.led.done, v.Watermark().value);
    var some :| 0 <= some < |v.led.done| && v.led.done[some].start <= v.Watermark().value <= v.led.done[some].end;
    var k := FirstUpTo(v.led.done, t, some);
    var w := v.led.done[k];
    assert w.start <= authored by {
      assert w.start <= NextStart(EndOf(v.led.done[..k]), v.overlapMs);
    }
    assert sha in srv.Shas(b, w.start, w.end);
    assert sha in Listed(srv, w);
    assert WindowKept(srv, w, v.commits);
  }

  /** The cache at completion depends on the set of branches only, not on their order or repetition. */
  lemma AtomicIgnoresOrder(srv: Server, base: CommitCache, w: Window, other: seq<Branch>)
    requires srv.Valid()
    requires forall b :: b in w.branches <==> b in other
    ensures Atomic(srv, base, w) == Atomic(srv, base, w.(branches := other))
  {
    assert Listed(srv, w) == Listed(srv, w.(branches := other));
  }
}
