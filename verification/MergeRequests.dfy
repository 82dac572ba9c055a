/**
 * The merge-request stream of the sync: `updated_after` cursors over a GitLab
 * project whose merge requests keep changing between runs.
 */
module MergeRequests {
  import opened Base
  import opened Pagination

  datatype Mr = Mr(iid: int, title: string, state: string, authorEmail: Option<string>, headSha: Option<string>,
                   webUrl: Option<string>, updatedAt: Time)

  datatype MrRow = MrRow(title: Option<string>, state: Option<string>, authorEmail: Option<string>,
                         headSha: Option<string>, webUrl: Option<string>, updatedAt: Time)

  type MrCache = map<int, MrRow>
  type World = map<int, Mr>

  function ToMrRow(mr: Mr): MrRow {
    MrRow(if mr.title == "" then None else Some(mr.title), if mr.state == "" then None else Some(mr.state),
          mr.authorEmail, mr.headSha, mr.webUrl, mr.updatedAt)
  }

  /** The merge request that a row and its number stand for. */
  function FromMrRow(iid: int, row: MrRow): Mr {
    Mr(iid, if row.title.Some? then row.title.value else "", if row.state.Some? then row.state.value else "",
       row.authorEmail, row.headSha, row.webUrl, row.updatedAt)
  }

  /** A row gives back its merge request, field by field; an empty title or state is stored as none. */
  lemma MrRowsLoseNothing(mr: Mr)
    ensures FromMrRow(mr.iid, ToMrRow(mr)) == mr
    ensures ToMrRow(mr).title != Some("") && ToMrRow(mr).state != Some("")
  {
  }

  /** The merge requests GitLab returns for `updated_after`, which includes its boundary. */
  ghost function Matching(world: World, updatedAfter: Time): set<Mr> {
    set iid | iid in world && world[iid].updatedAt >= updatedAfter :: world[iid]
  }

  /** GitLab's merge-request list: pages over what matches, as the project stands while they are read. */
  datatype MrServer = MrServer(listing: (World, Time) -> Listing<Mr>, cursors: set<Cursor>) {
    ghost predicate Valid() {
      forall world, after ::
        && Bounded(listing(world, after), cursors)
        && (set mr | mr in Reached(listing(world, after), cursors, None, {})) == Matching(world, after)
    }
  }

  /** What a run that starts from this cursor reads. */
  ghost function Pulled(srv: MrServer, world: World, cursor: Option<Time>): seq<Mr>
    requires srv.Valid()
  {
    Reached(srv.listing(world, if cursor.Some? then cursor.value else 0), srv.cursors, None, {})
  }

  /** Paging through that list comes to a last page. */
  ghost predicate ListEnds(srv: MrServer, world: World, cursor: Option<Time>)
    requires srv.Valid()
  {
    Ends(srv.listing(world, if cursor.Some? then cursor.value else 0), srv.cursors, None, {})
  }

  /** Every merge request is cached as this project has it. */
  ghost predicate CachedAsOf(world: World, cache: MrCache) {
    forall iid :: iid in world ==> iid in cache && cache[iid] == ToMrRow(world[iid])
  }

  /** Between two moments only merge requests stamped in between differ. */
  predicate Evolves(world: World, later: World, from: Time, to: Time) {
    && from <= to
    && forall iid :: iid in later ==>
         || (iid in world && world[iid] == later[iid])
         || (later[iid].iid == iid && from <= later[iid].updatedAt <= to)
  }

  /** Every merge request whose current version is older than the cursor is cached at that version. */
  ghost predicate MrInv(world: World, cache: MrCache, cursor: Option<Time>, clock: Time) {
    && (forall iid :: iid in world ==> world[iid].iid == iid && 0 <= world[iid].updatedAt <= clock)
    && (cursor.Some? ==> 0 <= cursor.value <= clock)
    && (cursor.Some? ==> forall iid :: iid in world && world[iid].updatedAt < cursor.value ==>
          iid in cache && cache[iid] == ToMrRow(world[iid]))
  }

  /** GitLab moving on never breaks it. */
  lemma EvolutionKeepsMrInv(world: World, later: World, cache: MrCache, cursor: Option<Time>, from: Time, to: Time)
    requires MrInv(world, cache, cursor, from) && 0 <= from
    requires Evolves(world, later, from, to)
    ensures MrInv(later, cache, cursor, to)
  {
  }

  lemma EvolvesOn(a: World, b: World, c: World, from: Time, mid: Time, to: Time)
    requires Evolves(a, b, from, mid) && Evolves(b, c, mid, to)
    ensures Evolves(a, c, from, to)
  {
  }

  /** Nor does writing what GitLab currently says, however far a run gets. */
  lemma UpsertKeepsMrInv(world: World, cache: MrCache, cursor: Option<Time>, clock: Time, mr: Mr)
    requires MrInv(world, cache, cursor, clock)
    requires mr.iid in world && world[mr.iid] == mr
    ensures MrInv(world, cache[mr.iid := ToMrRow(mr)], cursor, clock)
  {
  }

  /**
   * A full drain of what the project was like at `asked` lets the cursor move to
   * any moment up to `asked`, whatever has changed since.
   */
  lemma CursorMayMove(asked: World, world: World, cache: MrCache, cursor: Option<Time>, at: Time, now: Time,
                      runEnd: Time)
    requires MrInv(asked, cache, cursor, at) && Evolves(asked, world, at, now) && 0 <= runEnd <= at
    requires forall mr :: mr in Matching(asked, if cursor.Some? then cursor.value else 0) ==>
               mr.iid in cache && cache[mr.iid] == ToMrRow(mr)
    ensures MrInv(world, cache, Some(runEnd), now) && CachedAsOf(asked, cache)
  {
    DrainMovesCursor(asked, cache, cursor, at, runEnd);
    EvolutionKeepsMrInv(asked, world, cache, Some(runEnd), at, now);
  }

  /**
   * And to no later moment: a change made after the list was asked for and
   * stamped before the cursor is lost to the next run.
   */
  lemma LateCursorLosesChanges(old': Mr, new': Mr, at: Time, runEnd: Time)
    requires old'.iid == new'.iid && 0 <= old'.updatedAt <= at <= new'.updatedAt < runEnd
    requires ToMrRow(old') != ToMrRow(new')
    ensures var (asked, world) := (map[old'.iid := old'], map[new'.iid := new']);
            var cache := map[old'.iid := ToMrRow(old')];
            && MrInv(asked, cache, None, at) && CachedAsOf(asked, cache) && Evolves(asked, world, at, runEnd)
            && !MrInv(world, cache, Some(runEnd), runEnd) && new' !in Matching(world, runEnd)
  {
    var world := map[new'.iid := new'];
    assert new'.iid in world && world[new'.iid].updatedAt < runEnd;
  }

  /** A full drain lets the cursor move to any moment taken before it. */
  lemma DrainMovesCursor(world: World, cache: MrCache, cursor: Option<Time>, clock: Time, runEnd: Time)
    requires MrInv(world, cache, cursor, clock)
    requires 0 <= runEnd <= clock
    requires forall mr :: mr in Matching(world, if cursor.Some? then cursor.value else 0) ==>
               mr.iid in cache && cache[mr.iid] == ToMrRow(mr)
    ensures MrInv(world, cache, Some(runEnd), clock)
    ensures CachedAsOf(world, cache)
  {
    var after := if cursor.Some? then cursor.value else 0;
    forall iid | iid in world ensures iid in cache && cache[iid] == ToMrRow(world[iid]) {
      if world[iid].updatedAt >= after {
        assert world[iid] in Matching(world, after);
      }
    }
  }
}
