/**
 * The sync engine as the worker runs it. Every call out, to GitLab or to the
 * database, may throw; a run can therefore stop between any two writes, and
 * the contracts hold for each way of stopping.
 */
module SyncOrchestration {
  import opened Base
  import opened Pagination
  import opened CommitWindow
  import opened CommitRuns
  import opened MergeRequests

  datatype SyncOutcome =
    | Completed(commitsUpserted: nat, mergeRequestsUpserted: nat)
    | Paused(commitsUpserted: nat, nextBranch: Branch)
    | Blocked

  /** One clock for worker and database. It never goes back. */
  class Clock {
    var now: Time

    constructor (start: Time)
      ensures now == start
    {
      now := start;
    }

    method Read() returns (t: Time)
      modifies this
      ensures old(now) <= now == t
    {
      var passed: int := *;
      now := now + Max(passed, 0);
      t := now;
    }
  }

  /** The GitLab project, changed by its users whenever no page is being read. */
  class GitLabProject {
    var mrs: World

    constructor ()
      ensures mrs == map[]
    {
      mrs := map[];
    }

    method MoveOn(clock: Clock)
      modifies this, clock
      ensures Evolves(old(mrs), mrs, old(clock.now), clock.now)
    {
      var from := clock.now;
      var to := clock.Read();
      var later: World := *;
      if Evolves(mrs, later, from, to) {
        mrs := later;
      }
    }
  }

  /** The rows of one project: sync states, caches, and what failing candidates leave behind. */
  class SyncStore {
    var commitState: Option<CommitState>
    var commits: CommitCache
    var mrCursor: Option<Time>
    var mrs: MrCache
    var invalidConnections: set<string>
    var deniedUsers: set<string>
    ghost var ledger: Ledger
    /** Every run over a commit window so far. */
    ghost var runs: seq<Run>
    /** The project as it was when its merge requests were last asked for, and when that was. */
    ghost var pulled: World
    ghost var pulledAt: Time

    constructor ()
      ensures commitState == None && commits == map[] && mrCursor == None && mrs == map[]
      ensures invalidConnections == {} && deniedUsers == {}
      ensures ledger == Ledger(map[], {}, 0, []) && runs == [] && pulled == map[]
    {
      commitState, commits, mrCursor, mrs := None, map[], None, map[];
      invalidConnections, deniedUsers := {}, {};
      ledger, runs, pulled := Ledger(map[], {}, 0, []), [], map[];
    }

    method BeginCommitWindow(start: Time, end: Time, cursor: Option<BranchCursor>)
      modifies this`commitState
      ensures commitState
           == Some(CommitState(if old(commitState).Some? then old(commitState).value.watermark else None,
                               Some(start), Some(end), cursor))
    {
      commitState := Some(CommitState(if commitState.Some? then commitState.value.watermark else None,
                                      Some(start), Some(end), cursor));
    }

    method AdvanceCommitBranch(cursor: BranchCursor)
      requires commitState.Some?
      modifies this`commitState
      ensures commitState == Some(old(commitState).value.(cursor := Some(cursor)))
    {
      commitState := Some(commitState.value.(cursor := Some(cursor)));
    }

    method CompleteCommitWindow(watermark: Time)
      requires commitState.Some?
      modifies this`commitState
      ensures commitState == Some(old(commitState).value.(watermark := Some(watermark), cursor := None))
    {
      commitState := Some(commitState.value.(watermark := Some(watermark), cursor := None));
    }

    method UpsertCommit(sha: Sha, row: CommitRow)
      modifies this`commits
      ensures commits == old(commits)[sha := row]
    {
      commits := commits[sha := row];
    }

    method UpsertMergeRequest(iid: int, row: MrRow)
      modifies this`mrs
      ensures mrs == old(mrs)[iid := row]
    {
      mrs := mrs[iid := row];
    }
  }

  /** Whether the call that follows throws, and what. */
  method Call(calm: bool) returns (fault: Option<Fault>)
    ensures calm ==> fault == None
  {
    fault := *;
    if calm {
      fault := None;
    }
  }

  /** Whether a database read throws. It throws nothing that names a credential or a project. */
  method Fails(calm: bool) returns (throws: bool)
    ensures calm ==> !throws
  {
    throws := *;
    if calm {
      throws := false;
    }
  }

  /** A database write may throw before it takes effect, or after: then only its acknowledgement is lost. */
  datatype Effect = Acknowledged | NotDone | Unacknowledged

  method Write(calm: bool) returns (e: Effect)
    ensures calm ==> e.Acknowledged?
  {
    e := *;
    if calm {
      e := Acknowledged;
    }
  }

  // ----- Branch names -----

  ghost predicate TotalPreorder(le: (Branch, Branch) -> bool) {
    && (forall a, b :: le(a, b) || le(b, a))
    && (forall a, b, c :: le(a, b) && le(b, c) ==> le(a, c))
  }

  ghost predicate SortedBy(le: (Branch, Branch) -> bool, names: seq<Branch>) {
    forall i, j :: 0 <= i < j < |names| ==> le(names[i], names[j])
  }

  /** Puts `b` before the first name that does not sort below it. */
  function Insert(le: (Branch, Branch) -> bool, b: Branch, names: seq<Branch>): (r: seq<Branch>)
    ensures forall x :: x in r <==> x == b || x in names
  {
    if names == [] || le(b, names[0]) then [b] + names
    else [names[0]] + Insert(le, b, names[1..])
  }

  function Sort(le: (Branch, Branch) -> bool, names: seq<Branch>): (r: seq<Branch>)
    ensures forall x :: x in r <==> x in names
  {
    if names == [] then [] else Insert(le, names[0], Sort(le, names[1..]))
  }

  lemma {:induction false} InsertSorts(le: (Branch, Branch) -> bool, b: Branch, names: seq<Branch>)
    requires TotalPreorder(le) && SortedBy(le, names) && NoRepeats(names) && b !in names
    ensures SortedBy(le, Insert(le, b, names)) && NoRepeats(Insert(le, b, names))
  {
    if names != [] && !le(b, names[0]) {
      InsertSorts(le, b, names[1..]);
      var rest := Insert(le, b, names[1..]);
      assert forall x :: x in rest ==> le(names[0], x) && x != names[0];
    } else if names != [] {
      assert forall x :: x in names ==> le(b, x);
    }
  }

  lemma {:induction false} SortSorts(le: (Branch, Branch) -> bool, names: seq<Branch>)
    requires TotalPreorder(le) && NoRepeats(names)
    ensures SortedBy(le, Sort(le, names)) && NoRepeats(Sort(le, names))
  {
    if names != [] {
      SortSorts(le, names[1..]);
      InsertSorts(le, names[0], Sort(le, names[1..]));
    }
  }

  class SyncOrchestrator {
    const store: SyncStore
    const clock: Clock
    const gitlab: GitLabProject
    const settings: Settings

    constructor (store: SyncStore, clock: Clock, gitlab: GitLabProject, settings: Settings)
      ensures this.store == store && this.clock == clock && this.gitlab == gitlab && this.settings == settings
    {
      this.store, this.clock, this.gitlab, this.settings := store, clock, gitlab, settings;
    }

    ghost function Now(): View
      reads store, clock
    {
      View(store.commitState, store.commits, store.ledger, clock.now, settings.overlapMs)
    }

    /** Every page of the branch list, without repetitions, in collation order. */
    method ListAllBranchNames(candidate: Candidate) returns (r: Attempt<seq<Branch>>)
      requires candidate.Valid() && TotalPreorder(settings.le)
      ensures r.Done? ==>
        && SortedBy(settings.le, r.value) && NoRepeats(r.value)
        && Ends(candidate.branchPages, candidate.cursors, None, {})
        && forall b :: b in r.value <==> candidate.Sees(b)
      ensures candidate.calm && Ends(candidate.branchPages, candidate.cursors, None, {}) ==> r.Done?
      ensures candidate.calm && r.Threw? ==> r.fault == OtherFault
    {
      var names: seq<Branch> := [];
      var cursor: Option<Cursor> := None;
      var seen: set<Cursor> := {};
      ghost var all := Reached(candidate.branchPages, candidate.cursors, None, {});
      while true
        invariant NoRepeats(names)
        invariant forall b :: b in all <==>
                    b in names || b in Reached(candidate.branchPages, candidate.cursors, cursor, seen)
        invariant Ends(candidate.branchPages, candidate.cursors, None, {})
              <==> Ends(candidate.branchPages, candidate.cursors, cursor, seen)
        decreases candidate.cursors - seen
      {
        var fault := Call(candidate.calm);
        if fault.Some? {
          return Threw(fault.value);
        }
        var page := candidate.branchPages(cursor);
        ghost var before := names;
        for k := 0 to |page.items|
          invariant NoRepeats(names)
          invariant forall b :: b in names <==> b in before || b in page.items[..k]
        {
          if page.items[k] !in names {
            names := names + [page.items[k]];
          }
        }
        if page.next.None? {
          break;
        }
        if page.next.value in seen {
          return Threw(OtherFault);
        }
        seen := seen + {page.next.value};
        cursor := page.next;
      }
      SortSorts(settings.le, names);
      return Done(Sort(settings.le, names));
    }

    /** The first position whose name does not sort below the target. */
    method LowerBound(names: seq<Branch>, target: Branch) returns (low: nat)
      requires TotalPreorder(settings.le) && SortedBy(settings.le, names)
      ensures low <= |names|
      ensures forall i :: 0 <= i < |names| ==> (i < low <==> !settings.le(target, names[i]))
    {
      low := 0;
      var high := |names|;
      while low < high
        invariant low <= high <= |names|
        invariant forall i :: 0 <= i < low ==> !settings.le(target, names[i])
        invariant forall i :: high <= i < |names| ==> settings.le(target, names[i])
      {
        var middle := (low + high) / 2;
        if !settings.le(target, names[middle]) {
          low := middle + 1;
        } else {
          high := middle;
        }
      }
    }

    /** Writes the commits of one page; any write may throw. `inv` is whatever these writes keep. */
    method WritePage(srv: Server, calm: bool, items: seq<Commit>, until: Time, ghost inv: CommitCache -> bool)
      returns (r: Attempt<nat>)
      requires forall c :: c in items ==> c == srv.commitOf(c.sha)
      requires inv(store.commits)
      requires forall m, c :: inv(m) && c in items ==> inv(m[c.sha := srv.Row(c.sha, until)])
      modifies store`commits
      ensures inv(store.commits)
      ensures forall sha :: sha in old(store.commits) ==>
                && sha in store.commits
                && (store.commits[sha] == old(store.commits)[sha] || store.commits[sha] == srv.Row(sha, until))
      ensures calm ==> r.Done?
      ensures r.Done? ==>
        && r.value == |items|
        && forall c :: c in items ==> c.sha in store.commits && store.commits[c.sha] == srv.Row(c.sha, until)
    {
      for k := 0 to |items|
        invariant inv(store.commits)
        invariant forall sha :: sha in old(store.commits) ==>
                    && sha in store.commits
                    && (store.commits[sha] == old(store.commits)[sha] || store.commits[sha] == srv.Row(sha, until))
        invariant forall j :: 0 <= j < k ==>
                    items[j].sha in store.commits && store.commits[items[j].sha] == srv.Row(items[j].sha, until)
      {
        var effect := Write(calm);
        if effect.NotDone? {
          return Threw(OtherFault);
        }
        assert items[k] in items;
        store.UpsertCommit(items[k].sha, ToRow(items[k], until));
        if effect.Unacknowledged? {
          return Threw(OtherFault);
        }
      }
      return Done(|items|);
    }

    /** Every page of one branch; each commit is written as it is read. */
    method DrainBranch(srv: Server, candidate: Candidate, branch: Branch, since: Time, until: Time,
                       ghost inv: CommitCache -> bool)
      returns (r: Attempt<nat>)
      requires srv.Valid() && inv(store.commits)
      requires forall m, sha :: inv(m) && sha in srv.Shas(branch, since, until) ==> inv(m[sha := srv.Row(sha, until)])
      modifies store`commits
      ensures inv(store.commits)
      ensures r.Threw? && candidate.calm ==> branch in candidate.gone || !srv.Drains(branch, since, until)
      ensures r.Threw? && candidate.calm ==> r.fault == FaultAt(candidate, branch)
      ensures r.Done? ==>
        && branch !in candidate.gone
        && BranchCached(srv, branch, since, until, store.commits)
        && r.value == |Reached(srv.listing(branch, since, until), srv.cursors, None, {})|
    {
      var upserted := 0;
      var cursor: Option<Cursor> := None;
      var seen: set<Cursor> := {};
      var list := srv.listing(branch, since, until);
      ghost var all := Reached(list, srv.cursors, None, {});
      ReachedKnown(srv, branch, since, until, None, {});
      while true
        invariant inv(store.commits)
        invariant cursor.Some? ==> branch !in candidate.gone
        invariant forall c :: c in Reached(list, srv.cursors, cursor, seen) ==> c in all
        invariant upserted + |Reached(list, srv.cursors, cursor, seen)| == |all|
        invariant forall c :: c in all ==>
                    || (c.sha in store.commits && store.commits[c.sha] == srv.Row(c.sha, until))
                    || c in Reached(list, srv.cursors, cursor, seen)
        invariant Ends(list, srv.cursors, None, {}) <==> Ends(list, srv.cursors, cursor, seen)
        decreases srv.cursors - seen
      {
        var fault := Call(candidate.calm);
        if fault.Some? {
          return Threw(fault.value);
        }
        if branch in candidate.gone {
          return Threw(Denied);
        }
        var page := list(cursor);
        assert forall c :: c in page.items ==> c in all && c.sha in srv.Shas(branch, since, until);
        var written := WritePage(srv, candidate.calm, page.items, until, inv);
        if written.Threw? {
          return written;
        }
        upserted := upserted + written.value;
        if page.next.None? {
          break;
        }
        if page.next.value in seen {
          return Threw(OtherFault);
        }
        seen := seen + {page.next.value};
        cursor := page.next;
      }
      return Done(upserted);
    }

    /** Drains one branch and moves the cursor past it, unless it is the last. */
    method DrainStep(srv: Server, candidate: Candidate, branches: seq<Branch>, index: nat, start: Time, end: Time,
                     ghost w: Window)
      returns (r: Attempt<nat>, ghost at: nat)
      requires Draining(srv, Now(), w, index) && index < |branches|
      requires w.branches == branches && w.start == start && w.end == end
      requires store.commitState.Some?
      requires store.commitState.value.windowStart == Some(start) && store.commitState.value.windowEnd == Some(end)
      requires store.ledger.pauses <= index
      modifies store`commitState, store`commits
      ensures index <= at <= index + 1 && (r.Done? ==> at == index + 1)
      ensures Draining(srv, Now(), w, at) && Readable(srv, candidate, w, index, at)
      ensures r.Done? ==> r.value == |Reached(srv.listing(branches[index], start, end), srv.cursors, None, {})|
      ensures r.Threw? && candidate.calm ==>
        !Readable(srv, candidate, w, index, index + 1) && at == index && r.fault == FaultAt(candidate, branches[index])
      ensures store.commitState == (if at == index || at == |branches| then old(store.commitState)
                                    else Some(old(store.commitState).value.(cursor := Some(Snapshot(branches, at)))))
    {
      hide Draining, Inv, Server.Shas, Server.Drains;
      at := index;
      ghost var v := Now();
      DrainingHolds(srv, v, w, index);
      forall m, sha | Draining(srv, v.(commits := m), w, index) && sha in srv.Shas(branches[index], start, end)
        ensures Draining(srv, v.(commits := m[sha := srv.Row(sha, end)]), w, index)
      {
        UpsertKeepsDraining(srv, v.(commits := m), w, index, sha);
      }
      r := DrainBranch(srv, candidate, branches[index], start, end, m => Draining(srv, v.(commits := m), w, index));
      assert Now() == v.(commits := store.commits);
      if r.Threw? {
        return;
      }
      if index + 1 == |branches| {
        LastKeepsInv(srv, Now(), w, index);
        at := index + 1;
        return;
      }
      var effect := Write(candidate.calm);
      if effect.NotDone? {
        return Threw(OtherFault), at;
      }
      AdvanceKeepsInv(srv, Now(), w, index);
      store.AdvanceCommitBranch(Snapshot(branches, index + 1));
      at := index + 1;
      if effect.Unacknowledged? {
        r := Threw(OtherFault);
      }
    }

    /**
     * Drains the branches from `from` on. The cursor moves past a branch only
     * when it is drained; past the last one it is cleared together with the
     * watermark, so a crash in between replays the last branch.
     */
    method DrainWindow(srv: Server, candidate: Candidate, branches: seq<Branch>, from: nat, start: Time, end: Time,
                       ghost w: Window)
      returns (r: Attempt<CommitRun>, ghost at: nat)
      requires srv.Valid() && Draining(srv, Now(), w, from)
      requires w.branches == branches && w.start == start && w.end == end
      requires store.commitState.Some?
      requires store.commitState.value.windowStart == Some(start) && store.commitState.value.windowEnd == Some(end)
      requires from <= |branches| && (from < |branches| ==> store.commitState.value.cursor.Some?)
      requires store.ledger.pauses <= from
      modifies store`commitState, store`commits, store`ledger
      ensures Inv(srv, Now()) && LoopEnded(srv, candidate, old(Now()), Now(), r, w, from, at)
    {
      hide Inv, Draining, Atomic, Progress, Server.Drains, Counted, Reached, Unstopped;
      CountedMore(srv, w, from, from);
      UnstoppedOn(candidate, w, from, from);
      var upserted := 0;
      ghost var first := store.commitState.value;
      at := from;
      for index := from to |branches|
        invariant Draining(srv, Now(), w, index) && Readable(srv, candidate, w, from, index)
        invariant store.commitState == Some(StateAt(first, branches, from, index))
        invariant Unstopped(candidate, w, from, index + 1)
        invariant store.ledger == old(store.ledger) && at == index && upserted == Counted(srv, w, from, index)
      {
        UnstoppedOn(candidate, w, from, index);
        UnstoppedOn(candidate, w, from, index + 1);
        var drained;
        drained, at := DrainStep(srv, candidate, branches, index, start, end, w);
        if drained.Threw? {
          DrainingHolds(srv, Now(), w, at);
          return Threw(drained.fault), at;
        }
        upserted := upserted + drained.value;
        CountedMore(srv, w, from, index);
        if index + 1 < |branches| && candidate.StopsBefore(index + 1 - from, branches[index + 1]) {
          DrainingHolds(srv, Now(), w, index + 1);
          PauseKeepsInv(srv, Now(), w, index + 1);
          store.ledger := store.ledger.(pauses := store.ledger.pauses + 1);
          return Done(PausedAt(upserted, branches[index + 1])), index + 1;
        }
      }
      UnstoppedOn(candidate, w, from, at);
      r := CloseWindow(srv, candidate, end, upserted, w);
    }

    /** The watermark moves and the cursor is cleared, in one write, acknowledged or not. */
    method CloseWindow(srv: Server, candidate: Candidate, end: Time, upserted: nat, ghost w: Window)
      returns (r: Attempt<CommitRun>)
      requires Draining(srv, Now(), w, |w.branches|) && w.end == end && store.commitState.Some?
      modifies store`commitState, store`ledger
      ensures srv.Valid() && Inv(srv, Now())
      ensures r == Done(Drained(upserted)) || (r == Threw(OtherFault) && !candidate.calm)
      ensures if store.ledger == old(store.ledger) then
                && r.Threw? && store.commitState == old(store.commitState)
                && Progress(srv, w, |w.branches|, store.ledger.base, store.commits)
              else
                && store.commitState == Some(old(store.commitState).value.(watermark := Some(end), cursor := None))
                && store.ledger == old(store.ledger).(done := old(store.ledger).done + [w])
                && store.commits == Atomic(srv, store.ledger.base, w)
    {
      hide Inv, Draining, Atomic, Progress, Server.Drains;
      DrainingHolds(srv, Now(), w, |w.branches|);
      CompleteKeepsInv(srv, Now(), w);
      var effect := Write(candidate.calm);
      if effect.NotDone? {
        return Threw(OtherFault);
      }
      store.CompleteCommitWindow(end);
      store.ledger := store.ledger.(done := store.ledger.done + [w]);
      r := if effect.Acknowledged? then Done(Drained(upserted)) else Threw(OtherFault);
    }

    /** The names not yet in the snapshot, in the order in which they were found. */
    function Unknown(found: seq<Branch>, known: seq<Branch>): (r: seq<Branch>)
      ensures forall b :: b in r <==> b in found && b !in known
    {
      if found == [] then []
      else (if found[0] in known then [] else [found[0]]) + Unknown(found[1..], known)
    }

    lemma {:induction false} UnknownIsDistinct(found: seq<Branch>, known: seq<Branch>)
      requires NoRepeats(found)
      ensures NoRepeats(Unknown(found, known))
    {
      if found != [] {
        UnknownIsDistinct(found[1..], known);
        var rest := Unknown(found[1..], known);
        assert found[0] !in rest;
        assert forall i :: 0 <= i < |rest| ==> rest[i] in rest;
      }
    }

    /** Takes up a snapshot; branches found since are appended, in one write if there are any. */
    method ResumeWindow(srv: Server, candidate: Candidate, discovered: seq<Branch>)
      returns (ok: bool, branches: seq<Branch>, from: nat, ghost w: Window, ghost chosen: bool)
      requires Inv(srv, Now()) && Now().AtSnapshot() && candidate.Valid()
      requires NoRepeats(discovered) && forall b :: b in discovered <==> candidate.Sees(b)
      modifies store`commitState
      ensures (candidate.calm ==> ok) && (ok ==> chosen)
      ensures !chosen ==> Now() == old(Now())
      ensures chosen ==>
        && Draining(srv, Now(), w, from) && w.branches == branches
        && w.start == old(Now()).OpenWindow().start && w.end == old(Now()).OpenWindow().end
        && Chosen(settings, candidate, old(Now()), Now(), w, from)
    {
      hide Inv, Draining;
      ghost var before := Now();
      OpenWindowEnds(srv, before);
      var cursor := store.commitState.value.cursor.value;
      var saved, nextIndex := cursor.branches, cursor.nextIndex;
      var added := Unknown(discovered, saved);
      UnknownIsDistinct(discovered, saved);
      branches, chosen := saved + added, false;
      from := Min(nextIndex, |branches|);
      assert branches[|saved|..] == added;
      ResumeKeepsInv(srv, Now(), added);
      w := before.OpenWindow().(branches := branches);
      if |added| > 0 {
        var effect := Write(candidate.calm);
        if effect.NotDone? {
          ok := false;
          return;
        }
        store.AdvanceCommitBranch(Snapshot(branches, from));
        ok := effect.Acknowledged?;
      } else {
        assert branches == saved;
        ok := true;
      }
      chosen := true;
    }

    /** Takes up a pre-snapshot cursor: the names below it are given up for this window. */
    method ContinueByName(srv: Server, candidate: Candidate, branches: seq<Branch>) returns (from: nat, ghost w: Window)
      requires Inv(srv, Now()) && Now().Continuing() && !Now().AtSnapshot() && candidate.Valid()
               && TotalPreorder(settings.le)
      requires SortedBy(settings.le, branches) && NoRepeats(branches)
      requires forall b :: b in branches <==> candidate.Sees(b)
      modifies store`ledger
      ensures Draining(srv, Now(), w, from) && w.branches == branches
      ensures w.start == store.commitState.value.windowStart.value && w.end == store.commitState.value.windowEnd.value
      ensures Chosen(settings, candidate, old(Now()), Now(), w, from)
    {
      hide Inv, Draining;
      OpenWindowEnds(srv, Now());
      from := LowerBound(branches, store.commitState.value.cursor.value.name);
      LegacyKeepsInv(srv, Now(), branches, from);
      w := Window(store.commitState.value.windowStart.value, store.commitState.value.windowEnd.value, branches,
                  set b | b in branches[..from]);
      store.ledger := Ledger(store.commits, w.skipped, 0, store.ledger.done);
    }

    /** Opens the next window, from the overlap before the watermark up to now. */
    method BeginWindow(srv: Server, candidate: Candidate, branches: seq<Branch>)
      returns (ok: bool, start: Time, end: Time, ghost w: Window, ghost chosen: bool)
      requires Inv(srv, Now()) && !Now().Continuing() && candidate.Valid()
      requires NoRepeats(branches) && forall b :: b in branches <==> candidate.Sees(b)
      modifies store`commitState, store`ledger, clock
      ensures (candidate.calm ==> ok) && (ok ==> chosen)
      ensures !chosen ==> Inv(srv, Now()) && Later(old(Now()), Now())
      ensures chosen ==>
        && Draining(srv, Now(), w, 0) && w.branches == branches && w.start == start && w.end == end
        && Chosen(settings, candidate, old(Now()), Now(), w, 0)
    {
      hide Inv, Draining;
      ghost var before := Now();
      var prior := store.commitState;
      chosen := false;
      end := clock.Read();
      start :=
        if prior.Some? && prior.value.watermark.Some?
        then Max(COLD_START, prior.value.watermark.value - settings.overlapMs)
        else COLD_START;
      w := Window(start, end, branches, {});
      BeginKeepsInv(srv, before, end, branches);
      var effect := Write(candidate.calm);
      if effect.NotDone? {
        ok := false;
        return;
      }
      store.BeginCommitWindow(start, end, if |branches| > 0 then Some(Snapshot(branches, 0)) else None);
      store.ledger := Ledger(store.commits, {}, 0, store.ledger.done);
      ok, chosen := effect.Acknowledged?, true;
    }

    /** Takes up the open window, or opens the next; `chosen` says whether that is persisted, acknowledged or not. */
    method ChooseWindow(srv: Server, candidate: Candidate, discovered: seq<Branch>)
      returns (ok: bool, branches: seq<Branch>, from: nat, start: Time, end: Time, ghost w: Window, ghost chosen: bool)
      requires Inv(srv, Now()) && candidate.Valid() && TotalPreorder(settings.le)
      requires SortedBy(settings.le, discovered) && NoRepeats(discovered)
      requires forall b :: b in discovered <==> candidate.Sees(b)
      modifies store`commitState, store`ledger, clock
      ensures (candidate.calm ==> ok) && (ok ==> chosen)
      ensures !chosen ==> Inv(srv, Now()) && Later(old(Now()), Now())
      ensures chosen ==>
        && Draining(srv, Now(), w, from)
        && w.branches == branches && w.start == start && w.end == end
        && Chosen(settings, candidate, old(Now()), Now(), w, from)
    {
      hide Inv, Draining, Chosen, SortedBy;
      var prior := store.commitState;
      var continuing := prior.Some? && prior.value.cursor.Some? && prior.value.windowStart.Some?
                        && prior.value.windowEnd.Some?;
      branches := discovered;
      if !continuing {
        from := 0;
        ok, start, end, w, chosen := BeginWindow(srv, candidate, branches);
        return;
      }
      start, end := prior.value.windowStart.value, prior.value.windowEnd.value;
      if prior.value.cursor.value.Snapshot? {
        ok, branches, from, w, chosen := ResumeWindow(srv, candidate, discovered);
      } else {
        from, w := ContinueByName(srv, candidate, branches);
        ok, chosen := true, true;
      }
    }

    /**
     * One run over the open commit window, or over a new one. However it ends,
     * the persisted state is consistent, and it is the state of the window
     * chosen, at the branch the run has come to.
     */
    method SyncCommits(srv: Server, candidate: Candidate) returns (r: Attempt<CommitRun>, ghost work: Option<Work>)
      requires Inv(srv, Now()) && candidate.Valid() && TotalPreorder(settings.le)
      modifies store`commitState, store`commits, store`ledger, clock
      ensures IsRun(srv, settings, Run(candidate, old(Now()), Now(), r, work))
    {
      hide Draining;
      work := None;
      var listed := ListAllBranchNames(candidate);
      if listed.Threw? {
        return Threw(listed.fault), work;
      }
      var throws := Fails(candidate.calm);
      if throws {
        return Threw(OtherFault), work;
      }
      var ok, branches, from, start, end;
      ghost var w, chosen, at;
      ok, branches, from, start, end, w, chosen := ChooseWindow(srv, candidate, listed.value);
      ghost var mid := Now();
      if chosen {
        DrainingHolds(srv, mid, w, from);
        work := Some(Work(w, from, from));
      }
      if !ok {
        return Threw(OtherFault), work;
      }
      r, at := DrainWindow(srv, candidate, branches, from, start, end, w);
      work := Some(Work(w, from, at));
    }

    // ----- Merge requests -----

    ghost predicate MrsOk()
      reads store, clock, gitlab
    {
      MrInv(gitlab.mrs, store.mrs, store.mrCursor, clock.now)
    }

    /** Writes the merge requests of one page; any write may throw. */
    method WriteMergeRequests(items: seq<Mr>, calm: bool) returns (r: Attempt<nat>)
      requires MrsOk() && forall mr :: mr in items ==> mr.iid in gitlab.mrs && gitlab.mrs[mr.iid] == mr
      modifies store`mrs
      ensures MrsOk()
      ensures forall iid :: iid in old(store.mrs) && iid in gitlab.mrs
                            && old(store.mrs)[iid] == ToMrRow(gitlab.mrs[iid]) ==>
                iid in store.mrs && store.mrs[iid] == ToMrRow(gitlab.mrs[iid])
      ensures calm ==> r.Done?
      ensures r.Done? ==>
        && r.value == |items|
        && forall mr :: mr in items ==> mr.iid in store.mrs && store.mrs[mr.iid] == ToMrRow(mr)
    {
      hide MrInv;
      for k := 0 to |items|
        invariant MrsOk()
        invariant forall iid :: iid in old(store.mrs) && iid in gitlab.mrs
                                && old(store.mrs)[iid] == ToMrRow(gitlab.mrs[iid]) ==>
                    iid in store.mrs && store.mrs[iid] == ToMrRow(gitlab.mrs[iid])
        invariant forall j :: 0 <= j < k ==>
                    items[j].iid in store.mrs && store.mrs[items[j].iid] == ToMrRow(items[j])
      {
        var effect := Write(calm);
        if effect.NotDone? {
          return Threw(OtherFault);
        }
        assert items[k] in items;
        UpsertKeepsMrInv(gitlab.mrs, store.mrs, store.mrCursor, clock.now, items[k]);
        store.UpsertMergeRequest(items[k].iid, ToMrRow(items[k]));
        if effect.Unacknowledged? {
          return Threw(OtherFault);
        }
      }
      return Done(|items|);
    }

    /** Every page of the project's changed merge requests; each is written as it is read. */
    method ReadMergeRequests(srv: MrServer, after: Time, calm: bool) returns (r: Attempt<nat>)
      requires srv.Valid() && MrsOk()
      modifies store`mrs, clock
      ensures MrsOk() && old(clock.now) <= clock.now
      ensures r.Done? ==>
        && r.value == |Reached(srv.listing(gitlab.mrs, after), srv.cursors, None, {})|
        && Ends(srv.listing(gitlab.mrs, after), srv.cursors, None, {})
      ensures r.Threw? && calm ==> r.fault == OtherFault && !Ends(srv.listing(gitlab.mrs, after), srv.cursors, None, {})
      ensures r.Done? ==> forall mr :: mr in Matching(gitlab.mrs, after) ==>
                mr.iid in store.mrs && store.mrs[mr.iid] == ToMrRow(mr)
    {
      var upserted := 0;
      var cursor: Option<Cursor> := None;
      var seen: set<Cursor> := {};
      var list := srv.listing(gitlab.mrs, after);
      ghost var all := Matching(gitlab.mrs, after);
      assert forall mr :: mr in Reached(list, srv.cursors, None, {}) <==> mr in all by {
        assert (set mr | mr in Reached(list, srv.cursors, None, {})) == all;
      }
      while true
        invariant MrsOk()
        invariant upserted + |Reached(list, srv.cursors, cursor, seen)| == |Reached(list, srv.cursors, None, {})|
        invariant forall mr :: mr in Reached(list, srv.cursors, cursor, seen) ==> mr in all
        invariant forall mr :: mr in all ==>
                    || (mr.iid in store.mrs && store.mrs[mr.iid] == ToMrRow(mr))
                    || mr in Reached(list, srv.cursors, cursor, seen)
        invariant Ends(list, srv.cursors, None, {}) <==> Ends(list, srv.cursors, cursor, seen)
        invariant old(clock.now) <= clock.now
        decreases srv.cursors - seen
      {
        ghost var before' := clock.now;
        var now := clock.Read();
        MrInvWaits(gitlab.mrs, store.mrs, store.mrCursor, before', now);
        var fault := Call(calm);
        if fault.Some? {
          return Threw(fault.value);
        }
        var page := list(cursor);
        ghost var before := store.mrs;
        assert forall mr :: mr in page.items ==> mr in all;
        var written := WriteMergeRequests(page.items, calm);
        if written.Threw? {
          return written;
        }
        upserted := upserted + written.value;
        if page.next.None? {
          break;
        }
        if page.next.value in seen {
          return Threw(OtherFault);
        }
        seen := seen + {page.next.value};
        cursor := page.next;
      }
      return Done(upserted);
    }

    /** The same, and GitLab moves on as soon as the last page is read. */
    method DrainMergeRequests(srv: MrServer, after: Time, calm: bool) returns (r: Attempt<nat>)
      requires srv.Valid() && MrsOk() && 0 <= clock.now
      modifies store`mrs, clock, gitlab
      ensures MrsOk() && Evolves(old(gitlab.mrs), gitlab.mrs, old(clock.now), clock.now)
      ensures MrInv(old(gitlab.mrs), store.mrs, store.mrCursor, old(clock.now))
      ensures r.Done? ==>
        && r.value == |Reached(srv.listing(old(gitlab.mrs), after), srv.cursors, None, {})|
        && Ends(srv.listing(old(gitlab.mrs), after), srv.cursors, None, {})
      ensures r.Threw? && calm ==>
        r.fault == OtherFault && !Ends(srv.listing(old(gitlab.mrs), after), srv.cursors, None, {})
      ensures r.Done? ==> forall mr :: mr in Matching(old(gitlab.mrs), after) ==>
                mr.iid in store.mrs && store.mrs[mr.iid] == ToMrRow(mr)
    {
      hide MrInv, Matching, Reached, Ends;
      ghost var listed := gitlab.mrs;
      r := ReadMergeRequests(srv, after, calm);
      ghost var read := clock.now;
      MrInvThen(listed, store.mrs, store.mrCursor, old(store.mrs), old(clock.now), read);
      var now := GitLabMovesOn();
      StandsStill(listed, old(clock.now), read);
      EvolvesOn(listed, listed, gitlab.mrs, old(clock.now), read, clock.now);
    }

    /** Time passes, and GitLab's users change what they like. */
    method GitLabMovesOn() returns (now: Time)
      requires MrsOk() && 0 <= clock.now
      modifies clock, gitlab
      ensures MrsOk() && now == clock.now && Evolves(old(gitlab.mrs), gitlab.mrs, old(clock.now), clock.now)
    {
      ghost var world, from := gitlab.mrs, clock.now;
      gitlab.MoveOn(clock);
      EvolutionKeepsMrInv(world, gitlab.mrs, store.mrs, store.mrCursor, from, clock.now);
      now := clock.now;
    }

    /** What was asked for was the project as it was then, and since then it has only moved on. */
    ghost predicate AskedSince(world: World, from: Time)
      reads store, clock, gitlab
    {
      && Evolves(world, store.pulled, from, store.pulledAt)
      && Evolves(store.pulled, gitlab.mrs, store.pulledAt, clock.now)
    }

    /**
     * One run over the merge requests changed since the cursor. GitLab moves on
     * all the time but while the list is read. The new cursor is taken before the
     * list is asked for and written after its last page; if it has moved, all
     * merge requests are cached as they were when asked for, whatever is reported.
     */
    method SyncMergeRequests(srv: MrServer, calm: bool) returns (r: Attempt<nat>)
      requires srv.Valid() && MrsOk() && 0 <= clock.now
      modifies store`mrs, store`mrCursor, store`pulled, store`pulledAt, clock, gitlab
      ensures MrsOk() && Evolves(old(gitlab.mrs), gitlab.mrs, old(clock.now), clock.now)
      ensures r.Done? || calm || store.mrCursor != old(store.mrCursor) ==> AskedSince(old(gitlab.mrs), old(clock.now))
      ensures r.Done? || store.mrCursor != old(store.mrCursor) ==>
        && store.mrCursor.Some? && old(clock.now) <= store.mrCursor.value <= store.pulledAt
        && CachedAsOf(store.pulled, store.mrs)
      ensures r.Done? ==> r.value == |Pulled(srv, store.pulled, old(store.mrCursor))|
      ensures calm ==> (r.Done? <==> ListEnds(srv, store.pulled, old(store.mrCursor)))
      ensures calm && r.Threw? ==> r.fault == OtherFault
      ensures r.Threw? && (calm || r.fault != OtherFault) ==> store.mrCursor == old(store.mrCursor)
    {
      hide MrInv, Evolves, CachedAsOf, Matching, Reached, Ends;
      ghost var world, from := gitlab.mrs, clock.now;
      var throws := Fails(calm);
      if throws {
        StandsStill(world, from, from);
        return Threw(OtherFault);
      }
      var after := if store.mrCursor.Some? then store.mrCursor.value else 0;
      var runEnd := GitLabMovesOn();
      ghost var mid, then' := gitlab.mrs, clock.now;
      var asked := GitLabMovesOn();
      EvolvesOn(world, mid, gitlab.mrs, from, then', asked);
      EvolutionIsLater(mid, gitlab.mrs, then', asked);
      EvolutionIsLater(world, mid, from, then');
      store.pulled, store.pulledAt := gitlab.mrs, asked;
      ghost var listed := gitlab.mrs;
      r := DrainMergeRequests(srv, after, calm);
      EvolvesOn(world, listed, gitlab.mrs, from, asked, clock.now);
      if r.Threw? {
        return;
      }
      r := MoveCursor(r.value, runEnd, calm);
      EvolvesOn(world, listed, gitlab.mrs, from, asked, clock.now);
    }

    /** The cursor is written, after GitLab has moved on, and may be acknowledged or not. */
    method MoveCursor(upserted: nat, runEnd: Time, calm: bool) returns (r: Attempt<nat>)
      requires 0 <= runEnd <= store.pulledAt && MrsOk() && 0 <= clock.now
      requires Evolves(store.pulled, gitlab.mrs, store.pulledAt, clock.now)
      requires MrInv(store.pulled, store.mrs, store.mrCursor, store.pulledAt)
      requires forall mr :: mr in Matching(store.pulled, if store.mrCursor.Some? then store.mrCursor.value else 0) ==>
                 mr.iid in store.mrs && store.mrs[mr.iid] == ToMrRow(mr)
      modifies store`mrCursor, clock, gitlab
      ensures MrsOk() && Evolves(store.pulled, gitlab.mrs, store.pulledAt, clock.now)
      ensures calm ==> r.Done?
      ensures r == Done(upserted) || r == Threw(OtherFault)
      ensures CachedAsOf(store.pulled, store.mrs)
      ensures store.mrCursor == Some(runEnd) || (r.Threw? && store.mrCursor == old(store.mrCursor))
    {
      hide MrInv, Evolves, CachedAsOf, Matching;
      CursorMayMove(store.pulled, gitlab.mrs, store.mrs, store.mrCursor, store.pulledAt, clock.now, runEnd);
      var effect := Write(calm);
      if effect.NotDone? {
        return Threw(OtherFault);
      }
      store.mrCursor := Some(runEnd);
      ghost var mid, then' := gitlab.mrs, clock.now;
      var now := GitLabMovesOn();
      EvolvesOn(store.pulled, mid, gitlab.mrs, store.pulledAt, then', now);
      r := if effect.Acknowledged? then Done(upserted) else Threw(OtherFault);
    }

    // ----- One job -----

    ghost predicate Consistent(srv: Server)
      reads store, clock, gitlab
    {
      Inv(srv, Now()) && MrsOk()
    }

    /** Nothing that was gained is given up: watermark, history and merge-request cursor only move forward. */
    ghost predicate NoLoss(before: View, mrCursor: Option<Time>)
      reads store, clock
    {
      && before.clock <= clock.now
      && before.Floor() <= Now().Floor()
      && (before.Watermark().Some? ==> Now().Watermark().Some?)
      && before.led.done <= store.ledger.done
      && (mrCursor.Some? ==> store.mrCursor.Some? && mrCursor.value <= store.mrCursor.value)
    }

    /**
     * Records the candidate as unusable: the project as hidden from its user if
     * GitLab denied it, the connection as invalid otherwise.
     */
    method GiveUp(candidate: Candidate, fault: Fault) returns (recorded: bool)
      requires GivesUpOn(candidate, fault)
      modifies store`invalidConnections, store`deniedUsers
      ensures recorded || !candidate.calm
      ensures Recorded([candidate], [Some(fault)], old(store.deniedUsers), store.deniedUsers,
                       old(store.invalidConnections), store.invalidConnections, recorded)
    {
      OneRecord(candidate, fault);
      var effect := Write(candidate.calm);
      if effect.NotDone? {
        return false;
      }
      if fault == Denied {
        store.deniedUsers := store.deniedUsers + {candidate.userId};
      } else {
        store.invalidConnections := store.invalidConnections + {candidate.connectionId};
      }
      return effect.Acknowledged?;
    }

    /** The runs since there were `before` of them led from `start` to what is persisted now. */
    ghost predicate Led(srv: Server, start: View, before: seq<Run>)
      requires srv.Valid()
      reads store, clock
    {
      before <= store.runs && Chain(srv, settings, start, store.runs[|before|..], Now())
    }

    /** One run over a commit window, entered in the list of runs. */
    method SyncCommitsAs(srv: Server, candidate: Candidate) returns (r: Attempt<CommitRun>)
      requires Consistent(srv) && candidate.Valid() && TotalPreorder(settings.le)
      modifies store`commitState, store`commits, store`ledger, store`runs, clock, gitlab
      ensures Consistent(srv) && NoLoss(old(Now()), store.mrCursor)
      ensures |store.runs| == |old(store.runs)| + 1 && Led(srv, old(Now()), old(store.runs))
      ensures var run := store.runs[|old(store.runs)|];
              && run.candidate == candidate && run.outcome == r && run.after == Now()
              && (IsFinish(r) ==> Finished(srv, run, r.value.upserted))
              && (IsPause(r) ==> Rested(srv, run, r.value.upserted, r.value.nextBranch))
    {
      hide Inv, IsRun, Chain, MrInv, Evolves, Finished, Rested;
      ghost var before, world := Now(), gitlab.mrs;
      gitlab.MoveOn(clock);
      EvolutionIsLater(world, gitlab.mrs, before.clock, clock.now);
      StaysConsistent(srv, before, clock.now);
      EvolutionKeepsMrInv(world, gitlab.mrs, store.mrs, store.mrCursor, before.clock, clock.now);
      ghost var resumed := Now();
      ghost var work;
      r, work := SyncCommits(srv, candidate);
      ghost var run := Run(candidate, resumed, Now(), r, work);
      RunEndsConsistent(srv, settings, run);
      MrInvWaits(gitlab.mrs, store.mrs, store.mrCursor, resumed.clock, clock.now);
      OneRun(srv, settings, before, run);
      store.runs := store.runs + [run];
      assert store.runs[|old(store.runs)|..] == [run];
    }

    /** Commits, then merge requests, with one candidate. */
    method SyncAs(srv: Server, mrSrv: MrServer, candidate: Candidate) returns (r: Attempt<SyncOutcome>)
      requires Consistent(srv) && mrSrv.Valid() && candidate.Valid() && TotalPreorder(settings.le)
      modifies store`commitState, store`commits, store`ledger, store`mrs, store`mrCursor, store`runs
      modifies store`pulled, store`pulledAt, clock, gitlab
      ensures Consistent(srv)
      ensures NoLoss(old(Now()), old(store.mrCursor)) && Led(srv, old(Now()), old(store.runs))
      ensures |store.runs| == |old(store.runs)| + 1
      ensures var run := store.runs[|old(store.runs)|];
              && run.candidate == candidate
              && (run.outcome.Threw? ==> r == Threw(run.outcome.fault))
              && (IsPause(run.outcome) ==> r.Done?)
      ensures r.Done? ==> !r.value.Blocked? && Reports(srv, mrSrv, r.value, |old(store.runs)|, old(store.mrCursor))
      ensures r.Threw? && r.fault != OtherFault ==> store.mrCursor == old(store.mrCursor)
      ensures GotThrough(mrSrv, |old(store.runs)|, old(store.mrCursor)) ==> r.Done? && r.value.Completed?
    {
      hide Inv, Chain, MrInv, Finished, Rested, Counted, CachedAsOf, Evolves, ListEnds;
      ghost var n := |store.runs|;
      var commits := SyncCommitsAs(srv, candidate);
      ghost var drained, runs, world := Now(), store.runs[n..], gitlab.mrs;
      if commits.Threw? {
        return Threw(commits.fault);
      }
      if commits.value.PausedAt? {
        return Done(Paused(commits.value.upserted, commits.value.nextBranch));
      }
      TimeIsPositive(srv, drained);
      CursorIsPast(gitlab.mrs, store.mrs, store.mrCursor, clock.now);
      var merged := SyncMergeRequests(mrSrv, candidate.calm);
      EvolutionIsLater(world, gitlab.mrs, drained.clock, clock.now);
      StaysConsistent(srv, drained, clock.now);
      ChainWaits(srv, settings, old(Now()), runs, drained, Now());
      if merged.Threw? {
        return Threw(merged.fault);
      }
      return Done(Completed(commits.value.upserted, merged.value));
    }

    /**
     * What the outcome says. `Completed`: the last run closed a window, from which
     * nothing has changed since, and every merge request is cached as it was when
     * asked for, no earlier than the new cursor; both counts are of what GitLab
     * listed. `Paused`: the last run rested there. At least `n` runs were made
     * before that one.
     */
    ghost predicate Reports(srv: Server, mrSrv: MrServer, outcome: SyncOutcome, n: nat, mrCursor: Option<Time>)
      requires srv.Valid() && mrSrv.Valid()
      reads store, clock, gitlab
    {
      outcome.Blocked? || (
        && n < |store.runs|
        && var last := store.runs[|store.runs| - 1];
           && Later(last.after, Now())
           && match outcome
              case Completed(commits, mergeRequests) =>
                && Finished(srv, last, commits)
                && store.mrCursor.Some? && last.after.clock <= store.mrCursor.value <= store.pulledAt
                && CachedAsOf(store.pulled, store.mrs)
                && Evolves(store.pulled, gitlab.mrs, store.pulledAt, clock.now)
                && mergeRequests == |Pulled(mrSrv, store.pulled, mrCursor)|
              case Paused(commits, nextBranch) => Rested(srv, last, commits, nextBranch)
              case Blocked => true)
    }

    /** The last of the runs after the first `n` was calm and finished, and the list of merge requests ended. */
    ghost predicate GotThrough(mrSrv: MrServer, n: nat, mrCursor: Option<Time>)
      requires mrSrv.Valid()
      reads store
    {
      && n < |store.runs|
      && var last := store.runs[|store.runs| - 1];
         last.candidate.calm && IsFinish(last.outcome) && ListEnds(mrSrv, store.pulled, mrCursor)
    }

    /**
     * The job: candidates in turn until one of them gets through. A candidate
     * whose token or project access is refused is recorded as such, and the next
     * one goes on from what it persisted. A window that this job completes was
     * open when it began, or reaches up to its beginning at least. `faults` says
     * of each candidate tried what ended it, if anything did.
     */
    method SyncProject(srv: Server, mrSrv: MrServer, candidates: seq<Candidate>)
      returns (r: Attempt<SyncOutcome>, ghost faults: seq<Option<Fault>>)
      requires Consistent(srv) && mrSrv.Valid() && TotalPreorder(settings.le)
      requires forall c :: c in candidates ==> c.Valid()
      modifies store, clock, gitlab
      ensures Consistent(srv)
      ensures NoLoss(old(Now()), old(store.mrCursor)) && Led(srv, old(Now()), old(store.runs))
      ensures |faults| <= |candidates| && (candidates != [] ==> faults != [])
      ensures Tried(candidates, faults, store.runs[|old(store.runs)|..])
      ensures forall i :: 0 <= i < |faults| - 1 ==> faults[i].Some? && GivesUpOn(candidates[i], faults[i].value)
      ensures r.Done? ==> Reports(srv, mrSrv, r.value, |old(store.runs)|, old(store.mrCursor))
      ensures faults == [] ==> r == Done(Blocked)
      ensures faults != [] ==> EndsWith(candidates[|faults| - 1], faults[|faults| - 1], r)
      ensures r == Done(Blocked) ==> |faults| == |candidates|
      ensures GotThrough(mrSrv, |old(store.runs)|, old(store.mrCursor)) ==> r.Done? && r.value.Completed?
      ensures !old(Now()).Continuing() ==> forall run :: run in store.runs[|old(store.runs)|..] && run.work.Some? ==>
                old(clock.now) <= run.work.value.w.end
      ensures Recorded(candidates, faults, old(store.deniedUsers), store.deniedUsers,
                       old(store.invalidConnections), store.invalidConnections, r == Done(Blocked))
    {
      hide Inv, Chain, MrInv, Reports, Tried, Later, Recorded, ListEnds;
      ghost var start, n := Now(), |store.runs|;
      StaysConsistent(srv, Now(), clock.now);
      NothingRan(srv, Now());
      assert store.runs[n..] == [];
      NothingTried(candidates);
      NothingRecorded(candidates, store.deniedUsers, store.invalidConnections);
      r, faults := Done(Blocked), [];
      for k := 0 to |candidates|
        invariant r == Done(Blocked) && |faults| == k
        invariant Consistent(srv) && store.mrCursor == old(store.mrCursor)
        invariant NoLoss(start, old(store.mrCursor)) && Led(srv, start, old(store.runs))
        invariant Tried(candidates, faults, store.runs[n..])
        invariant forall i :: 0 <= i < k ==> faults[i].Some? && GivesUpOn(candidates[i], faults[i].value)
        invariant k > 0 ==> EndsWith(candidates[k - 1], faults[k - 1], r)
        invariant !GotThrough(mrSrv, n, old(store.mrCursor))
        invariant Recorded(candidates, faults, old(store.deniedUsers), store.deniedUsers,
                           old(store.invalidConnections), store.invalidConnections, true)
      {
        ghost var fault, ran := None, store.runs;
        ghost var denied, invalid := store.deniedUsers, store.invalidConnections;
        r, fault := TryCandidate(srv, mrSrv, candidates[k], start, n);
        TriedOneMore(candidates, faults, fault, ran[n..], store.runs[n..]);
        RecordedOneMore(candidates, faults, fault, old(store.deniedUsers), denied, store.deniedUsers,
                        old(store.invalidConnections), invalid, store.invalidConnections, r == Done(Blocked));
        faults := faults + [fault];
        if r != Done(Blocked) {
          break;
        }
      }
      BlockedReports(srv, mrSrv, n, old(store.mrCursor));
      if !start.Continuing() {
        WindowsAreNew(srv, settings, start, store.runs[n..], Now());
      }
    }

    /** One candidate; `Blocked` is reported here for one that is recorded as refused. */
    method TryCandidate(srv: Server, mrSrv: MrServer, candidate: Candidate, ghost start: View, ghost n: nat)
      returns (r: Attempt<SyncOutcome>, ghost fault: Option<Fault>)
      requires Consistent(srv) && mrSrv.Valid() && candidate.Valid() && TotalPreorder(settings.le)
      requires n <= |store.runs| && Led(srv, start, store.runs[..n])
      modifies store, clock, gitlab
      ensures Consistent(srv) && NoLoss(old(Now()), old(store.mrCursor))
      ensures old(store.runs) <= store.runs && Led(srv, start, old(store.runs[..n]))
      ensures TriedBy(candidate, fault, store.runs[|old(store.runs)|..])
      ensures EndsWith(candidate, fault, r)
      ensures r.Done? ==> Reports(srv, mrSrv, r.value, n, old(store.mrCursor))
      ensures r == Done(Blocked) ==> store.mrCursor == old(store.mrCursor)
      ensures candidate.entry.Some? ==> store.runs == old(store.runs) && store.pulled == old(store.pulled)
      ensures candidate.entry.None? && GotThrough(mrSrv, n, old(store.mrCursor)) ==> r.Done? && r.value.Completed?
      ensures Recorded([candidate], [fault], old(store.deniedUsers), store.deniedUsers,
                       old(store.invalidConnections), store.invalidConnections, r == Done(Blocked))
    {
      hide Inv, Chain, MrInv, Reports, ListEnds, Recorded;
      ghost var mid, ran := Now(), store.runs;
      StaysConsistent(srv, Now(), clock.now);
      fault := candidate.entry;
      var refused := candidate.entry;
      NoRecord(candidate, store.deniedUsers, store.invalidConnections);
      if refused.None? {
        r := SyncAs(srv, mrSrv, candidate);
        ChainJoins(srv, settings, start, ran[n..], mid, store.runs[|ran|..], Now());
        assert store.runs[..n] == ran[..n];
        assert store.runs[n..] == ran[n..] + store.runs[|ran|..];
        if r.Done? {
          ReportsSooner(srv, mrSrv, r.value, |ran|, n, old(store.mrCursor));
          return;
        }
        fault, refused := Some(r.fault), Some(r.fault);
        if r.fault == NoCredential || r.fault == OtherFault {
          return;
        }
      } else if refused.value == OtherFault {
        return Threw(OtherFault), fault;
      }
      var recorded := GiveUp(candidate, refused.value);
      r := if recorded then Done(Blocked) else Threw(OtherFault);
      BlockedReports(srv, mrSrv, n, old(store.mrCursor));
    }

    lemma BlockedReports(srv: Server, mrSrv: MrServer, n: nat, mrCursor: Option<Time>)
      requires srv.Valid() && mrSrv.Valid()
      ensures Reports(srv, mrSrv, Blocked, n, mrCursor)
    {
    }

    lemma ReportsSooner(srv: Server, mrSrv: MrServer, outcome: SyncOutcome, n: nat, m: nat, mrCursor: Option<Time>)
      requires srv.Valid() && mrSrv.Valid() && m <= n && Reports(srv, mrSrv, outcome, n, mrCursor)
      ensures Reports(srv, mrSrv, outcome, m, mrCursor)
    {
    }
  }

  lemma StaysConsistent(srv: Server, v: View, now: Time)
    requires Inv(srv, v) && v.clock <= now
    ensures Inv(srv, v.(clock := now)) && 0 <= v.clock && srv.Valid()
  {
  }

  /** What is needed here of a run that has ended. */
  lemma RunEndsConsistent(srv: Server, s: Settings, run: Run)
    requires Inv(srv, run.before) && IsRun(srv, s, run)
    ensures srv.Valid() && Inv(srv, run.after) && run.before.clock <= run.after.clock
    ensures run.before.Floor() <= run.after.Floor() && (run.before.Watermark().Some? ==> run.after.Watermark().Some?)
    ensures run.before.led.done <= run.after.led.done
    ensures IsFinish(run.outcome) ==> Finished(srv, run, run.outcome.value.upserted)
    ensures IsPause(run.outcome) ==> Rested(srv, run, run.outcome.value.upserted, run.outcome.value.nextBranch)
  {
    WatermarkNeverFalls(srv, s, run);
    RunReports(srv, s, run);
  }

  // ----- Which candidates were tried, and what ended them -----

  /** A missing credential is only expected where the token is read first. */
  predicate GivesUpOn(candidate: Candidate, fault: Fault) {
    fault == Denied || fault == Unauthorized || (fault == NoCredential && candidate.entry.Some?)
  }

  /** How the job goes on, or ends, after a candidate that this ended. */
  predicate EndsWith(candidate: Candidate, fault: Option<Fault>, r: Attempt<SyncOutcome>) {
    match fault
    case None => r.Done? && !r.value.Blocked?
    case Some(f) =>
      if GivesUpOn(candidate, f) then r == Done(Blocked) || (!candidate.calm && r == Threw(OtherFault))
      else r == Threw(f)
  }

  /** One candidate makes no run if its token or the project is refused at once, and one run otherwise. */
  ghost predicate TriedBy(candidate: Candidate, fault: Option<Fault>, runs: seq<Run>) {
    if candidate.entry.Some? then runs == [] && fault == candidate.entry
    else
      && |runs| == 1 && runs[0].candidate == candidate
      && (runs[0].outcome.Threw? ==> fault == Some(runs[0].outcome.fault))
      && (IsPause(runs[0].outcome) ==> fault == None)
  }

  /** The candidates were tried in their order, and these are the runs they made. */
  ghost predicate Tried(candidates: seq<Candidate>, faults: seq<Option<Fault>>, runs: seq<Run>)
    requires |faults| <= |candidates|
    decreases |faults|
  {
    if faults == [] then runs == []
    else
      var last := |faults| - 1;
      exists cut ::
        && 0 <= cut <= |runs|
        && Tried(candidates, faults[..last], runs[..cut])
        && TriedBy(candidates[last], faults[last], runs[cut..])
  }

  lemma NothingTried(candidates: seq<Candidate>)
    ensures Tried(candidates, [], [])
    ensures DeniedBy(candidates, []) == {} && InvalidBy(candidates, []) == {}
  {
  }

  lemma TriedOneMore(candidates: seq<Candidate>, faults: seq<Option<Fault>>, fault: Option<Fault>, runs: seq<Run>,
                     longer: seq<Run>)
    requires |faults| < |candidates| && Tried(candidates, faults, runs) && runs <= longer
    requires TriedBy(candidates[|faults|], fault, longer[|runs|..])
    ensures Tried(candidates, faults + [fault], longer)
  {
    hide TriedBy;
    assert (faults + [fault])[..|faults|] == faults && longer[..|runs|] == runs;
  }

  /** The users recorded as denied, and the connections recorded as invalid. */
  ghost function DeniedBy(candidates: seq<Candidate>, faults: seq<Option<Fault>>): set<string>
    requires |faults| <= |candidates|
  {
    set i | 0 <= i < |faults| && faults[i] == Some(Denied) :: candidates[i].userId
  }

  ghost function InvalidBy(candidates: seq<Candidate>, faults: seq<Option<Fault>>): set<string>
    requires |faults| <= |candidates|
  {
    set i | 0 <= i < |faults| && faults[i].Some? && faults[i].value != Denied
            && GivesUpOn(candidates[i], faults[i].value) :: candidates[i].connectionId
  }

  /** Everything that was certainly recorded is, and nothing but what may have been. */
  predicate RecordedUpTo(before: set<string>, certain: set<string>, now: set<string>, possible: set<string>) {
    before + certain <= now <= before + possible
  }

  /** Who is recorded now, and was not before: those these faults tell of, but for the last one unless `all`. */
  ghost predicate Recorded(candidates: seq<Candidate>, faults: seq<Option<Fault>>, denied: set<string>,
                           denied': set<string>, invalid: set<string>, invalid': set<string>, all: bool)
    requires |faults| <= |candidates|
  {
    var certain := if all || faults == [] then faults else faults[..|faults| - 1];
    && RecordedUpTo(denied, DeniedBy(candidates, certain), denied', DeniedBy(candidates, faults))
    && RecordedUpTo(invalid, InvalidBy(candidates, certain), invalid', InvalidBy(candidates, faults))
  }

  lemma NothingRecorded(candidates: seq<Candidate>, denied: set<string>, invalid: set<string>)
    ensures Recorded(candidates, [], denied, denied, invalid, invalid, true)
  {
  }

  /** What one candidate leaves, by what ended it. */
  lemma OneRecord(candidate: Candidate, fault: Fault)
    ensures DeniedBy([candidate], [Some(fault)]) == if fault == Denied then {candidate.userId} else {}
    ensures InvalidBy([candidate], [Some(fault)])
         == if fault != Denied && GivesUpOn(candidate, fault) then {candidate.connectionId} else {}
    ensures DeniedBy([candidate], [None]) == {} && InvalidBy([candidate], [None]) == {}
  {
    assert [Some(fault)][0] == Some(fault) && [candidate][0] == candidate;
  }

  lemma NoRecord(candidate: Candidate, denied: set<string>, invalid: set<string>)
    ensures Recorded([candidate], [None], denied, denied, invalid, invalid, false)
    ensures forall f: Fault :: Recorded([candidate], [Some(f)], denied, denied, invalid, invalid, false)
  {
  }

  lemma RecordsGrow(candidates: seq<Candidate>, faults: seq<Option<Fault>>, fault: Option<Fault>)
    requires |faults| < |candidates|
    ensures DeniedBy(candidates, faults + [fault])
         == DeniedBy(candidates, faults) + DeniedBy([candidates[|faults|]], [fault])
    ensures InvalidBy(candidates, faults + [fault])
         == InvalidBy(candidates, faults) + InvalidBy([candidates[|faults|]], [fault])
  {
    var more := faults + [fault];
    assert forall i :: 0 <= i < |faults| ==> more[i] == faults[i];
    assert more[|faults|] == fault;
  }

  lemma RecordedOneMore(candidates: seq<Candidate>, faults: seq<Option<Fault>>, fault: Option<Fault>,
                        denied: set<string>, denied': set<string>, denied'': set<string>,
                        invalid: set<string>, invalid': set<string>, invalid'': set<string>, all: bool)
    requires |faults| < |candidates| && Recorded(candidates, faults, denied, denied', invalid, invalid', true)
    requires Recorded([candidates[|faults|]], [fault], denied', denied'', invalid', invalid'', all)
    ensures Recorded(candidates, faults + [fault], denied, denied'', invalid, invalid'', all)
  {
    hide DeniedBy, InvalidBy;
    RecordsGrow(candidates, faults, fault);
    NothingTried([candidates[|faults|]]);
    assert (faults + [fault])[..|faults|] == faults && [fault][..0] == [];
  }

  /** The runs of a job are those its candidates made, in their order, from the first on. */
  ghost predicate MadeBy(candidates: seq<Candidate>, runs: seq<Run>) {
    exists faults ::
      |faults| <= |candidates| && (candidates != [] ==> faults != []) && Tried(candidates, faults, runs)
  }

  lemma NothingMade()
    ensures MadeByAll([], [])
  {
  }

  /** The runs of one job after the other. */
  ghost predicate MadeByAll(jobs: seq<seq<Candidate>>, runs: seq<Run>) {
    if jobs == [] then runs == []
    else
      exists cut ::
        && 0 <= cut <= |runs|
        && MadeByAll(jobs[..|jobs| - 1], runs[..cut])
        && MadeBy(jobs[|jobs| - 1], runs[cut..])
  }

  lemma OneJobMore(jobs: seq<seq<Candidate>>, runs: seq<Run>, job: seq<Candidate>, more: seq<Run>)
    requires MadeByAll(jobs, runs) && MadeBy(job, more)
    ensures MadeByAll(jobs + [job], runs + more)
  {
    hide MadeBy;
    assert (jobs + [job])[..|jobs|] == jobs;
    assert (runs + more)[..|runs|] == runs && (runs + more)[|runs|..] == more;
  }

  lemma MrInvWaits(world: World, cache: MrCache, cursor: Option<Time>, from: Time, to: Time)
    requires MrInv(world, cache, cursor, from) && from <= to
    ensures MrInv(world, cache, cursor, to)
  {
  }

  lemma CursorIsPast(world: World, cache: MrCache, cursor: Option<Time>, now: Time)
    requires MrInv(world, cache, cursor, now)
    ensures cursor.Some? ==> cursor.value <= now
  {
  }

  lemma MrInvThen(world: World, cache: MrCache, cursor: Option<Time>, before: MrCache, from: Time, to: Time)
    requires MrInv(world, before, cursor, from) && MrInv(world, cache, cursor, to)
    ensures MrInv(world, cache, cursor, from)
  {
  }

  lemma TimeIsPositive(srv: Server, v: View)
    requires Inv(srv, v)
    ensures 0 <= v.clock && srv.Valid()
  {
  }

  lemma OneRun(srv: Server, s: Settings, start: View, run: Run)
    requires srv.Valid() && Later(start, run.before) && IsRun(srv, s, run)
    ensures Chain(srv, s, start, [run], run.after)
  {
    hide IsRun;
    assert [run][..0] == [];
  }

  lemma DrainingHolds(srv: Server, v: View, w: Window, n: nat)
    requires Draining(srv, v, w, n)
    ensures srv.Valid() && Inv(srv, v) && Progress(srv, w, n, v.led.base, v.commits)
  {
  }

  lemma OpenWindowEnds(srv: Server, v: View)
    requires Inv(srv, v) && v.Continuing()
    ensures v.state.value.windowEnd.value <= v.clock
    ensures v.AtSnapshot() ==> v.NextIndex() < |v.OpenWindow().branches|
  {
  }

  /** One more job, after GitLab and the clock have moved on. */
  method OneJob(sync: SyncOrchestrator, srv: Server, mrSrv: MrServer, ghost start: View, job: seq<Candidate>)
    requires sync.Consistent(srv) && mrSrv.Valid() && TotalPreorder(sync.settings.le)
    requires forall c :: c in job ==> c.Valid()
    requires srv.Valid() && Chain(srv, sync.settings, start, sync.store.runs, sync.Now())
    modifies sync.store, sync.clock, sync.gitlab
    ensures sync.Consistent(srv) && Chain(srv, sync.settings, start, sync.store.runs, sync.Now())
    ensures old(sync.store.runs) <= sync.store.runs && MadeBy(job, sync.store.runs[|old(sync.store.runs)|..])
  {
    hide Inv, Chain, MrInv, Evolves, Tried;
    ghost var before, world := sync.Now(), sync.gitlab.mrs;
    sync.gitlab.MoveOn(sync.clock);
    EvolutionIsLater(world, sync.gitlab.mrs, before.clock, sync.clock.now);
    StaysConsistent(srv, before, sync.clock.now);
    EvolutionKeepsMrInv(world, sync.gitlab.mrs, sync.store.mrs, sync.store.mrCursor, before.clock, sync.clock.now);
    ChainWaits(srv, sync.settings, start, sync.store.runs, before, sync.Now());
    ghost var mid, ran := sync.Now(), sync.store.runs;
    var outcome;
    ghost var faults;
    outcome, faults := sync.SyncProject(srv, mrSrv, job);
    assert MadeBy(job, sync.store.runs[|ran|..]);
    ChainJoins(srv, sync.settings, start, ran, mid, sync.store.runs[|ran|..], sync.Now());
    assert sync.store.runs == ran + sync.store.runs[|ran|..];
  }

  /**
   * From empty tables on, any number of jobs, each with its own candidates and
   * its own failures, while GitLab and the clock move on between them. All their
   * runs together are one chain, so what is proved of chains holds of this one:
   * the commit cache is that of the completed windows written atomically. Each
   * job's runs are made by its own candidates, in their order.
   */
  method AnyHistory(srv: Server, mrSrv: MrServer, settings: Settings, start: Time, jobs: seq<seq<Candidate>>)
    returns (sync: SyncOrchestrator)
    requires srv.Valid() && mrSrv.Valid() && TotalPreorder(settings.le) && COLD_START <= start
    requires forall k, c :: 0 <= k < |jobs| && c in jobs[k] ==> c.Valid()
    ensures sync.Consistent(srv)
    ensures Chain(srv, settings, Empty(settings, start), sync.store.runs, sync.Now())
    ensures BaseOf(sync.Now()) == AllAtomic(srv, map[], sync.store.ledger.done)
    ensures MadeByAll(jobs, sync.store.runs)
  {
    hide Inv, Chain, AllAtomic, MrInv, Evolves, MadeBy, MadeByAll;
    var store := new SyncStore();
    var clock := new Clock(start);
    var gitlab := new GitLabProject();
    sync := new SyncOrchestrator(store, clock, gitlab, settings);
    ghost var empty := Empty(settings, start);
    EmptyIsConsistent(srv, settings, start);
    NothingMade();
    NoMergeRequestsYet(start);
    for k := 0 to |jobs|
      invariant sync.Consistent(srv)
      invariant fresh(sync.store) && fresh(sync.clock) && fresh(sync.gitlab) && sync.settings == settings
      invariant Chain(srv, settings, empty, sync.store.runs, sync.Now())
      invariant MadeByAll(jobs[..k], sync.store.runs)
    {
      ghost var ran := sync.store.runs;
      OneJob(sync, srv, mrSrv, empty, jobs[k]);
      assert sync.store.runs == ran + sync.store.runs[|ran|..];
      OneJobMore(jobs[..k], ran, jobs[k], sync.store.runs[|ran|..]);
      assert jobs[..k + 1] == jobs[..k] + [jobs[k]];
    }
    assert jobs[..|jobs|] == jobs;
    CacheIsTheWindows(srv, settings, empty, sync.store.runs, sync.Now());
    assert sync.store.ledger.done[0..] == sync.store.ledger.done;
  }

  lemma NoMergeRequestsYet(start: Time)
    requires 0 <= start
    ensures MrInv(map[], map[], None, start)
  {
  }

  lemma StandsStill(world: World, from: Time, to: Time)
    requires from <= to
    ensures Evolves(world, world, from, to)
  {
  }

  lemma EvolutionIsLater(world: World, later: World, from: Time, to: Time)
    requires Evolves(world, later, from, to)
    ensures from <= to
  {
  }

  lemma NothingRan(srv: Server, v: View)
    requires srv.Valid()
    ensures forall s :: Chain(srv, s, v, [], v)
  {
  }
}
