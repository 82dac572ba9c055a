/** What one run over a commit window may leave behind, on values. */
module CommitRuns {
  import opened Base
  import opened Pagination
  import opened CommitWindow

  datatype Fault = NoCredential | Unauthorized | Denied | OtherFault

  datatype Attempt<+T> = Done(value: T) | Threw(fault: Fault)

  datatype CommitRun = Drained(upserted: nat) | PausedAt(upserted: nat, nextBranch: Branch)

  /**
   * An authorised connection, and the run made with it: how reading its token
   * and asking for the project ends, if it fails; the branch list its token sees;
   * the branches whose commits GitLab answers with 404 by now; after how many
   * branches, and before which, the time budget stops it; and whether the run is
   * calm, that is, no call throws by chance and the time budget lasts.
   */
  datatype Candidate = Candidate(connectionId: string, userId: string, entry: Option<Fault>,
                                 branchPages: Listing<Branch>, cursors: set<Cursor>, gone: set<Branch>,
                                 stops: (nat, Branch) -> bool, calm: bool)
  {
    predicate StopsBefore(completed: nat, next: Branch) {
      !calm && stops(completed, next)
    }

    ghost predicate Valid() {
      Bounded(branchPages, cursors)
    }

    ghost predicate Sees(b: Branch)
      requires Valid()
    {
      b in Reached(branchPages, cursors, None, {})
    }
  }

  /** The branches of the window from `from` up to `to` can all be read to their last page. */
  ghost predicate Readable(srv: Server, candidate: Candidate, w: Window, from: nat, to: nat)
    requires srv.Valid()
  {
    forall i :: from <= i < to && i < |w.branches| ==>
      w.branches[i] !in candidate.gone && srv.Drains(w.branches[i], w.start, w.end)
  }

  datatype Settings = Settings(overlapMs: nat, le: (Branch, Branch) -> bool)

  predicate NoRepeats(names: seq<Branch>) {
    forall i, j :: 0 <= i < j < |names| ==> names[i] != names[j]
  }

  // ----- The window of a run -----

  /** Which window a run works on, and where it starts in it. */
  ghost predicate WindowChosen(s: Settings, candidate: Candidate, before: View, w: Window, from: nat)
    requires candidate.Valid()
  {
    if before.AtSnapshot() then
      var saved := before.OpenWindow();
      && w.start == saved.start && w.end == saved.end && w.skipped == saved.skipped
      && saved.branches <= w.branches
      && NoRepeats(w.branches[|saved.branches|..])
      && (forall b :: b in w.branches[|saved.branches|..] <==> candidate.Sees(b) && b !in saved.branches)
      && from == before.NextIndex()
    else
      && NoRepeats(w.branches) && (forall b :: b in w.branches <==> candidate.Sees(b))
      && if before.Continuing() then
           && w.start == before.state.value.windowStart.value && w.end == before.state.value.windowEnd.value
           && from <= |w.branches|
           && (forall i :: 0 <= i < |w.branches| ==>
                 (i < from <==> !s.le(before.state.value.cursor.value.name, w.branches[i])))
           && w.skipped == set b | b in w.branches[..from]
         else
           && w.start == NextStart(before.Watermark(), before.overlapMs)
           && w.end >= before.clock
           && w.skipped == {} && from == 0
  }

  /** The cache that the open window is written over, or would be. */
  ghost function BaseOf(v: View): CommitCache {
    if v.AtSnapshot() then v.led.base else v.commits
  }

  ghost function PausesOf(v: View): nat {
    if v.AtSnapshot() then v.led.pauses else 0
  }

  /** The sync state in which a run on `w` sets out. */
  ghost function FirstState(before: View, w: Window, from: nat): CommitState {
    if before.AtSnapshot() then before.state.value.(cursor := Some(Snapshot(w.branches, from)))
    else if before.Continuing() then before.state.value
    else CommitState(before.Watermark(), Some(w.start), Some(w.end),
                     if w.branches == [] then None else Some(Snapshot(w.branches, 0)))
  }

  /** The view with which the loop over branches starts. */
  ghost predicate Chosen(s: Settings, candidate: Candidate, before: View, mid: View, w: Window, from: nat)
    requires candidate.Valid()
  {
    && WindowChosen(s, candidate, before, w, from)
    && before.clock <= mid.clock && w.end <= mid.clock
    && mid == View(Some(FirstState(before, w, from)), before.commits,
                   Ledger(BaseOf(before), w.skipped, PausesOf(before), before.led.done), mid.clock, before.overlapMs)
  }

  /** The sync state of a run that has come to branch `at`, having found `first` at branch `from`. */
  ghost function StateAt(first: CommitState, branches: seq<Branch>, from: nat, at: nat): CommitState
    requires from <= at <= |branches|
  {
    if at == from || (at == from + 1 && at == |branches|) then first
    else first.(cursor := Some(Snapshot(branches, Min(at, |branches| - 1))))
  }

  /** How many commits GitLab lists for the branches of the window from `from` up to `at`. */
  ghost function Counted(srv: Server, w: Window, from: nat, at: nat): nat
    requires srv.Valid() && from <= at <= |w.branches|
    decreases at
  {
    if from == at then 0
    else
      var list := srv.listing(w.branches[at - 1], w.start, w.end);
      Counted(srv, w, from, at - 1) + |Reached(list, srv.cursors, None, {})|
  }

  lemma CountedMore(srv: Server, w: Window, from: nat, at: nat)
    requires srv.Valid() && from <= at <= |w.branches|
    ensures Counted(srv, w, from, from) == 0
    ensures at < |w.branches| ==>
      Counted(srv, w, from, at + 1)
      == Counted(srv, w, from, at) + |Reached(srv.listing(w.branches[at], w.start, w.end), srv.cursors, None, {})|
  {
  }

  predicate IsFinish(r: Attempt<CommitRun>) {
    r.Done? && r.value.Drained?
  }

  predicate IsPause(r: Attempt<CommitRun>) {
    r.Done? && r.value.PausedAt?
  }

  /** The time budget has let the run pass into every branch after the first, up to here. */
  predicate Unstopped(candidate: Candidate, w: Window, from: nat, upTo: nat) {
    forall i :: from < i < upTo && i < |w.branches| ==> !candidate.StopsBefore(i - from, w.branches[i])
  }

  lemma UnstoppedOn(candidate: Candidate, w: Window, from: nat, upTo: nat)
    ensures Unstopped(candidate, w, from, from + 1)
    ensures Unstopped(candidate, w, from, upTo + 1) ==> Unstopped(candidate, w, from, upTo)
    ensures Unstopped(candidate, w, from, upTo)
            && (from < upTo < |w.branches| ==> !candidate.StopsBefore(upTo - from, w.branches[upTo])) ==>
      Unstopped(candidate, w, from, upTo + 1)
  {
  }

  /** What stops a calm run at a branch: GitLab answers 404 for it, or its list never ends. */
  function FaultAt(candidate: Candidate, b: Branch): Fault {
    if b in candidate.gone then Denied else OtherFault
  }

  /**
   * How the loop over branches may end, whatever is reported: with the window
   * closed, or at branch `at`. A run whose last write took effect but was not
   * acknowledged throws with the window closed.
   */
  ghost predicate LoopEnded(srv: Server, candidate: Candidate, mid: View, after: View, r: Attempt<CommitRun>,
                            w: Window, from: nat, at: nat)
    requires srv.Valid()
  {
    && mid.state.Some?
    && from <= at <= |w.branches| && Readable(srv, candidate, w, from, at)
    && (candidate.calm ==> (IsFinish(r) <==> Readable(srv, candidate, w, from, |w.branches|)))
    && Unstopped(candidate, w, from, at)
    && (IsPause(r) ==> from < at < |w.branches| && candidate.StopsBefore(at - from, w.branches[at]))
    && (candidate.calm && r.Threw? ==> at < |w.branches| && r.fault == FaultAt(candidate, w.branches[at]))
    && after.led.base == mid.led.base && after.led.skipped == mid.led.skipped
    && after.clock == mid.clock && after.overlapMs == mid.overlapMs
    && (r.Done? ==> r.value.upserted == Counted(srv, w, from, at))
    && if |after.led.done| > |mid.led.done| then
         && at == |w.branches| && !IsPause(r)
         && after.state == Some(mid.state.value.(watermark := Some(w.end), cursor := None))
         && after.led.done == mid.led.done + [w]
         && after.commits == Atomic(srv, mid.led.base, w)
       else
         && !IsFinish(r)
         && after.state == Some(StateAt(mid.state.value, w.branches, from, at))
         && after.led.done == mid.led.done
         && Progress(srv, w, at, mid.led.base, after.commits)
         && (r.Threw? ==> after.led.pauses == mid.led.pauses)
         && (IsPause(r) ==>
               && from < at < |w.branches| && w.branches[at] == r.value.nextBranch
               && after.led.pauses == mid.led.pauses + 1)
  }

  // ----- One run -----

  /** What a run worked on: the window, the branch it started at, and the branch it came to. */
  datatype Work = Work(w: Window, from: nat, at: nat)

  datatype Run = Run(candidate: Candidate, before: View, after: View, outcome: Attempt<CommitRun>, work: Option<Work>)

  /** Between two views only time has passed. */
  predicate Later(a: View, b: View) {
    a.clock <= b.clock && b == a.(clock := b.clock)
  }

  /**
   * What a run may leave behind. Either it persisted nothing at all, or it worked
   * on the window chosen for it and left it closed or at some branch; what it
   * reports never says more than that.
   */
  ghost predicate IsRun(srv: Server, s: Settings, run: Run)
    requires srv.Valid()
  {
    && run.candidate.Valid()
    && Inv(srv, run.after)
    && match run.work
       case None =>
         && run.outcome.Threw? && Later(run.before, run.after)
         && !(run.candidate.calm && Ends(run.candidate.branchPages, run.candidate.cursors, None, {}))
         && (run.candidate.calm ==> run.outcome.fault == OtherFault)
       case Some(k) =>
         exists mid :: Chosen(s, run.candidate, run.before, mid, k.w, k.from)
                    && LoopEnded(srv, run.candidate, mid, run.after, run.outcome, k.w, k.from, k.at)
  }

  /** Watermarks never move back and completed windows stay, however a run ends. */
  lemma WatermarkNeverFalls(srv: Server, s: Settings, run: Run)
    requires srv.Valid() && Inv(srv, run.before) && IsRun(srv, s, run)
    ensures run.before.led.done <= run.after.led.done && |run.after.led.done| <= |run.before.led.done| + 1
    ensures run.before.Floor() <= run.after.Floor() && run.before.clock <= run.after.clock
    ensures run.before.Watermark().Some? ==> run.after.Watermark().Some?
  {
    hide Progress, Atomic, Covered, WindowKept, Readable, WindowChosen, Overlapping, BaseOf, Server.Valid;
  }

  /** Branch `b` is still to be read by a run that finds this state. */
  ghost predicate Remaining(s: Settings, candidate: Candidate, before: View, b: Branch)
    requires candidate.Valid()
  {
    if before.AtSnapshot() then
      || (exists j :: before.NextIndex() <= j < |before.OpenWindow().branches| && before.OpenWindow().branches[j] == b)
      || (candidate.Sees(b) && b !in before.OpenWindow().branches)
    else
      candidate.Sees(b) && (before.Continuing() ==> s.le(before.state.value.cursor.value.name, b))
  }

  lemma RemainingBranches(s: Settings, candidate: Candidate, before: View, w: Window, from: nat, b: Branch)
    requires candidate.Valid() && WindowChosen(s, candidate, before, w, from)
    requires before.AtSnapshot() ==> before.NextIndex() <= |before.OpenWindow().branches|
    ensures Remaining(s, candidate, before, b) <==> exists i :: from <= i < |w.branches| && w.branches[i] == b
  {
    if before.AtSnapshot() {
      var saved := before.OpenWindow().branches;
      var added := w.branches[|saved|..];
      if b in added {
        var i :| 0 <= i < |added| && added[i] == b;
        assert w.branches[|saved| + i] == b;
      }
      forall i | from <= i < |w.branches| && w.branches[i] == b ensures Remaining(s, candidate, before, b) {
        if i < |saved| {
          assert saved[i] == b;
        } else {
          assert added[i - |saved|] == b;
        }
      }
      forall j | from <= j < |saved| && saved[j] == b ensures w.branches[j] == b {
      }
    }
  }

  lemma CalmRunsRead(srv: Server, s: Settings, run: Run)
    requires srv.Valid() && IsRun(srv, s, run) && run.candidate.calm
    requires Ends(run.candidate.branchPages, run.candidate.cursors, None, {})
    ensures run.candidate.Valid() && run.work.Some?
            && WindowChosen(s, run.candidate, run.before, run.work.value.w, run.work.value.from)
    ensures var k := run.work.value;
            IsFinish(run.outcome) <==> Readable(srv, run.candidate, k.w, k.from, |k.w.branches|)
  {
  }

  /**
   * Exactly when a run gets through: if no call fails by chance, the budget
   * lasts, and the branch list ends, a run finishes if and only if every branch
   * still to be read is there and its commit list ends.
   */
  lemma CalmRunFinishes(srv: Server, s: Settings, run: Run)
    requires srv.Valid() && Inv(srv, run.before) && IsRun(srv, s, run) && run.candidate.calm
    requires Ends(run.candidate.branchPages, run.candidate.cursors, None, {})
    ensures run.work.Some?
    ensures var w := run.work.value.w;
            IsFinish(run.outcome) <==>
            forall b :: Remaining(s, run.candidate, run.before, b) ==>
              b !in run.candidate.gone && srv.Drains(b, w.start, w.end)
  {
    hide IsRun, WindowChosen, Server.Drains;
    CalmRunsRead(srv, s, run);
    var k := run.work.value;
    var c := run.candidate;
    forall b
      ensures Remaining(s, c, run.before, b) <==> exists i :: k.from <= i < |k.w.branches| && k.w.branches[i] == b
    {
      RemainingBranches(s, c, run.before, k.w, k.from, b);
    }
    ReadsRemaining(srv, s, c, run.before, k.w, k.from);
  }

  /**
   * And what a calm run that does not get through ends with: it comes to a branch
   * that cannot be read, and a deleted one reads as a refusal of the project,
   * which costs the candidate its membership.
   */
  lemma CalmRunStopsAt(srv: Server, s: Settings, run: Run)
    requires srv.Valid() && IsRun(srv, s, run) && run.candidate.calm && run.outcome.Threw?
    ensures run.outcome.fault == Denied <==>
      run.work.Some? && var k := run.work.value;
                        k.at < |k.w.branches| && k.w.branches[k.at] in run.candidate.gone
    ensures run.outcome.fault == Denied || run.outcome.fault == OtherFault
  {
  }

  lemma ReadsRemaining(srv: Server, s: Settings, c: Candidate, before: View, w: Window, from: nat)
    requires srv.Valid() && c.Valid()
    requires forall b :: Remaining(s, c, before, b) <==> exists i :: from <= i < |w.branches| && w.branches[i] == b
    ensures Readable(srv, c, w, from, |w.branches|) <==>
            forall b :: Remaining(s, c, before, b) ==> b !in c.gone && srv.Drains(b, w.start, w.end)
  {
    hide Remaining, Server.Drains;
    forall i | from <= i < |w.branches| ensures Remaining(s, c, before, w.branches[i]) {
    }
  }

  // ----- Any number of runs -----

  /** `runs` led from `start` to `now`. */
  ghost predicate Chain(srv: Server, s: Settings, start: View, runs: seq<Run>, now: View)
    requires srv.Valid()
  {
    if runs == [] then Later(start, now)
    else
      var last := runs[|runs| - 1];
      && Chain(srv, s, start, runs[..|runs| - 1], last.before)
      && IsRun(srv, s, last)
      && Later(last.after, now)
  }

  /** Empty tables. */
  ghost function Empty(settings: Settings, start: Time): View {
    View(None, map[], Ledger(map[], {}, 0, []), start, settings.overlapMs)
  }

  lemma EmptyIsConsistent(srv: Server, settings: Settings, start: Time)
    requires srv.Valid() && COLD_START <= start
    ensures Inv(srv, Empty(settings, start)) && NoLegacy(Empty(settings, start))
    ensures Chain(srv, settings, Empty(settings, start), [], Empty(settings, start))
  {
  }

  lemma LaterIsInv(srv: Server, v: View, now: View)
    requires Inv(srv, v) && Later(v, now)
    ensures Inv(srv, now) && srv.Valid()
  {
  }

  lemma ChainWaits(srv: Server, s: Settings, start: View, runs: seq<Run>, mid: View, now: View)
    requires srv.Valid() && Chain(srv, s, start, runs, mid) && Later(mid, now)
    ensures Chain(srv, s, start, runs, now)
  {
  }

  lemma ChainGrows(srv: Server, s: Settings, start: View, runs: seq<Run>, run: Run)
    requires srv.Valid() && Chain(srv, s, start, runs, run.before) && IsRun(srv, s, run)
    ensures Chain(srv, s, start, runs + [run], run.after)
  {
    assert (runs + [run])[..|runs|] == runs;
  }

  lemma {:induction false} ChainJoins(srv: Server, s: Settings, start: View, a: seq<Run>, mid: View, b: seq<Run>,
                                      now: View)
    requires srv.Valid() && Chain(srv, s, start, a, mid) && Chain(srv, s, mid, b, now)
    ensures Chain(srv, s, start, a + b, now)
    decreases |b|
  {
    hide IsRun;
    if b == [] {
      assert a + b == a;
      ChainWaits(srv, s, start, a, mid, now);
    } else {
      var front := b[..|b| - 1];
      ChainJoins(srv, s, start, a, mid, front, b[|b| - 1].before);
      assert (a + b)[..|a + b| - 1] == a + front;
    }
  }

  /** A chain keeps the invariant, and windows once completed stay completed. */
  lemma {:induction false} ChainKeepsInv(srv: Server, s: Settings, start: View, runs: seq<Run>, now: View)
    requires srv.Valid() && Inv(srv, start) && Chain(srv, s, start, runs, now)
    ensures Inv(srv, now) && start.led.done <= now.led.done && start.clock <= now.clock
            && now.overlapMs == start.overlapMs
    decreases |runs|
  {
    if runs != [] {
      var last := runs[|runs| - 1];
      ChainKeepsInv(srv, s, start, runs[..|runs| - 1], last.before);
      WatermarkNeverFalls(srv, s, last);
    }
  }

  function PausesIn(runs: seq<Run>): nat {
    if runs == [] then 0
    else PausesIn(runs[..|runs| - 1]) + (if IsPause(runs[|runs| - 1].outcome) then 1 else 0)
  }

  /** The open window of `later` is that of `before`: same bounds, same cache below it, the snapshot at most longer. */
  ghost predicate SameWindow(before: View, later: View)
    requires before.AtSnapshot()
  {
    && later.AtSnapshot()
    && later.OpenWindow().start == before.OpenWindow().start && later.OpenWindow().end == before.OpenWindow().end
    && later.led.skipped == before.led.skipped && later.led.base == before.led.base
    && before.OpenWindow().branches <= later.OpenWindow().branches
    && before.NextIndex() <= later.NextIndex()
  }

  lemma RunKeepsWindow(srv: Server, s: Settings, run: Run)
    requires srv.Valid() && Inv(srv, run.before) && IsRun(srv, s, run)
    requires run.before.AtSnapshot() && run.after.led.done == run.before.led.done
    ensures SameWindow(run.before, run.after) && run.after.Watermark() == run.before.Watermark()
    ensures run.after.led.pauses == run.before.led.pauses + (if IsPause(run.outcome) then 1 else 0)
    ensures IsPause(run.outcome) ==> run.before.NextIndex() < run.after.NextIndex()
  {
  }

  /**
   * As long as no window is completed, the open one stays open as it was, its
   * snapshot only grows at the end, and every pause got past a further branch;
   * so a window pauses fewer times than it has branches.
   */
  lemma {:induction false} WindowSurvives(srv: Server, s: Settings, start: View, runs: seq<Run>, now: View)
    requires srv.Valid() && Inv(srv, start) && start.AtSnapshot() && Chain(srv, s, start, runs, now)
    requires |now.led.done| == |start.led.done|
    ensures SameWindow(start, now) && now.Watermark() == start.Watermark()
    ensures start.led.pauses + PausesIn(runs) == now.led.pauses < |now.OpenWindow().branches|
    ensures start.NextIndex() + PausesIn(runs) <= now.NextIndex()
    decreases |runs|
  {
    hide IsRun, Inv;
    if runs == [] {
      StaysOpen(srv, start, now);
    } else {
      var last := runs[|runs| - 1];
      ChainKeepsInv(srv, s, start, runs[..|runs| - 1], last.before);
      ChainKeepsInv(srv, s, start, runs, now);
      WatermarkNeverFalls(srv, s, last);
      WindowSurvives(srv, s, start, runs[..|runs| - 1], last.before);
      RunKeepsWindow(srv, s, last);
      AfterIsInv(srv, s, last);
      StaysOpen(srv, last.after, now);
    }
  }

  lemma StaysOpen(srv: Server, v: View, now: View)
    requires Inv(srv, v) && v.AtSnapshot() && Later(v, now)
    ensures v.led.pauses <= v.NextIndex() < |v.OpenWindow().branches|
    ensures now.AtSnapshot() && SameWindow(v, now) && now.led == v.led && now.Watermark() == v.Watermark()
  {
  }

  /** The specification of a history: one atomic write after the other, one for each completed window. */
  ghost function AllAtomic(srv: Server, base: CommitCache, windows: seq<Window>): CommitCache
    requires srv.Valid()
  {
    if windows == [] then base
    else Atomic(srv, AllAtomic(srv, base, windows[..|windows| - 1]), windows[|windows| - 1])
  }

  /** No window is being continued from a name alone. */
  ghost predicate NoLegacy(v: View) {
    v.Continuing() ==> v.AtSnapshot()
  }

  lemma AllAtomicGrows(srv: Server, base: CommitCache, windows: seq<Window>, w: Window)
    requires srv.Valid()
    ensures AllAtomic(srv, base, windows + [w]) == Atomic(srv, AllAtomic(srv, base, windows), w)
  {
    assert (windows + [w])[..|windows|] == windows;
  }

  /** One run moves the base on by the window it closes, and by nothing else. */
  lemma RunMovesBase(srv: Server, s: Settings, run: Run)
    requires srv.Valid() && Inv(srv, run.before) && IsRun(srv, s, run) && NoLegacy(run.before)
    ensures NoLegacy(run.after) && run.before.led.done <= run.after.led.done
    ensures run.after.led.done == run.before.led.done ==> BaseOf(run.after) == BaseOf(run.before)
    ensures run.after.led.done != run.before.led.done ==>
      && run.work.Some? && run.after.led.done == run.before.led.done + [run.work.value.w]
      && !run.after.Continuing() && BaseOf(run.after) == Atomic(srv, BaseOf(run.before), run.work.value.w)
  {
    if run.work.Some? && run.after.led.done == run.before.led.done && !run.after.AtSnapshot() {
      var k := run.work.value;
      assert k.w.branches == [] && Listed(srv, k.w) == {};
      assert run.after.commits == run.before.commits;
    }
  }

  /**
   * Refinement over whole histories: whatever pauses, failures, lost
   * acknowledgements and changes of candidate lie between, the cache is the one
   * that atomic writes of the completed windows, one after the other, would have
   * left; and while a window is open, that is the cache it is written over.
   */
  lemma {:induction false} CacheIsTheWindows(srv: Server, s: Settings, start: View, runs: seq<Run>, now: View)
    requires srv.Valid() && Inv(srv, start) && NoLegacy(start) && Chain(srv, s, start, runs, now)
    ensures start.led.done <= now.led.done && NoLegacy(now)
    ensures BaseOf(now) == AllAtomic(srv, BaseOf(start), now.led.done[|start.led.done|..])
    ensures !now.Continuing() ==> now.commits == AllAtomic(srv, BaseOf(start), now.led.done[|start.led.done|..])
    decreases |runs|
  {
    hide IsRun, Inv, Atomic;
    ChainKeepsInv(srv, s, start, runs, now);
    if runs == [] {
      assert now.led.done[|start.led.done|..] == [];
    } else {
      var last := runs[|runs| - 1];
      ChainKeepsInv(srv, s, start, runs[..|runs| - 1], last.before);
      CacheIsTheWindows(srv, s, start, runs[..|runs| - 1], last.before);
      RunMovesBase(srv, s, last);
      var done := last.before.led.done[|start.led.done|..];
      if last.after.led.done != last.before.led.done {
        var w := last.work.value.w;
        AllAtomicGrows(srv, BaseOf(start), done, w);
        assert now.led.done[|start.led.done|..] == done + [w];
      }
    }
  }

  /** The window a history has opened, or completed as its first. */
  ghost predicate FirstWindow(start: View, now: View, w: Window) {
    if start.AtSnapshot() then
      && w.start == start.OpenWindow().start && w.end == start.OpenWindow().end && w.skipped == start.led.skipped
      && start.OpenWindow().branches <= w.branches
    else
      && w.start == NextStart(start.Watermark(), start.overlapMs) && w.skipped == {}
      && start.clock <= w.end <= now.clock
  }

  lemma RunKeepsFirstWindow(srv: Server, s: Settings, start: View, run: Run)
    requires srv.Valid() && Inv(srv, run.before) && IsRun(srv, s, run) && NoLegacy(run.before)
    requires start.clock <= run.before.clock && start.overlapMs == run.before.overlapMs
    requires run.before.Watermark() == start.Watermark()
    requires start.AtSnapshot() ==> run.before.AtSnapshot()
    requires run.before.AtSnapshot() ==> FirstWindow(start, run.before, run.before.OpenWindow())
    ensures run.work.Some? ==> FirstWindow(start, run.after, run.work.value.w)
    ensures run.after.AtSnapshot() ==> FirstWindow(start, run.after, run.after.OpenWindow())
    ensures run.after.led.done == run.before.led.done ==>
      run.after.Watermark() == start.Watermark() && (start.AtSnapshot() ==> run.after.AtSnapshot())
  {
  }

  lemma {:induction false} OpenIsFirstWindow(srv: Server, s: Settings, start: View, runs: seq<Run>, now: View)
    requires srv.Valid() && Inv(srv, start) && NoLegacy(start) && Chain(srv, s, start, runs, now)
    requires |now.led.done| == |start.led.done|
    ensures now.Watermark() == start.Watermark() && (start.AtSnapshot() ==> now.AtSnapshot())
    ensures now.AtSnapshot() ==> FirstWindow(start, now, now.OpenWindow())
    decreases |runs|
  {
    hide IsRun, Inv;
    if runs != [] {
      var last := runs[|runs| - 1];
      ChainKeepsInv(srv, s, start, runs[..|runs| - 1], last.before);
      ChainKeepsInv(srv, s, start, runs, now);
      WatermarkNeverFalls(srv, s, last);
      CacheIsTheWindows(srv, s, start, runs[..|runs| - 1], last.before);
      OpenIsFirstWindow(srv, s, start, runs[..|runs| - 1], last.before);
      RunKeepsFirstWindow(srv, s, start, last);
    }
  }

  /**
   * One window seen by itself, from before it was opened, or from any moment
   * since: the run that closes it leaves the cache and the watermark of one
   * uninterrupted run that wrote all of its listings at once, over the cache
   * there was before it was opened. Its branches are those that stood in the
   * snapshot at the start or that some of the runs was shown; all that the last
   * run was shown are among them.
   */
  lemma InterruptionsDoNotShow(srv: Server, s: Settings, start: View, runs: seq<Run>, now: View)
    requires srv.Valid() && Inv(srv, start) && NoLegacy(start) && Chain(srv, s, start, runs, now)
    requires |runs| > 0 && |runs[|runs| - 1].before.led.done| == |start.led.done| < |now.led.done|
    ensures |now.led.done| == |start.led.done| + 1 && !now.Continuing()
    ensures var (w, closing) := (now.led.done[|start.led.done|], runs[|runs| - 1]);
            && FirstWindow(start, now, w)
            && now.commits == Atomic(srv, BaseOf(start), w)
            && now.Watermark() == Some(w.end)
            && (forall b :: closing.candidate.Sees(b) ==> b in w.branches)
            && (forall b :: b in w.branches ==> Shown(start, runs, b))
            && (start.AtSnapshot() ==> forall b :: b in start.OpenWindow().branches ==> b in w.branches)
  {
    hide Inv, Atomic;
    var last := runs[|runs| - 1];
    var front := runs[..|runs| - 1];
    ChainKeepsInv(srv, s, start, front, last.before);
    CacheIsTheWindows(srv, s, start, front, last.before);
    OpenIsFirstWindow(srv, s, start, front, last.before);
    RunMovesBase(srv, s, last);
    RunKeepsFirstWindow(srv, s, start, last);
    ClosedByLast(srv, s, last);
    SnapshotWasShown(srv, s, start, front, last.before);
    RunShows(srv, s, start, front, last);
    assert last.before.led.done[|start.led.done|..] == [];
  }

  /** The branch stood in the snapshot at the start, or some run's token was shown it. */
  ghost predicate Shown(start: View, runs: seq<Run>, b: Branch) {
    || (start.AtSnapshot() && b in start.OpenWindow().branches)
    || exists run :: run in runs && run.candidate.Valid() && run.candidate.Sees(b)
  }

  lemma RunShows(srv: Server, s: Settings, start: View, front: seq<Run>, run: Run)
    requires srv.Valid() && IsRun(srv, s, run) && NoLegacy(run.before)
    requires run.before.AtSnapshot() ==> forall b :: b in run.before.OpenWindow().branches ==> Shown(start, front, b)
    ensures forall b :: run.work.Some? && b in run.work.value.w.branches ==> Shown(start, front + [run], b)
    ensures run.after.AtSnapshot() ==>
      forall b :: b in run.after.OpenWindow().branches ==> Shown(start, front + [run], b)
  {
    hide Shown;
    StillShown(start, front, run);
    WorkIsSeen(srv, s, run);
  }

  lemma StillShown(start: View, front: seq<Run>, run: Run)
    ensures forall b :: Shown(start, front, b) ==> Shown(start, front + [run], b)
    ensures forall b :: run.candidate.Valid() && run.candidate.Sees(b) ==> Shown(start, front + [run], b)
  {
    assert run in front + [run];
    assert forall r :: r in front ==> r in front + [run];
  }

  /** A run's branches are those of the snapshot it found and those its token is shown. */
  lemma WorkIsSeen(srv: Server, s: Settings, run: Run)
    requires srv.Valid() && IsRun(srv, s, run) && NoLegacy(run.before)
    ensures run.candidate.Valid()
    ensures run.work.Some? ==> forall b :: b in run.work.value.w.branches ==>
      (run.before.AtSnapshot() && b in run.before.OpenWindow().branches) || run.candidate.Sees(b)
    ensures run.after.AtSnapshot() ==> run.work.Some? || run.before.AtSnapshot()
    ensures run.after.AtSnapshot() ==>
      run.after.OpenWindow().branches
      == if run.work.Some? then run.work.value.w.branches else run.before.OpenWindow().branches
  {
    if run.work.Some? && run.before.AtSnapshot() {
      var w := run.work.value.w;
      var saved := run.before.OpenWindow().branches;
      assert WindowChosen(s, run.candidate, run.before, w, run.work.value.from);
      assert w.branches == saved + w.branches[|saved|..];
    }
  }

  lemma {:induction false} SnapshotWasShown(srv: Server, s: Settings, start: View, runs: seq<Run>, now: View)
    requires srv.Valid() && Inv(srv, start) && NoLegacy(start) && Chain(srv, s, start, runs, now)
    ensures now.AtSnapshot() ==> forall b :: b in now.OpenWindow().branches ==> Shown(start, runs, b)
    decreases |runs|
  {
    hide IsRun, Inv, Shown;
    if runs == [] {
      assert now.AtSnapshot() ==> forall b :: b in now.OpenWindow().branches ==> Shown(start, runs, b) by {
        StartShows(start, now);
      }
    } else {
      var last := runs[|runs| - 1];
      var front := runs[..|runs| - 1];
      SnapshotWasShown(srv, s, start, front, last.before);
      CacheIsTheWindows(srv, s, start, front, last.before);
      RunShows(srv, s, start, front, last);
      assert runs == front + [last];
    }
  }

  lemma StartShows(start: View, now: View)
    requires Later(start, now)
    ensures now.AtSnapshot() ==> forall b :: b in now.OpenWindow().branches ==> Shown(start, [], b)
  {
  }

  /** A history that began with no window open closes only windows that reach up to its beginning at least. */
  lemma {:induction false} WindowsAreNew(srv: Server, s: Settings, start: View, runs: seq<Run>, now: View)
    requires srv.Valid() && Inv(srv, start) && !start.Continuing() && Chain(srv, s, start, runs, now)
    ensures now.Continuing() ==> start.clock <= now.state.value.windowEnd.value
    ensures forall run :: run in runs && run.work.Some? ==> start.clock <= run.work.value.w.end
    decreases |runs|
  {
    hide IsRun, Inv;
    if runs != [] {
      var last := runs[|runs| - 1];
      var front := runs[..|runs| - 1];
      WindowsAreNew(srv, s, start, front, last.before);
      ChainKeepsInv(srv, s, start, front, last.before);
      RunKeepsEnd(srv, s, last, start.clock);
      assert forall run :: run in runs ==> run in front || run == last;
    }
  }

  lemma RunKeepsEnd(srv: Server, s: Settings, run: Run, since: Time)
    requires srv.Valid() && Inv(srv, run.before) && IsRun(srv, s, run) && since <= run.before.clock
    requires run.before.Continuing() ==> since <= run.before.state.value.windowEnd.value
    ensures run.work.Some? ==> since <= run.work.value.w.end
    ensures run.after.Continuing() ==> since <= run.after.state.value.windowEnd.value
  {
  }

  /** The run closed a window, the one it resumed or a new one, and reports what it wrote: each listing in full. */
  ghost predicate Finished(srv: Server, run: Run, upserted: nat)
    requires srv.Valid()
  {
    && IsFinish(run.outcome) && run.outcome.value.upserted == upserted && run.work.Some?
    && var k := run.work.value;
       && run.after.led.done == run.before.led.done + [k.w] && run.after.Watermark() == Some(k.w.end)
       && !run.after.Continuing()
       && k.from <= |k.w.branches| && upserted == Counted(srv, k.w, k.from, |k.w.branches|)
       && (run.before.Continuing() || run.before.clock <= k.w.end)
  }

  /** The run came to a further branch of the open window, and says which is next. */
  ghost predicate Rested(srv: Server, run: Run, upserted: nat, nextBranch: Branch)
    requires srv.Valid()
  {
    && run.outcome == Done(PausedAt(upserted, nextBranch)) && run.work.Some?
    && var k := run.work.value;
       && run.after.led.done == run.before.led.done && run.after.AtSnapshot()
       && run.after.OpenWindow().branches == k.w.branches && run.after.NextIndex() == k.at
       && k.from < k.at < |k.w.branches| && k.w.branches[k.at] == nextBranch
       && upserted == Counted(srv, k.w, k.from, k.at)
  }

  lemma RunReports(srv: Server, s: Settings, run: Run)
    requires srv.Valid() && IsRun(srv, s, run)
    ensures IsFinish(run.outcome) ==> Finished(srv, run, run.outcome.value.upserted)
    ensures IsPause(run.outcome) ==> Rested(srv, run, run.outcome.value.upserted, run.outcome.value.nextBranch)
  {
  }

  lemma ClosedByLast(srv: Server, s: Settings, run: Run)
    requires srv.Valid() && Inv(srv, run.before) && IsRun(srv, s, run) && NoLegacy(run.before)
    requires |run.after.led.done| > |run.before.led.done|
    ensures run.work.Some? && run.after.led.done == run.before.led.done + [run.work.value.w]
    ensures !run.after.Continuing() && run.after.Watermark() == Some(run.work.value.w.end)
    ensures forall b :: run.candidate.Sees(b) ==> b in run.work.value.w.branches
  {
    var w := run.work.value.w;
    if run.before.AtSnapshot() {
      var saved := run.before.OpenWindow().branches;
      assert w.branches == saved + w.branches[|saved|..];
    }
  }

  /** While GitLab answers 404 for a branch still to be read, a run closes nothing and does not pass it. */
  lemma DeletedBranchStopsRun(srv: Server, s: Settings, run: Run, j: nat)
    requires srv.Valid() && Inv(srv, run.before) && IsRun(srv, s, run) && run.before.AtSnapshot()
    requires run.before.NextIndex() <= j < |run.before.OpenWindow().branches|
    requires run.before.OpenWindow().branches[j] in run.candidate.gone
    ensures run.after.led.done == run.before.led.done && !IsFinish(run.outcome)
    ensures run.after.AtSnapshot() && run.after.NextIndex() <= j
  {
    if run.work.Some? {
      var k := run.work.value;
      assert k.w.branches[j] == run.before.OpenWindow().branches[j];
    }
  }

  /**
   * A branch deleted before it was read stalls its window: while GitLab answers
   * 404 for it, no window is completed, the cursor never passes it, and the
   * watermark stays where it is.
   */
  lemma {:induction false} DeletedBranchStallsWindow(srv: Server, s: Settings, start: View, runs: seq<Run>, now: View,
                                                     j: nat)
    requires srv.Valid() && Inv(srv, start) && start.AtSnapshot() && Chain(srv, s, start, runs, now)
    requires start.NextIndex() <= j < |start.OpenWindow().branches|
    requires forall run :: run in runs ==> start.OpenWindow().branches[j] in run.candidate.gone
    ensures forall run :: run in runs ==> !IsFinish(run.outcome)
    ensures now.led.done == start.led.done && SameWindow(start, now) && now.Watermark() == start.Watermark()
    ensures now.NextIndex() <= j
    decreases |runs|
  {
    hide IsRun, Inv;
    if runs == [] {
      StaysOpen(srv, start, now);
    } else {
      var last := runs[|runs| - 1];
      var front := runs[..|runs| - 1];
      ChainKeepsInv(srv, s, start, front, last.before);
      DeletedBranchStallsWindow(srv, s, start, front, last.before, j);
      assert last in runs;
      assert last.before.OpenWindow().branches[j] == start.OpenWindow().branches[j];
      DeletedBranchStopsRun(srv, s, last, j);
      RunKeepsWindow(srv, s, last);
      ChainKeepsInv(srv, s, start, runs, now);
      AfterIsInv(srv, s, last);
      StaysOpen(srv, last.after, now);
      assert forall run :: run in runs ==> run in front || run == last;
    }
  }

  lemma AfterIsInv(srv: Server, s: Settings, run: Run)
    requires srv.Valid() && IsRun(srv, s, run)
    ensures Inv(srv, run.after)
  {
  }
}
