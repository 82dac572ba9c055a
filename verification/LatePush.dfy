/**
 * How far the overlap of commit windows reaches: the shortest history in which a
 * commit pushed too long after its authored date is missed for good.
 */
module LatePushes {
  import opened Base
  import opened Pagination
  import opened CommitWindow
  import opened CommitRuns

  function LateCommit(authored: Time): Commit {
    Commit("late", None, authored, "", None)
  }

  /** A server with one commit, listed by exactly the windows that must list it. */
  function LateServer(authored: Time, pushed: Time): Server {
    Server((b, since, until) =>
             at => Page(if since <= authored <= until && pushed <= until then [LateCommit(authored)] else [], None),
           sha => LateCommit(authored).(sha := sha), {})
  }

  lemma LateShas(authored: Time, pushed: Time, b: Branch, since: Time, until: Time)
    ensures LateServer(authored, pushed).Valid()
    ensures LateServer(authored, pushed).Shas(b, since, until)
         == if since <= authored <= until && pushed <= until then {"late"} else {}
  {
    var srv := LateServer(authored, pushed);
    var c := LateCommit(authored);
    assert Reached(srv.listing(b, since, until), srv.cursors, None, {})
        == if since <= authored <= until && pushed <= until then [c] else [];
    assert c in [c] && c.sha == "late";
  }

  lemma LateIsPublished(authored: Time, pushed: Time, b: Branch)
    ensures LateServer(authored, pushed).Valid()
    ensures Publishes(LateServer(authored, pushed), b, sha => pushed, {"late"})
  {
    forall since, until
      ensures LateServer(authored, pushed).Valid()
      ensures LateServer(authored, pushed).Shas(b, since, until)
           == if since <= authored <= until && pushed <= until then {"late"} else {}
    {
      LateShas(authored, pushed, b, since, until);
    }
  }

  /** Everyone sees the one branch, and nothing goes wrong. */
  function Seer(b: Branch): Candidate {
    Candidate("c", "u", None, at => Page([b], None), {}, {}, (n, next) => false, true)
  }

  /** The window a run opens now, over the one branch. */
  function NewWindow(v: View, b: Branch): Window {
    Window(NextStart(v.Watermark(), v.overlapMs), v.clock, [b], {})
  }

  /** What a whole run leaves that finds nothing listed. */
  function Closed(v: View, b: Branch): View {
    var w := NewWindow(v, b);
    v.(state := Some(CommitState(Some(w.end), Some(w.start), Some(w.end), None)),
       led := Ledger(map[], {}, 0, v.led.done + [w]))
  }

  function Opened(v: View, b: Branch): View {
    var w := NewWindow(v, b);
    v.(state := Some(CommitState(v.Watermark(), Some(w.start), Some(w.end), Some(Snapshot([b], 0)))),
       led := Ledger(map[], {}, 0, v.led.done))
  }

  lemma NothingIsListed(authored: Time, pushed: Time, v: View, b: Branch)
    requires var w := NewWindow(v, b); !(w.start <= authored <= w.end && pushed <= w.end)
    ensures LateServer(authored, pushed).Valid()
    ensures var (srv, w) := (LateServer(authored, pushed), NewWindow(v, b));
            Listed(srv, w) == {} && BranchCached(srv, b, w.start, w.end, map[])
            && Counted(srv, w, 0, 1) == 0
  {
    var (srv, w) := (LateServer(authored, pushed), NewWindow(v, b));
    LateShas(authored, pushed, b, w.start, w.end);
    assert Reached(srv.listing(b, w.start, w.end), srv.cursors, None, {}) == [];
    assert Counted(srv, w, 0, 0) == 0;
  }

  /** A calm run that finds nothing listed closes its window over an empty cache. */
  lemma EmptyRun(authored: Time, pushed: Time, settings: Settings, v: View, b: Branch) returns (run: Run)
    requires var w := NewWindow(v, b); !(w.start <= authored <= w.end && pushed <= w.end)
    requires LateServer(authored, pushed).Valid() && Inv(LateServer(authored, pushed), v)
    requires !v.Continuing() && v.commits == map[]
    ensures run == Run(Seer(b), v, Closed(v, b), Done(Drained(0)), Some(Work(NewWindow(v, b), 0, 1)))
    ensures IsRun(LateServer(authored, pushed), settings, run)
  {
    hide Server.Valid, Server.Shas, Server.Drains, Progress, History, Open, Counted, Listed, BranchCached;
    var srv, w, mid := LateServer(authored, pushed), NewWindow(v, b), Opened(v, b);
    run := Run(Seer(b), v, Closed(v, b), Done(Drained(0)), Some(Work(w, 0, 1)));
    NothingIsListed(authored, pushed, v, b);
    BeginKeepsInv(srv, v, v.clock, [b]);
    LastKeepsInv(srv, mid, w, 0);
    CompleteKeepsInv(srv, mid, w);
    assert w.branches[..1] == [b];
    SeerSees(b);
    assert Chosen(settings, run.candidate, v, mid, w, 0);
    assert Readable(srv, run.candidate, w, 0, 1) by {
      CachedDrains(srv, b, w);
    }
    assert LoopEnded(srv, run.candidate, mid, run.after, run.outcome, w, 0, 1);
  }

  lemma SeerSees(b: Branch)
    ensures Seer(b).Valid() && forall x :: Seer(b).Sees(x) <==> x == b
  {
    assert Reached(Seer(b).branchPages, Seer(b).cursors, None, {}) == [b];
  }

  lemma CachedDrains(srv: Server, b: Branch, w: Window)
    requires srv.Valid() && BranchCached(srv, b, w.start, w.end, map[])
    ensures srv.Drains(b, w.start, w.end)
  {
  }

  /**
   * The overlap is exactly what a delay may be: a commit pushed later than that
   * after its authored date can be missed for good. Two calm runs from empty
   * tables on do it, one just before the push and one at the push; both windows
   * list its branch to the end, and the watermark passes both its dates.
   */
  lemma LaterPushesCanBeMissed(settings: Settings, authored: Time, pushed: Time, b: Branch)
    returns (srv: Server, runs: seq<Run>, now: View)
    requires COLD_START <= authored && authored + settings.overlapMs + 1 < pushed
    ensures srv.Valid() && Publishes(srv, b, sha => pushed, {"late"}) && srv.commitOf("late").authoredAt == authored
    ensures Chain(srv, settings, Empty(settings, COLD_START), runs, now) && |runs| == 2 && Inv(srv, now)
    ensures forall run :: run in runs ==> run.candidate.calm && IsFinish(run.outcome)
    ensures |now.led.done| == 2 && forall w :: w in now.led.done ==> w.branches == [b] && w.skipped == {}
    ensures now.Watermark() == Some(pushed) && "late" !in now.commits
  {
    hide Publishes, IsRun, Inv, Server.Valid;
    srv := LateServer(authored, pushed);
    LateIsPublished(authored, pushed, b);
    EmptyIsConsistent(srv, settings, COLD_START);
    var empty := Empty(settings, COLD_START);
    var early := empty.(clock := pushed - 1);
    LaterIsInv(srv, empty, early);
    var first := EmptyRun(authored, pushed, settings, early, b);
    ChainWaits(srv, settings, empty, [], empty, early);
    ChainGrows(srv, settings, empty, [], first);
    AfterIsInv(srv, settings, first);
    var late := first.after.(clock := pushed);
    LaterIsInv(srv, first.after, late);
    var second := EmptyRun(authored, pushed, settings, late, b);
    ChainWaits(srv, settings, empty, [] + [first], first.after, late);
    ChainGrows(srv, settings, empty, [] + [first], second);
    AfterIsInv(srv, settings, second);
    runs, now := [] + [first] + [second], second.after;
  }
}
