/**
 * The shared-index worker pool that probes project visibility
 * (packages/domain/src/project-access.ts), under every interleaving.
 */
module ProbePool {
  import opened Base

  type ProjectId = string

  datatype Probe =
    | Visible(path: string)
    | Denied
    | Failure(code: string)
    | Unauthorized
    | Broken
  {
    predicate Throws() {
      Unauthorized? || Broken?
    }
  }

  type Answers = ProjectId -> Probe

  datatype Batch = Batch(visible: map<ProjectId, string>, failed: map<ProjectId, string>)

  /** What is recorded once the items at the given positions are handled, in whatever order. */
  ghost function Recorded(ids: seq<ProjectId>, answer: Answers, done: set<nat>): Batch
    requires forall i :: i in done ==> i < |ids|
  {
    Batch(map i | i in done && answer(ids[i]).Visible? :: ids[i] := answer(ids[i]).path,
          map i | i in done && answer(ids[i]).Failure? :: ids[i] := answer(ids[i]).code)
  }

  ghost function Positions(ids: seq<ProjectId>): set<nat> {
    set i {:trigger ids[i]} | 0 <= i < |ids|
  }

  function Record(id: ProjectId, probe: Probe, batch: Batch): Batch {
    match probe
    case Visible(path) => batch.(visible := batch.visible[id := path])
    case Failure(code) => batch.(failed := batch.failed[id := code])
    case _ => batch
  }

  /** A pool worker is between two items, waits for GitLab, or has returned or thrown. */
  datatype PoolWorker = Free | Busy(index: nat) | Returned | Thrown(index: nat)

  datatype Pool = Pool(next: nat, workers: seq<PoolWorker>, finished: set<nat>, batch: Batch)

  function Start(ids: seq<ProjectId>, concurrency: int): Pool {
    Pool(0, seq(Max(0, Min(concurrency, |ids|)), _ => Free), {}, Batch(map[], map[]))
  }

  /** Worker `w` runs up to its next wait: it takes an index, or handles the answer to the one it has. */
  ghost predicate Next(ids: seq<ProjectId>, answer: Answers, p: Pool, w: nat, p': Pool) {
    && w < |p.workers|
    && match p.workers[w] {
         case Free =>
           p' == p.(next := p.next + 1,
                    workers := p.workers[w := if p.next < |ids| then Busy(p.next) else Returned])
         case Busy(i) =>
           && i < |ids|
           && var id := ids[i];
              p' == p.(workers := p.workers[w := if answer(id).Throws() then Thrown(i) else Free],
                       finished := p.finished + {i},
                       batch := Record(id, answer(id), p.batch))
         case Returned => false
         case Thrown(_) => false
       }
  }

  /** Who is waiting for an answer. */
  ghost function InFlight(p: Pool): set<nat> {
    set w | 0 <= w < |p.workers| && p.workers[w].Busy? :: p.workers[w].index
  }

  function Weight(w: PoolWorker): nat {
    match w case Free => 1 case Busy(_) => 2 case _ => 0
  }

  function TotalWeight(ws: seq<PoolWorker>): nat {
    if ws == [] then 0 else Weight(ws[0]) + TotalWeight(ws[1..])
  }

  /** Every index taken so far is handled or waiting, and waiting at one worker only. */
  ghost predicate IndicesOk(ids: seq<ProjectId>, p: Pool) {
    && (forall i :: i in p.finished || i in InFlight(p) <==> 0 <= i < Min(p.next, |ids|))
    && p.finished !! InFlight(p)
    && (forall v, w :: 0 <= v < w < |p.workers| && p.workers[v].Busy? && p.workers[w].Busy? ==>
          p.workers[v].index != p.workers[w].index)
  }

  /** Why workers stop: nothing is left to take, or the probe they handled threw. */
  ghost predicate StopsOk(ids: seq<ProjectId>, answer: Answers, p: Pool) {
    && (forall i :: i in p.finished ==> i < |ids|)
    && (forall w :: 0 <= w < |p.workers| && p.workers[w].Returned? ==> p.next > |ids|)
    && (forall w :: 0 <= w < |p.workers| && p.workers[w].Thrown? ==>
          p.workers[w].index in p.finished && answer(ids[p.workers[w].index]).Throws())
    && (forall i :: i in p.finished && answer(ids[i]).Throws() ==> Thrown(i) in p.workers)
  }

  ghost predicate Inv(ids: seq<ProjectId>, answer: Answers, p: Pool) {
    && IndicesOk(ids, p)
    && StopsOk(ids, answer, p)
    && p.batch == Recorded(ids, answer, p.finished)
  }

  lemma InFlightChanges(ws: seq<PoolWorker>, w: nat, to: PoolWorker, p: Pool, p': Pool)
    requires w < |ws| && p.workers == ws && p'.workers == ws[w := to]
    requires ws[w].Busy? ==> forall v :: 0 <= v < |ws| && v != w && ws[v].Busy? ==> ws[v].index != ws[w].index
    ensures InFlight(p')
         == InFlight(p) - (if ws[w].Busy? then {ws[w].index} else {}) + (if to.Busy? then {to.index} else {})
  {
    forall i | i in InFlight(p) && !(ws[w].Busy? && ws[w].index == i) ensures i in InFlight(p') {
      var v :| 0 <= v < |ws| && ws[v].Busy? && ws[v].index == i;
      assert p'.workers[v] == ws[v];
    }
    if to.Busy? {
      assert p'.workers[w].index in InFlight(p');
    }
    forall i | i in InFlight(p') && !(to.Busy? && to.index == i) ensures i in InFlight(p) {
      var v :| 0 <= v < |ws| && p'.workers[v].Busy? && p'.workers[v].index == i;
      assert ws[v] == p'.workers[v];
    }
  }

  /** The next index is always a new one, and a waiting index is handled once. */
  lemma StepKeepsIndices(ids: seq<ProjectId>, answer: Answers, p: Pool, w: nat, p': Pool)
    requires IndicesOk(ids, p) && Next(ids, answer, p, w, p')
    ensures p.workers[w].Free? && p.next < |ids| ==> p.next !in p.finished && p.next !in InFlight(p)
    ensures p.workers[w].Busy? ==> p.workers[w].index !in p.finished
    ensures IndicesOk(ids, p')
  {
    if p.workers[w].Busy? {
      assert p.workers[w].index in InFlight(p);
    }
    InFlightChanges(p.workers, w, p'.workers[w], p, p');
    forall v | 0 <= v < |p.workers| && p.workers[v].Busy? ensures p.workers[v].index in InFlight(p) {
    }
  }

  lemma StepKeepsStops(ids: seq<ProjectId>, answer: Answers, p: Pool, w: nat, p': Pool)
    requires StopsOk(ids, answer, p) && Next(ids, answer, p, w, p')
    ensures StopsOk(ids, answer, p')
  {
    forall i | i in p'.finished && answer(ids[i]).Throws() ensures Thrown(i) in p'.workers {
      if i in p.finished {
        var v :| 0 <= v < |p.workers| && p.workers[v] == Thrown(i);
        assert p'.workers[v] == Thrown(i);
      } else {
        assert p'.workers[w] == Thrown(i);
      }
    }
  }

  lemma RecordsOneVisible(ids: seq<ProjectId>, answer: Answers, done: set<nat>, i: nat)
    requires forall j :: j in done ==> j < |ids|
    requires i < |ids|
    ensures Recorded(ids, answer, done + {i}).visible
            == Record(ids[i], answer(ids[i]), Recorded(ids, answer, done)).visible
  {
    var before, after := Recorded(ids, answer, done).visible, Recorded(ids, answer, done + {i}).visible;
    var expected := Record(ids[i], answer(ids[i]), Recorded(ids, answer, done)).visible;
    forall id | id in after ensures id in expected {
      var j :| j in done + {i} && answer(ids[j]).Visible? && ids[j] == id;
    }
    forall id | id in expected ensures id in after {
      if id in before {
        var j :| j in done && answer(ids[j]).Visible? && ids[j] == id;
        assert j in done + {i};
      } else {
        assert i in done + {i};
      }
    }
  }

  lemma RecordsOneFailed(ids: seq<ProjectId>, answer: Answers, done: set<nat>, i: nat)
    requires forall j :: j in done ==> j < |ids|
    requires i < |ids|
    ensures Recorded(ids, answer, done + {i}).failed
            == Record(ids[i], answer(ids[i]), Recorded(ids, answer, done)).failed
  {
    var before, after := Recorded(ids, answer, done).failed, Recorded(ids, answer, done + {i}).failed;
    var expected := Record(ids[i], answer(ids[i]), Recorded(ids, answer, done)).failed;
    forall id | id in after ensures id in expected {
      var j :| j in done + {i} && answer(ids[j]).Failure? && ids[j] == id;
    }
    forall id | id in expected ensures id in after {
      if id in before {
        var j :| j in done && answer(ids[j]).Failure? && ids[j] == id;
        assert j in done + {i};
      } else {
        assert i in done + {i};
      }
    }
  }

  lemma StepKeepsInv(ids: seq<ProjectId>, answer: Answers, p: Pool, w: nat, p': Pool)
    requires Inv(ids, answer, p) && Next(ids, answer, p, w, p')
    ensures Inv(ids, answer, p') && |p'.workers| == |p.workers|
  {
    StepKeepsIndices(ids, answer, p, w, p');
    StepKeepsStops(ids, answer, p, w, p');
    if p.workers[w].Busy? {
      RecordsOneVisible(ids, answer, p.finished, p.workers[w].index);
      RecordsOneFailed(ids, answer, p.finished, p.workers[w].index);
    }
  }

  // ----- Whole schedules -----

  /** `pools[k + 1]` is `pools[k]` after worker `schedule[k]` ran. */
  ghost predicate IsRun(ids: seq<ProjectId>, answer: Answers, concurrency: int, pools: seq<Pool>, schedule: seq<nat>) {
    && |pools| == |schedule| + 1
    && pools[0] == Start(ids, concurrency)
    && forall k :: 0 <= k < |schedule| ==> Next(ids, answer, pools[k], schedule[k], pools[k + 1])
  }

  lemma {:induction false} InvAlong(ids: seq<ProjectId>, answer: Answers, concurrency: int, pools: seq<Pool>,
                                    schedule: seq<nat>, n: nat)
    requires IsRun(ids, answer, concurrency, pools, schedule) && n <= |schedule|
    ensures Inv(ids, answer, pools[n]) && |pools[n].workers| == |Start(ids, concurrency).workers|
  {
    if n > 0 {
      InvAlong(ids, answer, concurrency, pools, schedule, n - 1);
      StepKeepsInv(ids, answer, pools[n - 1], schedule[n - 1], pools[n]);
    }
  }

  ghost predicate AllStopped(p: Pool) {
    forall w :: 0 <= w < |p.workers| ==> p.workers[w].Returned? || p.workers[w].Thrown?
  }

  ghost predicate SomeProbeThrows(ids: seq<ProjectId>, answer: Answers) {
    exists i :: 0 <= i < |ids| && answer(ids[i]).Throws()
  }

  ghost predicate SomeWorkerThrew(p: Pool) {
    exists w :: 0 <= w < |p.workers| && p.workers[w].Thrown?
  }

  /**
   * With at least one worker, every schedule that runs until all workers have
   * stopped agrees. A worker has thrown if and only if some id's probe throws,
   * so a batch is rejected under one schedule exactly if it is under all; and if
   * none throws, each id was handled once and all schedules record the same.
   */
  lemma ScheduleDoesNotMatter(ids: seq<ProjectId>, answer: Answers, concurrency: int, pools: seq<Pool>,
                              schedule: seq<nat>)
    requires IsRun(ids, answer, concurrency, pools, schedule) && concurrency >= 1 && ids != []
    requires AllStopped(pools[|schedule|])
    ensures SomeWorkerThrew(pools[|schedule|]) <==> SomeProbeThrows(ids, answer)
    ensures !SomeProbeThrows(ids, answer) ==>
      && pools[|schedule|].finished == Positions(ids)
      && pools[|schedule|].batch == Recorded(ids, answer, Positions(ids))
  {
    InvAlong(ids, answer, concurrency, pools, schedule, |schedule|);
    var last := pools[|schedule|];
    assert InFlight(last) == {};
    assert last.workers[0].Returned? || last.workers[0].Thrown?;
    if SomeWorkerThrew(last) {
      var w :| 0 <= w < |last.workers| && last.workers[w].Thrown?;
      assert answer(ids[last.workers[w].index]).Throws();
    } else {
      assert last.next > |ids|;
      assert last.finished == Positions(ids);
    }
  }

  /** No more probes wait at once than there are workers, and a step never takes an index a second time. */
  lemma BoundedConcurrency(ids: seq<ProjectId>, answer: Answers, concurrency: int, pools: seq<Pool>,
                           schedule: seq<nat>, n: nat)
    requires IsRun(ids, answer, concurrency, pools, schedule) && n < |schedule|
    ensures |InFlight(pools[n])| <= Max(0, Min(concurrency, |ids|))
    ensures schedule[n] < |pools[n].workers|
    ensures pools[n].workers[schedule[n]].Free? && pools[n].next < |ids| ==>
              pools[n].next !in pools[n].finished && pools[n].next !in InFlight(pools[n])
  {
    InvAlong(ids, answer, concurrency, pools, schedule, n);
    BusyCount(pools[n].workers);
    StepKeepsIndices(ids, answer, pools[n], schedule[n], pools[n + 1]);
  }

  lemma {:induction false} BusyCount(ws: seq<PoolWorker>)
    ensures |set w | 0 <= w < |ws| && ws[w].Busy? :: ws[w].index| <= |ws|
  {
    var all := set w | 0 <= w < |ws| && ws[w].Busy? :: ws[w].index;
    if ws == [] {
      assert all == {};
    } else {
      var n := |ws| - 1;
      var init := ws[..n];
      BusyCount(init);
      var some := set w | 0 <= w < |init| && init[w].Busy? :: init[w].index;
      assert all == some + if ws[n].Busy? then {ws[n].index} else {} by {
        forall i | i in all ensures i in some + if ws[n].Busy? then {ws[n].index} else {} {
          var w :| 0 <= w < |ws| && ws[w].Busy? && ws[w].index == i;
          assert w < n ==> init[w] == ws[w];
        }
        forall i | i in some ensures i in all {
          var w :| 0 <= w < |init| && init[w].Busy? && init[w].index == i;
          assert ws[w] == init[w];
        }
      }
    }
  }

  /** Every step makes progress, so every schedule comes to an end. */
  function Remaining(ids: seq<ProjectId>, p: Pool): int {
    TotalWeight(p.workers) + 2 * Max(0, |ids| - p.next)
  }

  lemma {:induction false} WeightChange(ws: seq<PoolWorker>, w: nat, to: PoolWorker)
    requires w < |ws|
    ensures TotalWeight(ws[w := to]) == TotalWeight(ws) - Weight(ws[w]) + Weight(to)
  {
    if w > 0 {
      WeightChange(ws[1..], w - 1, to);
      assert ws[w := to][1..] == ws[1..][w - 1 := to];
    } else {
      assert ws[w := to][1..] == ws[1..];
    }
  }

  lemma StepsRunOut(ids: seq<ProjectId>, answer: Answers, p: Pool, w: nat, p': Pool)
    requires Next(ids, answer, p, w, p')
    ensures 0 <= Remaining(ids, p') < Remaining(ids, p)
  {
    WeightChange(p.workers, w, p'.workers[w]);
    assert p'.workers == p.workers[w := p'.workers[w]];
  }

  lemma NobodyRuns(ids: seq<ProjectId>, answer: Answers, p: Pool, w: nat, p': Pool)
    requires p.workers == []
    ensures !Next(ids, answer, p, w, p')
  {
  }

  /** With a concurrency below one nobody probes, and every project reads as denied. */
  lemma NoWorkersDenyEverything(ids: seq<ProjectId>, answer: Answers, concurrency: int, pools: seq<Pool>,
                                schedule: seq<nat>)
    requires IsRun(ids, answer, concurrency, pools, schedule) && concurrency < 1
    ensures schedule == [] && AllStopped(pools[0]) && pools[0].batch == Batch(map[], map[])
  {
    if schedule != [] {
      NobodyRuns(ids, answer, pools[0], schedule[0], pools[1]);
    }
  }

  // ----- Which error rejects a batch -----

  /** At step `n` the probe of position `j` throws, and it is the first to: its error rejects the batch. */
  ghost predicate FirstThrow(ids: seq<ProjectId>, answer: Answers, pools: seq<Pool>, schedule: seq<nat>, n: nat,
                             j: nat)
  {
    && n < |schedule| && n < |pools| && schedule[n] < |pools[n].workers|
    && pools[n].workers[schedule[n]] == Busy(j) && j < |ids| && answer(ids[j]).Throws()
    && !SomeWorkerThrew(pools[n])
  }

  ghost function ThrowersBefore(ids: seq<ProjectId>, answer: Answers, j: nat): set<nat>
    requires j <= |ids|
  {
    set i {:trigger ids[i]} | 0 <= i < j && answer(ids[i]).Throws()
  }

  ghost predicate RefusedFirst(ids: seq<ProjectId>, answer: Answers, concurrency: int,
                               pools: seq<Pool>, schedule: seq<nat>,
                               n: nat, j: nat)
  {
    && IsRun(ids, answer, concurrency, pools, schedule)
    && FirstThrow(ids, answer, pools, schedule, n, j)
    && answer(ids[j]).Unauthorized?
  }

  lemma SubsetSize(a: set<nat>, b: set<nat>)
    requires a <= b
    ensures |a| <= |b|
  {
    assert b == a + (b - a);
  }

  /** To be first, a probe needs every throwing one before it to be still waiting, and a worker of its own. */
  lemma FirstThrowHasRoom(ids: seq<ProjectId>, answer: Answers, concurrency: int, pools: seq<Pool>, schedule: seq<nat>,
                          n: nat, j: nat)
    requires IsRun(ids, answer, concurrency, pools, schedule) && FirstThrow(ids, answer, pools, schedule, n, j)
    ensures |ThrowersBefore(ids, answer, j)| < concurrency
  {
    InvAlong(ids, answer, concurrency, pools, schedule, n);
    var p := pools[n];
    var all := ThrowersBefore(ids, answer, j) + {j};
    assert j in InFlight(p);
    forall i | i in all ensures i in InFlight(p) {
      assert i in p.finished || i in InFlight(p);
      assert i in p.finished ==> Thrown(i) in p.workers;
    }
    SubsetSize(all, InFlight(p));
    BusyCount(p.workers);
  }

  /** Throwers are kept waiting by the first workers, everyone else is handled by the next one. */
  ghost predicate Holding(ids: seq<ProjectId>, answer: Answers, p: Pool, m: nat)
    requires m <= |ids|
  {
    var k := |ThrowersBefore(ids, answer, m)|;
    && p.next == m && k <= |p.workers|
    && forall w :: 0 <= w < |p.workers| ==> if w < k then p.workers[w].Busy? else p.workers[w].Free?
  }

  lemma OneThrowerMore(ids: seq<ProjectId>, answer: Answers, m: nat)
    requires m < |ids|
    ensures |ThrowersBefore(ids, answer, m + 1)|
            == |ThrowersBefore(ids, answer, m)| + (if answer(ids[m]).Throws() then 1 else 0)
  {
    var before := ThrowersBefore(ids, answer, m);
    assert ThrowersBefore(ids, answer, m + 1) == before + (if answer(ids[m]).Throws() then {m} else {});
    assert m !in before;
  }

  lemma RunGrows(ids: seq<ProjectId>, answer: Answers, concurrency: int, pools: seq<Pool>, schedule: seq<nat>, w: nat,
                 p: Pool)
    requires IsRun(ids, answer, concurrency, pools, schedule) && Next(ids, answer, pools[|schedule|], w, p)
    ensures IsRun(ids, answer, concurrency, pools + [p], schedule + [w])
  {
  }

  /** Worker `w`, which is free, takes the next position. */
  function Taken(p: Pool, w: nat): Pool
    requires w < |p.workers|
  {
    p.(next := p.next + 1, workers := p.workers[w := Busy(p.next)])
  }

  lemma {:induction false} HoldBack(ids: seq<ProjectId>, answer: Answers, concurrency: int, m: nat)
    returns (pools: seq<Pool>, schedule: seq<nat>)
    requires m < |ids| && |ThrowersBefore(ids, answer, m)| < concurrency
    ensures IsRun(ids, answer, concurrency, pools, schedule) && Holding(ids, answer, pools[|schedule|], m)
    ensures |pools[|schedule|].workers| == Min(concurrency, |ids|)
  {
    if m == 0 {
      pools, schedule := [Start(ids, concurrency)], [];
      assert ThrowersBefore(ids, answer, 0) == {};
    } else {
      OneThrowerMore(ids, answer, m - 1);
      pools, schedule := HoldBack(ids, answer, concurrency, m - 1);
      var k := |ThrowersBefore(ids, answer, m - 1)|;
      var p := pools[|schedule|];
      FewerThrowers(ids, answer, m - 1);
      var taken := Taken(p, k);
      RunGrows(ids, answer, concurrency, pools, schedule, k, taken);
      pools, schedule := pools + [taken], schedule + [k];
      if !answer(ids[m - 1]).Throws() {
        var done := taken.(workers := taken.workers[k := Free], finished := taken.finished + {m - 1},
                           batch := Record(ids[m - 1], answer(ids[m - 1]), taken.batch));
        RunGrows(ids, answer, concurrency, pools, schedule, k, done);
        pools, schedule := pools + [done], schedule + [k];
      }
    }
  }

  lemma {:induction false} FewerThrowers(ids: seq<ProjectId>, answer: Answers, j: nat)
    requires j < |ids|
    ensures |ThrowersBefore(ids, answer, j)| <= j
  {
    if j == 0 {
      assert ThrowersBefore(ids, answer, 0) == {};
    } else {
      FewerThrowers(ids, answer, j - 1);
      OneThrowerMore(ids, answer, j - 1);
    }
  }

  /** And that is enough: some schedule lets it be first. */
  lemma SomeScheduleThrowsFirst(ids: seq<ProjectId>, answer: Answers, concurrency: int, j: nat)
    returns (pools: seq<Pool>, schedule: seq<nat>, n: nat)
    requires j < |ids| && answer(ids[j]).Throws() && |ThrowersBefore(ids, answer, j)| < concurrency
    ensures IsRun(ids, answer, concurrency, pools, schedule) && FirstThrow(ids, answer, pools, schedule, n, j)
  {
    pools, schedule := HoldBack(ids, answer, concurrency, j);
    FewerThrowers(ids, answer, j);
    var k := |ThrowersBefore(ids, answer, j)|;
    var taken := Taken(pools[|schedule|], k);
    RunGrows(ids, answer, concurrency, pools, schedule, k, taken);
    pools, schedule := pools + [taken], schedule + [k];
    n := |schedule|;
    var thrown := taken.(workers := taken.workers[k := Thrown(j)], finished := taken.finished + {j},
                         batch := Record(ids[j], answer(ids[j]), taken.batch));
    RunGrows(ids, answer, concurrency, pools, schedule, k, thrown);
    pools, schedule := pools + [thrown], schedule + [k];
    assert pools[n] == taken;
  }

  /**
   * Which error a batch is rejected with depends on the schedule, and exactly so:
   * it can be a refused token, which costs the connection, if and only if some
   * refused probe has fewer throwing probes before it than there are workers.
   */
  lemma RejectedAsUnauthorizedIff(ids: seq<ProjectId>, answer: Answers, concurrency: int)
    ensures (exists pools, schedule, n: nat, j: nat :: RefusedFirst(ids, answer, concurrency, pools, schedule, n, j))
       <==> exists j ::
              0 <= j < |ids| && answer(ids[j]).Unauthorized? && |ThrowersBefore(ids, answer, j)| < concurrency
  {
    if pools, schedule, n: nat, j: nat :| RefusedFirst(ids, answer, concurrency, pools, schedule, n, j) {
      FirstThrowHasRoom(ids, answer, concurrency, pools, schedule, n, j);
    } else if j :| 0 <= j < |ids| && answer(ids[j]).Unauthorized? && |ThrowersBefore(ids, answer, j)| < concurrency {
      var pools, schedule, n := SomeScheduleThrowsFirst(ids, answer, concurrency, j);
      assert RefusedFirst(ids, answer, concurrency, pools, schedule, n, j);
    }
  }
}
