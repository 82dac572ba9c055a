/** Whole histories of the job table: any interleaving of statements by any number of workers. */
module JobHistory {
  import opened Base
  import opened JobTable

  datatype Trace = Trace(tables: seq<Table>, events: seq<Event>)

  ghost predicate IsTrace(cfg: Config, tr: Trace) {
    && |tr.tables| == |tr.events| + 1
    && forall i :: 0 <= i < |tr.events| ==> Step(cfg, tr.tables[i], tr.events[i], tr.tables[i + 1])
  }

  lemma {:induction false} InvAlong(cfg: Config, tr: Trace, n: nat)
    requires IsTrace(cfg, tr) && Inv(cfg, tr.tables[0]) && n <= |tr.events|
    ensures Inv(cfg, tr.tables[n])
  {
    if n > 0 {
      InvAlong(cfg, tr, n - 1);
      StepKeepsInv(cfg, tr.tables[n - 1], tr.events[n - 1], tr.tables[n]);
    }
  }

  /** Rows are never lost, and completed, failed and blocked rows never change again. */
  lemma {:induction false} TerminalRowsAreFinal(cfg: Config, tr: Trace, i: nat, j: nat, id: JobId)
    requires IsTrace(cfg, tr) && i <= j <= |tr.events|
    requires id in tr.tables[i].jobs
    ensures id in tr.tables[j].jobs
    ensures tr.tables[j].jobs[id].project == tr.tables[i].jobs[id].project
    ensures tr.tables[i].clock <= tr.tables[j].clock
    ensures tr.tables[i].jobs[id].Terminal() ==> tr.tables[j].jobs[id] == tr.tables[i].jobs[id]
    decreases j
  {
    hide Step;
    if i < j {
      TerminalRowsAreFinal(cfg, tr, i, j - 1, id);
      StepMoves(cfg, tr.tables[j - 1], tr.events[j - 1], tr.tables[j]);
    }
  }

  /** One statement more. */
  function Extended(tr: Trace, e: Event, t: Table): Trace {
    Trace(tr.tables + [t], tr.events + [e])
  }

  predicate Continues(tr: Trace, longer: Trace) {
    tr.tables <= longer.tables && tr.events <= longer.events
  }

  lemma ExtendedIsTrace(cfg: Config, tr: Trace, e: Event, t: Table)
    requires IsTrace(cfg, tr) && Step(cfg, tr.tables[|tr.events|], e, t)
    ensures IsTrace(cfg, Extended(tr, e, t)) && Continues(tr, Extended(tr, e, t))
  {
    hide Step;
  }

  // ----- The failure budget -----

  predicate Claimed(t: Table, id: JobId, t': Table) {
    && id in t.jobs && id in t'.jobs
    && t.jobs[id].status.Pending? && t'.jobs[id].status.Running?
  }

  predicate PausedBy(t: Table, e: Event, id: JobId) {
    e.Reschedule? && e.id == id && t.Holds(id, e.w)
  }

  ghost function Claims(tr: Trace, id: JobId, n: nat): nat
    requires n < |tr.tables|
  {
    if n == 0 then 0
    else Claims(tr, id, n - 1) + (if Claimed(tr.tables[n - 1], id, tr.tables[n]) then 1 else 0)
  }

  ghost function Pauses(tr: Trace, id: JobId, n: nat): nat
    requires n < |tr.tables| && n <= |tr.events|
  {
    if n == 0 then 0
    else Pauses(tr, id, n - 1) + (if PausedBy(tr.tables[n - 1], tr.events[n - 1], id) then 1 else 0)
  }

  /** One step: a claim spends an attempt, a pause gives it back, nothing else touches the counter. */
  lemma AttemptsStep(cfg: Config, t: Table, e: Event, t': Table, id: JobId)
    requires Inv(cfg, t) && Step(cfg, t, e, t')
    requires id in t.jobs
    ensures id in t'.jobs
    ensures Claimed(t, id, t') ==> e.Claim?
    ensures t'.jobs[id].attempts ==
              t.jobs[id].attempts + (if Claimed(t, id, t') then 1 else 0) - (if PausedBy(t, e, id) then 1 else 0)
  {
    assert RowOk(t.jobs[id]);
  }

  lemma NewRowsHaveTheirAttempts(cfg: Config, t: Table, e: Event, t': Table, id: JobId)
    requires Step(cfg, t, e, t') && id !in t.jobs && id in t'.jobs
    ensures t'.jobs[id].attempts == 0 && !PausedBy(t, e, id)
  {
  }

  /**
   * Conservation: a row's counter is the number of its claims less the number
   * of its pauses, in every reachable table; so no job is claimed more than five
   * times without a pause, and no pending job is out of attempts.
   */
  lemma {:induction false} AttemptsAreConserved(cfg: Config, tr: Trace, id: JobId, n: nat)
    requires IsTrace(cfg, tr) && Inv(cfg, tr.tables[0]) && n <= |tr.events|
    requires id !in tr.tables[0].jobs
    ensures id in tr.tables[n].jobs ==>
      && tr.tables[n].jobs[id].attempts == Claims(tr, id, n) - Pauses(tr, id, n) <= MAX_ATTEMPTS
      && (tr.tables[n].jobs[id].status.Pending? ==> Claims(tr, id, n) - Pauses(tr, id, n) < MAX_ATTEMPTS)
      && (tr.tables[n].jobs[id].status.Running? ==> Claims(tr, id, n) - Pauses(tr, id, n) >= 1)
    ensures id !in tr.tables[n].jobs ==> Claims(tr, id, n) == 0 == Pauses(tr, id, n)
  {
    hide Step, OneActive, Cadence;
    if n > 0 {
      AttemptsAreConserved(cfg, tr, id, n - 1);
      InvAlong(cfg, tr, n - 1);
      InvAlong(cfg, tr, n);
      var t, e, t' := tr.tables[n - 1], tr.events[n - 1], tr.tables[n];
      StepMoves(cfg, t, e, t');
      if id in t.jobs {
        AttemptsStep(cfg, t, e, t', id);
      } else if id in t'.jobs {
        NewRowsHaveTheirAttempts(cfg, t, e, t', id);
      }
      if id in t'.jobs {
        assert RowOk(t'.jobs[id]);
      }
    }
  }

  // ----- Cadence -----

  /** A scheduler row is claimed no sooner than one interval after every earlier terminal row of its project. */
  lemma ClaimsKeepTheInterval(cfg: Config, tr: Trace, i: nat, j: nat, id: JobId, k: JobId)
    requires IsTrace(cfg, tr) && Inv(cfg, tr.tables[0])
    requires j <= i < |tr.events|
    requires Claimed(tr.tables[i], id, tr.tables[i + 1]) && tr.tables[i].jobs[id].scheduled
    requires k in tr.tables[j].jobs && tr.tables[j].jobs[k].Terminal()
    requires tr.tables[j].jobs[k].project == tr.tables[i].jobs[id].project
    ensures tr.tables[j].jobs[k].updatedAt + cfg.intervalSeconds * 1000 <= tr.tables[i].clock
  {
    InvAlong(cfg, tr, i);
    TerminalRowsAreFinal(cfg, tr, j, i, k);
    StepMoves(cfg, tr.tables[i], tr.events[i], tr.tables[i + 1]);
    assert Waited(cfg, tr.tables[i], tr.tables[i].jobs[id], tr.tables[i].jobs[k]);
  }

  // ----- Leases -----

  predicate IsBy(e: Event, w: WorkerId) {
    (e.Claim? || e.Complete? || e.Fail? || e.Reschedule? || e.Block? || e.Heartbeat?) && e.w == w
  }

  /** Only a claim by `w` gives `w` a lease; without one, what `w` does to the row changes nothing. */
  lemma NoLeaseNoEffect(cfg: Config, t: Table, e: Event, t': Table, id: JobId, w: WorkerId)
    requires Step(cfg, t, e, t') && !t.Holds(id, w)
    requires e != Claim(w)
    ensures !t'.Holds(id, w)
    ensures IsBy(e, w) && e.id == id ==> t' == t
  {
  }

  /**
   * A worker whose claim on a row was recovered or blocked never changes that
   * row again in the same iteration, however late its statements arrive.
   */
  lemma {:induction false} LostLeaseIsInert(cfg: Config, tr: Trace, id: JobId, w: WorkerId, n: nat)
    requires IsTrace(cfg, tr) && n <= |tr.events|
    requires !tr.tables[0].Holds(id, w)
    requires forall i :: 0 <= i < |tr.events| ==> tr.events[i] != Claim(w)
    ensures !tr.tables[n].Holds(id, w)
    ensures n < |tr.events| && IsBy(tr.events[n], w) && tr.events[n].id == id ==> tr.tables[n + 1] == tr.tables[n]
  {
    if n > 0 {
      LostLeaseIsInert(cfg, tr, id, w, n - 1);
      NoLeaseNoEffect(cfg, tr.tables[n - 1], tr.events[n - 1], tr.tables[n], id, w);
    }
    if n < |tr.events| {
      NoLeaseNoEffect(cfg, tr.tables[n], tr.events[n], tr.tables[n + 1], id, w);
    }
  }

  /** In every reachable table at most one worker holds a lease on a project. */
  lemma OneLeasePerProject(cfg: Config, tr: Trace, n: nat, a: JobId, v: WorkerId, b: JobId, w: WorkerId)
    requires IsTrace(cfg, tr) && Inv(cfg, tr.tables[0]) && n <= |tr.events|
    requires tr.tables[n].Holds(a, v) && tr.tables[n].Holds(b, w)
    requires tr.tables[n].jobs[a].project == tr.tables[n].jobs[b].project
    ensures a == b && v == w
  {
    InvAlong(cfg, tr, n);
  }

  // ----- Bounded overtaking -----

  /** The pending rows that a claim prefers to `id`. */
  ghost function AheadOf(t: Table, id: JobId): set<JobId>
    requires id in t.jobs
  {
    set k | k in t.jobs && t.Claimable(k) && t.Precedes(k, id)
  }

  /** Row `k` joins the pending rows by this statement, due at `time`. */
  ghost predicate LetsIn(cfg: Config, t: Table, e: Event, k: JobId, time: Time) {
    match e
    case Enqueue(id, p, at) =>
      k == id && id !in t.jobs && !t.HasActive(p) && time == (if at.Some? then at.value else t.clock)
    case Schedule(id, p, now) => k == id && id !in t.jobs && !t.HasActive(p) && ScheduledFor(cfg, t, p, now, time)
    case Fail(id, w, retryAt) =>
      k == id && t.Holds(id, w) && t.jobs[id].attempts < MAX_ATTEMPTS && retryAt == Some(time)
    case Reschedule(id, w, runAfter) => k == id && t.Holds(id, w) && time == runAfter
    case Recover(now) => k in t.jobs && IsStale(cfg, t.jobs[k], now) && t.jobs[k].attempts < MAX_ATTEMPTS && time == now
    case _ => false
  }

  /** Where a row due at `time` stands against `id` in claim order. */
  predicate ComesBefore(t: Table, time: Time, k: JobId, id: JobId)
    requires id in t.jobs
  {
    var created := if k in t.jobs then t.jobs[k].createdAt else t.clock;
    var y := t.jobs[id];
    || time < y.runAfter
    || (time == y.runAfter && created < y.createdAt)
    || (time == y.runAfter && created == y.createdAt && k < id)
  }

  /** The statement lets a row in ahead of `id`. */
  ghost predicate Overtakes(cfg: Config, t: Table, e: Event, id: JobId)
    requires id in t.jobs
  {
    exists k, time :: LetsIn(cfg, t, e, k, time) && ComesBefore(t, time, k, id)
  }

  lemma LetIn(cfg: Config, t: Table, e: Event, t': Table, k: JobId, time: Time)
    requires Inv(cfg, t) && Step(cfg, t, e, t') && LetsIn(cfg, t, e, k, time)
    ensures !t.Claimable(k) && t'.Claimable(k) && t'.jobs[k].runAfter == time
    ensures t'.jobs[k].createdAt == if k in t.jobs then t.jobs[k].createdAt else t.clock
  {
    if k in t.jobs {
      assert RowOk(t.jobs[k]);
    }
    if e.Schedule? {
      var runAfter :| ScheduledFor(cfg, t, e.project, e.now, runAfter)
                   && t' == t.With(k, NewJob(e.project, runAfter, t.clock, true));
      assert runAfter == time;
    }
  }

  /** Nothing else makes a row claimable. */
  lemma OnlyLetIn(cfg: Config, t: Table, e: Event, t': Table, k: JobId)
    requires Inv(cfg, t) && Step(cfg, t, e, t') && !t.Claimable(k) && t'.Claimable(k)
    ensures LetsIn(cfg, t, e, k, t'.jobs[k].runAfter)
  {
    if k in t.jobs {
      assert RowOk(t.jobs[k]);
    }
  }

  lemma NewAhead(cfg: Config, t: Table, e: Event, t': Table, id: JobId, k: JobId)
    requires Inv(cfg, t) && Step(cfg, t, e, t')
    requires t.Claimable(id) && id in t'.jobs && t'.jobs[id] == t.jobs[id]
    requires k in AheadOf(t', id) && k !in AheadOf(t, id)
    ensures Overtakes(cfg, t, e, id)
  {
    hide Step, Inv, LetsIn;
    StepMoves(cfg, t, e, t');
    OnlyLetIn(cfg, t, e, t', k);
    LetIn(cfg, t, e, t', k, t'.jobs[k].runAfter);
    assert ComesBefore(t, t'.jobs[k].runAfter, k, id);
  }

  /**
   * Exactly when a statement lets someone in ahead of a waiting row: if and only
   * if a row joins, and the time it brings, after the interval and the
   * active-row guard, precedes the waiting row in claim order.
   */
  lemma AheadGrowsIff(cfg: Config, t: Table, e: Event, t': Table, id: JobId)
    requires Inv(cfg, t) && Step(cfg, t, e, t')
    requires t.Claimable(id) && id in t'.jobs && t'.jobs[id].status.Pending?
    ensures t'.jobs[id] == t.jobs[id]
    ensures AheadOf(t', id) <= AheadOf(t, id) <==> !Overtakes(cfg, t, e, id)
  {
    hide Step, Inv, LetsIn;
    StepMoves(cfg, t, e, t');
    if k, time :| LetsIn(cfg, t, e, k, time) && ComesBefore(t, time, k, id) {
      LetIn(cfg, t, e, t', k, time);
      assert k in AheadOf(t', id) && k !in AheadOf(t, id);
    } else {
      if k :| k in AheadOf(t', id) && k !in AheadOf(t, id) {
        NewAhead(cfg, t, e, t', id, k);
      }
    }
  }

  /** Every time a caller brings along lies at most `lag` behind the table's clock. */
  predicate Prompt(t: Table, e: Event, lag: nat) {
    match e
    case Enqueue(_, _, at) => at.Some? ==> at.value >= t.clock - lag
    case Schedule(_, _, now) => now >= t.clock - lag
    case Fail(_, _, retryAt) => retryAt.Some? ==> retryAt.value >= t.clock - lag
    case Reschedule(_, _, runAfter) => runAfter >= t.clock - lag
    case Recover(now) => now >= t.clock - lag
    case _ => true
  }

  predicate Overdue(t: Table, id: JobId, lag: nat) {
    t.Claimable(id) && t.jobs[id].runAfter < t.clock - lag
  }

  /** With prompt clocks nobody is let in ahead of an overdue row. */
  lemma PromptNeverOvertakes(cfg: Config, t: Table, e: Event, id: JobId, lag: nat)
    requires Prompt(t, e, lag) && Overdue(t, id, lag)
    ensures !Overtakes(cfg, t, e, id)
  {
    forall k, time | LetsIn(cfg, t, e, k, time) ensures time >= t.clock - lag {
    }
  }

  /** A row that becomes pending joins behind every overdue one. */
  lemma NewcomersQueueUp(cfg: Config, t: Table, e: Event, t': Table, id: JobId, lag: nat)
    requires Inv(cfg, t) && Step(cfg, t, e, t') && Prompt(t, e, lag)
    requires Overdue(t, id, lag) && id in t'.jobs && t'.jobs[id].status.Pending?
    ensures Overdue(t', id, lag)
    ensures AheadOf(t', id) <= AheadOf(t, id)
  {
    hide Step, Inv, Overtakes;
    PromptNeverOvertakes(cfg, t, e, id, lag);
    AheadGrowsIff(cfg, t, e, t', id);
    StepMoves(cfg, t, e, t');
  }

  /** Each claim takes an overdue row or one of those ahead of it. */
  lemma ClaimsShortenTheQueue(cfg: Config, t: Table, w: WorkerId, t': Table, id: JobId)
    requires Inv(cfg, t) && Step(cfg, t, Claim(w), t')
    requires t.Due(id) && id in t'.jobs && t'.jobs[id].status.Pending?
    ensures AheadOf(t', id) < AheadOf(t, id)
  {
    var first := HasFirst(t, (set k | k in t.jobs && t.Due(k)), id);
    assert t.First(first);
    var taken :| t.First(taken) && t' == t.With(taken, ClaimedRow(t, taken, w));
    assert taken != id;
    assert taken in AheadOf(t, id) && taken !in AheadOf(t', id);
    forall k | k in AheadOf(t', id) ensures k in AheadOf(t, id) {
      assert k != taken;
    }
  }

  function ClaimsMade(events: seq<Event>): nat {
    if events == [] then 0
    else ClaimsMade(events[..|events| - 1]) + (if events[|events| - 1].Claim? then 1 else 0)
  }

  /** How many rows were let in ahead of `id`, step by step. */
  ghost function Arrivals(tr: Trace, id: JobId, n: nat): nat
    requires n < |tr.tables| && forall t :: t in tr.tables ==> id in t.jobs
  {
    if n == 0 then 0
    else Arrivals(tr, id, n - 1) + |AheadOf(tr.tables[n], id) - AheadOf(tr.tables[n - 1], id)|
  }

  lemma SubsetSize(a: set<JobId>, b: set<JobId>)
    requires a <= b
    ensures |a| <= |b|
    ensures a < b ==> |a| < |b|
  {
    assert b == a + (b - a);
    if a < b {
      assert b - a != {};
    }
  }

  lemma SizeAfter(before: set<JobId>, after: set<JobId>)
    ensures |after| <= |before| + |after - before|
    ensures after < before ==> |after| < |before| + |after - before|
  {
    assert after == (after * before) + (after - before);
    SubsetSize(after * before, before);
    if after < before {
      SubsetSize(after, before);
    }
  }

  lemma StaysDue(cfg: Config, t: Table, e: Event, t': Table, id: JobId)
    requires Inv(cfg, t) && Step(cfg, t, e, t') && t.Due(id) && id in t'.jobs && t'.jobs[id].status.Pending?
    ensures t'.Due(id) && t'.jobs[id] == t.jobs[id]
  {
    StepMoves(cfg, t, e, t');
  }

  /**
   * The account of a waiting row: while it is due and pending, the claims made
   * are covered by the rows that were ahead of it and those let in since.
   */
  lemma {:induction false} ClaimsAreAccounted(cfg: Config, tr: Trace, id: JobId, n: nat)
    requires IsTrace(cfg, tr) && Inv(cfg, tr.tables[0]) && n <= |tr.events|
    requires forall t :: t in tr.tables ==> id in t.jobs && t.jobs[id].status.Pending?
    requires tr.tables[0].Due(id)
    ensures tr.tables[n].Due(id)
    ensures |AheadOf(tr.tables[n], id)| + ClaimsMade(tr.events[..n])
         <= |AheadOf(tr.tables[0], id)| + Arrivals(tr, id, n)
  {
    hide Step, Inv, AheadOf;
    if n > 0 {
      ClaimsAreAccounted(cfg, tr, id, n - 1);
      InvAlong(cfg, tr, n - 1);
      var t, e, t' := tr.tables[n - 1], tr.events[n - 1], tr.tables[n];
      assert t in tr.tables && t' in tr.tables;
      StaysDue(cfg, t, e, t', id);
      SizeAfter(AheadOf(t, id), AheadOf(t', id));
      if e.Claim? {
        ClaimsShortenTheQueue(cfg, t, e.w, t', id);
      }
      assert tr.events[..n][..n - 1] == tr.events[..n - 1];
    }
  }

  lemma StillPending(cfg: Config, tr: Trace, id: JobId)
    requires IsTrace(cfg, tr) && id in tr.tables[0].jobs
    ensures forall t :: t in tr.tables ==> id in t.jobs
  {
    forall i | 0 <= i < |tr.tables| ensures id in tr.tables[i].jobs {
      TerminalRowsAreFinal(cfg, tr, 0, i, id);
    }
  }

  /**
   * Overtaking, in any history: a due job leaves the queue, by being claimed or
   * by being blocked, within one claim more than there were rows ahead of it or
   * were let in ahead of it.
   */
  lemma OvertakingIsCounted(cfg: Config, tr: Trace, id: JobId)
    requires IsTrace(cfg, tr) && Inv(cfg, tr.tables[0]) && tr.tables[0].Due(id)
    requires forall t :: t in tr.tables ==> id in t.jobs
    ensures ClaimsMade(tr.events) > |AheadOf(tr.tables[0], id)| + Arrivals(tr, id, |tr.events|) ==>
              exists i :: 0 <= i < |tr.tables| && !tr.tables[i].jobs[id].status.Pending?
  {
    assert tr.events[..|tr.events|] == tr.events;
    if forall i :: 0 <= i < |tr.tables| ==> tr.tables[i].jobs[id].status.Pending? {
      ClaimsAreAccounted(cfg, tr, id, |tr.events|);
    }
  }

  /** While the row waits and all clocks are prompt, nobody is let in. */
  lemma {:induction false} NobodyArrives(cfg: Config, tr: Trace, id: JobId, lag: nat, n: nat)
    requires IsTrace(cfg, tr) && Inv(cfg, tr.tables[0]) && Overdue(tr.tables[0], id, lag) && n <= |tr.events|
    requires forall i :: 0 <= i < |tr.events| ==> Prompt(tr.tables[i], tr.events[i], lag)
    requires forall t :: t in tr.tables ==> id in t.jobs && t.jobs[id].status.Pending?
    ensures Overdue(tr.tables[n], id, lag) && Arrivals(tr, id, n) == 0
  {
    hide Step, Inv, AheadOf, Prompt;
    if n > 0 {
      NobodyArrives(cfg, tr, id, lag, n - 1);
      InvAlong(cfg, tr, n - 1);
      var t, e, t' := tr.tables[n - 1], tr.events[n - 1], tr.tables[n];
      assert t in tr.tables && t' in tr.tables;
      NewcomersQueueUp(cfg, t, e, t', id, lag);
      assert AheadOf(t', id) - AheadOf(t, id) == {};
    }
  }

  /**
   * Bounded overtaking: once a job is overdue by more than the callers' lag, one
   * claim more than there are rows ahead of it is enough for it to leave the
   * queue, by being claimed or by being blocked.
   */
  lemma BoundedOvertaking(cfg: Config, tr: Trace, id: JobId, lag: nat)
    requires IsTrace(cfg, tr) && Inv(cfg, tr.tables[0]) && Overdue(tr.tables[0], id, lag)
    requires forall i :: 0 <= i < |tr.events| ==> Prompt(tr.tables[i], tr.events[i], lag)
    requires ClaimsMade(tr.events) > |AheadOf(tr.tables[0], id)|
    ensures exists i :: 0 <= i < |tr.tables| && id in tr.tables[i].jobs && !tr.tables[i].jobs[id].status.Pending?
  {
    StillPending(cfg, tr, id);
    if forall i :: 0 <= i < |tr.tables| ==> tr.tables[i].jobs[id].status.Pending? {
      NobodyArrives(cfg, tr, id, lag, |tr.events|);
      OvertakingIsCounted(cfg, tr, id);
    }
  }

  /** A late scheduler, from an empty table. */
  lemma LateTrace(cfg: Config, p: Project, q: Project, w: WorkerId) returns (tr: Trace)
    requires p != q
    ensures |tr.tables| == 5 && IsTrace(cfg, tr) && tr.tables[0] == Table(map[], 10)
    ensures tr.events == [Schedule(0, p, 10), Tick(10), Schedule(1, q, 5), Claim(w)]
    ensures tr.tables[2] == Table(map[0 := NewJob(p, 10, 10, true)], 20)
    ensures 0 in tr.tables[4].jobs && tr.tables[4].jobs[0] == tr.tables[2].jobs[0]
  {
    var t0 := Table(map[], 10);
    var t1 := t0.With(0, NewJob(p, 10, 10, true));
    var t2 := t1.(clock := 20);
    var t3 := t2.With(1, NewJob(q, 5, 20, true));
    var t4 := t3.With(1, ClaimedRow(t3, 1, w));
    tr := Trace([t0, t1, t2, t3, t4], [Schedule(0, p, 10), Tick(10), Schedule(1, q, 5), Claim(w)]);
    assert Step(cfg, t0, tr.events[0], t1) by {
      assert TerminalStamps(t0, p) == {} && ScheduledFor(cfg, t0, p, 10, 10);
    }
    assert Step(cfg, t2, tr.events[2], t3) by {
      assert TerminalStamps(t2, q) == {} && ScheduledFor(cfg, t2, q, 5, 5);
    }
    assert Step(cfg, t3, tr.events[3], t4) by {
      assert t3.First(1);
    }
  }

  /**
   * Without promptness it is false: from an empty table, a scheduler that read
   * its clock too early lets its row in ahead of an overdue one that had nobody
   * ahead, and the next claim takes the newcomer.
   */
  lemma LateSchedulerOvertakes(cfg: Config, p: Project, q: Project, w: WorkerId) returns (tr: Trace)
    requires p != q
    ensures IsTrace(cfg, tr) && tr.tables[0] == Table(map[], 10) && |tr.events| == 4
    ensures Overdue(tr.tables[2], 0, 0) && AheadOf(tr.tables[2], 0) == {}
    ensures ClaimsMade(tr.events[2..]) == 1
    ensures 0 in tr.tables[4].jobs && tr.tables[4].jobs[0].status.Pending?
            && tr.tables[4].jobs[0] == tr.tables[2].jobs[0]
    ensures !Prompt(tr.tables[2], tr.events[2], 0)
  {
    hide IsTrace;
    tr := LateTrace(cfg, p, q, w);
    var late := tr.events[2..];
    assert late[..1] == [Schedule(1, q, 5)] && late[..1][..0] == [];
    assert ClaimsMade(late) == ClaimsMade(late[..1]) + 1;
  }
}
