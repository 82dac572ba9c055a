/** One iteration of the worker loop (apps/worker/src/worker-loop.ts), with everyone else acting in between. */
module Worker {
  import opened Base
  import opened JobTable
  import opened JobHistory
  import opened JobQueues

  const INITIAL_RETRY_DELAY_MS := 30_000
  const MAX_RETRY_DELAY_MS := 900_000

  function RetryDelayMs(attempt: nat): nat
    requires attempt > 0
  {
    Min(MAX_RETRY_DELAY_MS, INITIAL_RETRY_DELAY_MS * PowerOfTwo(attempt - 1))
  }

  /** Delays start at 30 s and double; the cap binds exactly from the sixth attempt on, which a job never retries. */
  lemma {:induction false} RetryDelaysGrow(attempt: nat)
    requires attempt > 0
    ensures RetryDelayMs(1) == 30_000 && RetryDelayMs(attempt + 1) == Min(900_000, 2 * RetryDelayMs(attempt))
    ensures RetryDelayMs(attempt) <= RetryDelayMs(attempt + 1)
    ensures INITIAL_RETRY_DELAY_MS <= RetryDelayMs(attempt) <= MAX_RETRY_DELAY_MS
    ensures RetryDelayMs(attempt) == MAX_RETRY_DELAY_MS <==> attempt > MAX_ATTEMPTS
    ensures attempt > MAX_ATTEMPTS ==> PowerOfTwo(attempt - 1) >= 32
    ensures attempt <= MAX_ATTEMPTS ==> PowerOfTwo(attempt - 1) <= 16
  {
    if attempt == 1 {
      assert PowerOfTwo(0) == 1;
    } else {
      RetryDelaysGrow(attempt - 1);
      if attempt == 6 {
        assert PowerOfTwo(5) == 2 * 2 * 2 * PowerOfTwo(2);
      } else if attempt <= 5 {
        assert PowerOfTwo(4) == 2 * 2 * 2 * PowerOfTwo(1);
      }
    }
  }

  datatype IterationResult =
    | Idle
    | Completed(jobId: JobId)
    | Paused(jobId: JobId)
    | Blocked(jobId: JobId)
    | LostClaim(jobId: JobId)
    | RetryScheduled(jobId: JobId, retryAt: Time)
    | Failed(jobId: JobId)
    | Crashed

  /** How the sync of a claimed job ends. */
  datatype Ran = Synced | OutOfBudget | NoCandidate | Threw

  /** The row a result was reported for has made exactly that transition. */
  ghost predicate RowMatches(t: Table, r: IterationResult, started: Time) {
    match r
    case Idle => forall id :: id in t.jobs ==> !t.Due(id)
    case Completed(id) => id in t.jobs && t.jobs[id].status.Completed?
    case Blocked(id) => id in t.jobs && t.jobs[id].status.SyncBlocked?
    case Paused(id) => id in t.jobs && t.Claimable(id) && t.jobs[id].runAfter <= t.clock
    case RetryScheduled(id, retryAt) =>
      && id in t.jobs && t.Claimable(id) && t.jobs[id].attempts > 0
      && t.jobs[id].runAfter == retryAt
      && started + RetryDelayMs(t.jobs[id].attempts) <= retryAt <= t.clock + RetryDelayMs(t.jobs[id].attempts)
    case Failed(id) => id in t.jobs && t.jobs[id].status.Failed? && t.jobs[id].attempts == MAX_ATTEMPTS
    case LostClaim(_) => true
    case Crashed => true
  }

  /** The statement a result reports. */
  predicate Reports(r: IterationResult, v: Verdict) {
    match r
    case Completed(_) => v.Complete?
    case Blocked(_) => v.Block?
    case Paused(_) => v.Pause?
    case RetryScheduled(_, retryAt) => v == Verdict.Fail(Some(retryAt))
    case Failed(_) => v == Verdict.Fail(None)
    case _ => false
  }

  predicate Concludes(r: IterationResult) {
    r.Completed? || r.Blocked? || r.Paused? || r.RetryScheduled? || r.Failed?
  }

  /** The last statement of all was this worker's verdict on a row it still held. */
  ghost predicate LastStatement(tr: Trace, w: WorkerId, id: JobId, v: Verdict) {
    && |tr.tables| == |tr.events| + 1 && tr.events != []
    && tr.events[|tr.events| - 1] == EventOf(id, w, v)
    && tr.tables[|tr.events| - 1].Holds(id, w)
  }

  ghost predicate LastWord(tr: Trace, w: WorkerId, r: IterationResult)
    requires Concludes(r)
  {
    exists v :: Reports(r, v) && LastStatement(tr, w, r.jobId, v)
  }

  /** Statement `i` is this worker's claim of row `id`. */
  ghost predicate ClaimedAt(tr: Trace, i: nat, w: WorkerId, id: JobId)
    requires |tr.tables| == |tr.events| + 1
  {
    i < |tr.events| && tr.events[i] == Event.Claim(w) && Claimed(tr.tables[i], id, tr.tables[i + 1])
      && tr.tables[i + 1].Holds(id, w)
  }

  /** Since then this worker itself sent heartbeats at most. */
  ghost predicate OnlyBeats(tr: Trace, since: nat, upTo: nat, w: WorkerId) {
    forall j :: since <= j < upTo && j < |tr.events| ==> !IsBy(tr.events[j], w) || tr.events[j].Heartbeat?
  }

  /** Someone took the row from this worker, before it made any statement about it itself. */
  ghost predicate TakenAway(tr: Trace, since: nat, w: WorkerId, id: JobId) {
    exists i :: since <= i < |tr.tables| && !tr.tables[i].Holds(id, w) && OnlyBeats(tr, since, i, w)
  }

  /** What an iteration reports is about the one row it claimed, and follows from how the sync ended. */
  ghost predicate AboutItsClaim(before: Trace, tr: Trace, w: WorkerId, r: IterationResult, mayFail: bool)
    requires |tr.tables| == |tr.events| + 1
  {
    match r
    case Idle =>
      && |before.events| < |tr.events| && tr.events[|tr.events| - 1] == Event.Claim(w)
      && tr.tables[|tr.events|] == tr.tables[|tr.events| - 1]
    case Crashed => true
    case _ =>
      && (exists i ::
            && |before.events| <= i && ClaimedAt(tr, i, w, r.jobId)
            && (r.LostClaim? ==> mayFail || TakenAway(tr, i + 1, w, r.jobId)))
      && (Concludes(r) ==> LastWord(tr, w, r))
  }

  /** Which results may follow on how the sync ended; without failing calls, no others than these and a lost claim. */
  predicate Follows(r: IterationResult, ends: Ran, mayFail: bool) {
    match r
    case Idle => true
    case LostClaim(_) => true
    case Completed(_) => ends.Synced?
    case Paused(_) => ends.OutOfBudget?
    case Blocked(_) => ends.NoCandidate?
    case RetryScheduled(_, _) => ends.Threw? || mayFail
    case Failed(_) => ends.Threw? || mayFail
    case Crashed => mayFail
  }

  /** Since `from`, stale claims were recovered, and then every target was scheduled, both with this time. */
  ghost predicate Prepared(tr: Trace, from: nat, now: Time, rows: seq<EnableRow>, allowlisted: set<Project>) {
    exists i: nat, targets, own ::
      from <= i && PreparedAt(tr, i, targets, own, now) && AreTargets(targets, rows, allowlisted)
  }

  ghost predicate PreparedAt(tr: Trace, i: nat, targets: seq<Project>, own: seq<nat>, now: Time) {
    i < |tr.events| && tr.events[i] == Recover(now) && Handled(tr, i + 1, targets, now, own)
  }

  ghost predicate AreTargets(targets: seq<Project>, rows: seq<EnableRow>, allowlisted: set<Project>) {
    forall p :: p in targets <==> p in PostgresJobQueue.Targets(rows, allowlisted)
  }

  lemma StaysPrepared(tr: Trace, longer: Trace, from: nat, now: Time, rows: seq<EnableRow>, allowlisted: set<Project>)
    requires Prepared(tr, from, now, rows, allowlisted) && Continues(tr, longer)
    requires |longer.tables| == |longer.events| + 1
    ensures Prepared(longer, from, now, rows, allowlisted)
  {
    var i: nat, targets, own :|
      from <= i && PreparedAt(tr, i, targets, own, now) && AreTargets(targets, rows, allowlisted);
    HandledStays(tr, longer, i + 1, targets, now, own);
    assert PreparedAt(longer, i, targets, own, now);
  }

  class RunWorkerIteration {
    const queue: PostgresJobQueue
    const workerId: WorkerId
    var leaseLost: bool
    /** A heartbeat failed with an error: the lease is given up unseen. */
    ghost var beatThrew: bool

    constructor (queue: PostgresJobQueue, workerId: WorkerId)
      ensures this.queue == queue && this.workerId == workerId && !leaseLost && !beatThrew
    {
      this.queue, this.workerId := queue, workerId;
      leaseLost, beatThrew := false, false;
    }

    /**
     * The claimed row is as it was claimed, or this worker no longer holds it;
     * since then it has itself sent heartbeats at most.
     */
    ghost predicate Leased(id: JobId, job: Job, since: nat)
      reads this, queue
    {
      && Inv(queue.cfg, queue.table) && queue.Recorded()
      && id in queue.table.jobs
      && (queue.table.Holds(id, workerId) ==> SameLease(job, queue.table.jobs[id]))
      && (leaseLost && !beatThrew ==> !queue.table.Holds(id, workerId)) && (beatThrew ==> leaseLost)
      && since <= |queue.past.events| && OnlyBeats(queue.past, since, |queue.past.events|, workerId)
    }

    /** One beat: the row is still held, or the lease is lost; an error counts as lost, too. */
    method Beat(id: JobId, mayFail: bool, ghost job: Job, ghost since: nat)
      requires Leased(id, job, since)
      modifies this, queue
      ensures Leased(id, job, since) && (beatThrew ==> old(beatThrew) || mayFail)
      ensures Rely(workerId, old(queue.table), queue.table) && Continues(old(queue.past), queue.past)
      ensures leaseLost <==>
        old(leaseLost) || !queue.table.Holds(id, workerId) || (beatThrew && !old(beatThrew))
    {
      hide Inv, IsTrace;
      var throws: bool := *;
      if mayFail && throws {
        leaseLost, beatThrew := true, true;
        return;
      }
      var beat: Time := *;
      ghost var past := queue.past;
      TraceLength(queue.cfg, queue.past);
      var owned := queue.Heartbeat(id, workerId, beat);
      BeatAdded(past, queue.past, since, workerId, Event.Heartbeat(id, workerId, beat), queue.table);
      OthersCanBeReliedOn(queue.cfg, old(queue.table), Event.Heartbeat(id, workerId, beat), queue.table, workerId);
      StepKeepsInv(queue.cfg, old(queue.table), Event.Heartbeat(id, workerId, beat), queue.table);
      BeatKeepsLease(queue.cfg, old(queue.table), id, workerId, beat, queue.table);
      var unseen: bool := *;
      if mayFail && unseen {
        beatThrew := true;
      }
      if (mayFail && unseen) || !owned {
        leaseLost := true;
      }
    }

    /** Others act, and heartbeats go out and come back. */
    method Meanwhile(id: JobId, mayFail: bool, ghost job: Job, ghost since: nat)
      requires Leased(id, job, since)
      modifies this, queue
      ensures Leased(id, job, since) && (beatThrew ==> old(beatThrew) || mayFail)
      ensures Rely(workerId, old(queue.table), queue.table) && Continues(old(queue.past), queue.past)
    {
      hide Inv, IsTrace, SameLease, Rely, Leased;
      RelyJoins(workerId, queue.table, queue.table, queue.table);
      var beats: int := *;
      for k := 0 to Max(beats, 0)
        invariant Leased(id, job, since) && (beatThrew ==> old(beatThrew) || mayFail)
        invariant Rely(workerId, old(queue.table), queue.table) && Continues(old(queue.past), queue.past)
      {
        ghost var before := queue.table;
        WaitLeased(id, job, since);
        RelyJoins(workerId, old(queue.table), before, queue.table);
        before := queue.table;
        Beat(id, mayFail, job, since);
        RelyJoins(workerId, old(queue.table), before, queue.table);
      }
      ghost var last := queue.table;
      WaitLeased(id, job, since);
      RelyJoins(workerId, old(queue.table), last, queue.table);
    }

    /** Others act; the row stays as it was claimed as long as this worker holds it. */
    method WaitLeased(id: JobId, ghost job: Job, ghost since: nat)
      requires Leased(id, job, since)
      modifies queue
      ensures Leased(id, job, since) && Rely(workerId, old(queue.table), queue.table)
      ensures Continues(old(queue.past), queue.past)
    {
      hide Inv, IsTrace, Step, IsBy;
      queue.OthersAct(workerId);
    }

    /**
     * A statement that ends the claim. It may throw, before or after it took
     * effect, and heartbeats may come back while it is under way: `found` is the
     * table it finds. If it finds the row taken, someone else took it.
     */
    method Conclude(id: JobId, v: Verdict, mayFail: bool, ghost job: Job, ghost since: nat)
      returns (changed: Option<bool>, ghost found: Table, ghost since': nat)
      requires Leased(id, job, since)
      modifies this, queue
      ensures Leased(id, job, since') && Continues(old(queue.past), queue.past)
      ensures (beatThrew ==> old(beatThrew) || mayFail) && (changed.None? ==> mayFail)
      ensures Rely(workerId, old(queue.table), found) && found.clock <= queue.table.clock
      ensures changed.Some? ==>
        && changed.value == found.Holds(id, workerId)
        && !queue.table.Holds(id, workerId)
        && Step(queue.cfg, found, EventOf(id, workerId, v), queue.table)
        && (changed.value ==>
              RowOk(found.jobs[id]) && SameLease(job, found.jobs[id]) && LastStatement(queue.past, workerId, id, v))
        && (!changed.value ==> TakenAway(queue.past, since, workerId, id))
    {
      hide Inv, IsTrace, Step, OnlyBeats, TakenAway, RowOk, SameLease, EventOf, LastStatement;
      Meanwhile(id, mayFail, job, since);
      found, since' := queue.table, since;
      var throwsBefore: bool := *;
      if mayFail && throwsBefore {
        return None, found, since';
      }
      var done := MakeStatement(id, v, job, since);
      since' := |queue.past.events|;
      var throwsAfter: bool := *;
      if mayFail && throwsAfter {
        Meanwhile(id, mayFail, job, since');
        return None, found, since';
      }
      changed := Some(done);
    }

    /** The statement itself; from then on the worker holds the row no more. */
    method MakeStatement(id: JobId, v: Verdict, ghost job: Job, ghost since: nat) returns (changed: bool)
      requires Leased(id, job, since)
      modifies queue
      ensures Leased(id, job, |queue.past.events|) && Continues(old(queue.past), queue.past)
      ensures Step(queue.cfg, old(queue.table), EventOf(id, workerId, v), queue.table)
      ensures changed == old(queue.table).Holds(id, workerId) && !queue.table.Holds(id, workerId)
      ensures old(queue.table).clock == queue.table.clock
      ensures changed ==>
        && id in old(queue.table).jobs && RowOk(old(queue.table).jobs[id]) && SameLease(job, old(queue.table).jobs[id])
        && LastStatement(queue.past, workerId, id, v)
      ensures !changed ==> TakenAway(queue.past, since, workerId, id)
    {
      hide Inv, IsTrace, Step;
      TraceLength(queue.cfg, queue.past);
      ghost var past, found := queue.past, queue.table;
      if found.Holds(id, workerId) {
        RowIsOk(queue.cfg, found, id);
      }
      changed := queue.Finish(id, workerId, v);
      TraceLength(queue.cfg, queue.past);
      StepKeepsInv(queue.cfg, found, EventOf(id, workerId, v), queue.table);
      FinishEnds(queue.cfg, found, id, workerId, v, queue.table);
      FoundTaken(past, queue.past, since, workerId, id, found);
    }

    /** A job whose run threw: retried after a growing delay, or failed for good after the fifth attempt. */
    method GiveBack(id: JobId, job: Job, started: Time, mayFail: bool, ghost since: nat) returns (r: IterationResult)
      requires Leased(id, job, since) && 1 <= job.attempts <= MAX_ATTEMPTS
      requires started <= queue.table.clock
      modifies this, queue
      ensures Inv(queue.cfg, queue.table) && queue.Recorded() && Continues(old(queue.past), queue.past)
      ensures RowMatches(queue.table, r, started) && (beatThrew ==> old(beatThrew) || mayFail)
      ensures r.Failed? || r.RetryScheduled? || r.LostClaim? || r.Crashed?
      ensures old(leaseLost) ==> r == LostClaim(id) && queue.past == old(queue.past) && queue.table == old(queue.table)
      ensures (r.Crashed? ==> mayFail) && (!r.Crashed? ==> r.jobId == id)
      ensures Concludes(r) ==> LastWord(queue.past, workerId, r)
      ensures r.LostClaim? && !beatThrew ==>
        !queue.table.Holds(id, workerId) && TakenAway(queue.past, since, workerId, id)
    {
      hide Inv, IsTrace, Step, RowMatches, RetryDelayMs, LastStatement, RowOk, EventOf;
      LostMatches(id, queue.table, started);
      if leaseLost {
        TakenNow(id, job, since);
        return LostClaim(id);
      }
      if job.attempts >= MAX_ATTEMPTS {
        var changed;
        ghost var found, since';
        changed, found, since' := Conclude(id, Verdict.Fail(None), mayFail, job, since);
        LostMatches(id, queue.table, started);
        if changed.None? {
          return Crashed;
        }
        if changed.value {
          VerdictShows(queue.cfg, found, id, workerId, Verdict.Fail(None), queue.table, started);
        }
        assert Reports(IterationResult.Failed(id), Verdict.Fail(None));
        return if changed.value then IterationResult.Failed(id) else LostClaim(id);
      }
      var retryAt := queue.table.clock + RetryDelayMs(job.attempts);
      var changed;
      ghost var found, since';
      changed, found, since' := Conclude(id, Verdict.Fail(Some(retryAt)), mayFail, job, since);
      LostMatches(id, queue.table, started);
      if changed.None? {
        return Crashed;
      }
      if changed.value {
        VerdictShows(queue.cfg, found, id, workerId, Verdict.Fail(Some(retryAt)), queue.table, started);
      }
      assert Reports(RetryScheduled(id, retryAt), Verdict.Fail(Some(retryAt)));
      return if changed.value then RetryScheduled(id, retryAt) else LostClaim(id);
    }

    lemma TakenNow(id: JobId, job: Job, since: nat)
      requires Leased(id, job, since)
      ensures leaseLost && !beatThrew ==> TakenAway(queue.past, since, workerId, id)
    {
      assert queue.past.tables[|queue.past.events|] == queue.table;
    }

    /**
     * Recover, schedule, claim, run, report. `ends` is how the sync of the
     * claimed job ends; `mayFail` allows any call to fail. Whatever other
     * workers, schedulers and administrators do in between, the reported row is
     * the one claimed in this iteration, and the result is the transition that
     * this worker's last statement, the last of all, has made, the one that `ends`
     * asks for. Without failing calls a claim is lost only to someone else.
     */
    method Run(rows: seq<EnableRow>, allowlisted: set<Project>, ends: Ran, mayFail: bool) returns (r: IterationResult)
      requires Inv(queue.cfg, queue.table) && queue.Recorded() && !leaseLost && !beatThrew
      modifies this, queue
      ensures Inv(queue.cfg, queue.table) && queue.Recorded() && Continues(old(queue.past), queue.past)
      ensures RowMatches(queue.table, r, old(queue.table.clock)) && Follows(r, ends, mayFail)
      ensures AboutItsClaim(old(queue.past), queue.past, workerId, r, mayFail)
      ensures r.Crashed? || Prepared(queue.past, |old(queue.past).events|, old(queue.table).clock, rows, allowlisted)
      ensures beatThrew ==> mayFail
      ensures r.LostClaim? && !beatThrew ==> !queue.table.Holds(r.jobId, workerId)
    {
      hide IsTrace, Inv, TakenAway, Step, OnlyBeats, Leased, LastStatement, SameLease, Prepared;
      ghost var from := |queue.past.events|;
      var iterationNow := queue.table.clock;
      var prepared := Prepare(iterationNow, rows, allowlisted, mayFail);
      var fails: bool := *;
      if !prepared || (mayFail && fails) {
        return Crashed;
      }
      ghost var early := queue.past;
      var claimed;
      ghost var at;
      claimed, at := ClaimNext();
      var unseen: bool := *;
      if mayFail && unseen {
        return Crashed;
      }
      StaysPrepared(early, queue.past, from, iterationNow, rows, allowlisted);
      if claimed.None? {
        return Idle;
      }
      var id := claimed.value;
      var job := queue.table.jobs[id];
      ghost var past := queue.past;
      r := Work(id, job, iterationNow, ends, mayFail, at + 1);
      TraceLength(queue.cfg, queue.past);
      StaysPrepared(past, queue.past, from, iterationNow, rows, allowlisted);
      ClaimStays(past, queue.past, at, workerId, id);
    }

    /** The claim, which is statement `at`. */
    method ClaimNext() returns (claimed: Option<JobId>, ghost at: nat)
      requires Inv(queue.cfg, queue.table) && queue.Recorded() && !leaseLost && !beatThrew
      modifies queue
      ensures Inv(queue.cfg, queue.table) && queue.Recorded() && Continues(old(queue.past), queue.past)
      ensures at == |old(queue.past).events| == |queue.past.events| - 1
      ensures |queue.past.tables| == |queue.past.events| + 1
      ensures old(queue.table).clock == queue.table.clock
      ensures claimed.None? ==>
        && RowMatches(queue.table, Idle, 0) && queue.past.events[at] == Event.Claim(workerId)
        && queue.past.tables[at + 1] == queue.past.tables[at]
      ensures claimed.Some? ==>
        && claimed.value in queue.table.jobs && Leased(claimed.value, queue.table.jobs[claimed.value], at + 1)
        && 1 <= queue.table.jobs[claimed.value].attempts <= MAX_ATTEMPTS
        && ClaimedAt(queue.past, at, workerId, claimed.value)
    {
      hide IsTrace, Inv;
      ghost var before := queue.table;
      at := |queue.past.events|;
      TraceLength(queue.cfg, queue.past);
      claimed := queue.Claim(workerId);
      TraceLength(queue.cfg, queue.past);
      StepKeepsInv(queue.cfg, before, Event.Claim(workerId), queue.table);
      if claimed.Some? {
        ClaimIsHeld(queue.cfg, before, claimed.value, workerId, queue.table);
      }
    }

    /** Stale claims are recovered and targets scheduled, at the time the iteration began; either may fail. */
    method Prepare(iterationNow: Time, rows: seq<EnableRow>, allowlisted: set<Project>, mayFail: bool)
      returns (ok: bool)
      requires Inv(queue.cfg, queue.table) && queue.Recorded()
      modifies queue
      ensures Inv(queue.cfg, queue.table) && queue.Recorded() && Continues(old(queue.past), queue.past)
      ensures old(queue.table).clock <= queue.table.clock
      ensures if ok then Prepared(queue.past, |old(queue.past).events|, iterationNow, rows, allowlisted) else mayFail
    {
      hide IsTrace, Inv, Handled;
      queue.OthersAct(workerId);
      var fails: bool := *;
      if mayFail && fails {
        return false;
      }
      ghost var before, at := queue.table, |queue.past.events|;
      var recovered := queue.RecoverStaleClaims(iterationNow);
      StepKeepsInv(queue.cfg, before, Recover(iterationNow), queue.table);
      StepMoves(queue.cfg, before, Recover(iterationNow), queue.table);
      var unseen: bool := *;
      if mayFail && unseen {
        return false;
      }
      var scheduled;
      ghost var targets, own;
      scheduled, targets, own := queue.Schedule(workerId, rows, allowlisted, iterationNow, mayFail);
      ok := scheduled.Some?;
      ghost var past := queue.past;
      if ok {
        assert targets[..|own|] == targets;
        assert PreparedAt(past, at, targets, own, iterationNow);
        assert Prepared(past, |old(queue.past).events|, iterationNow, rows, allowlisted);
      }
      queue.OthersAct(workerId);
      TraceLength(queue.cfg, queue.past);
      if ok {
        StaysPrepared(past, queue.past, |old(queue.past).events|, iterationNow, rows, allowlisted);
      }
    }

    /** The sync of the claimed job, and the statement that its end asks for; a failing one is like a failing sync. */
    method Work(id: JobId, job: Job, started: Time, ends: Ran, mayFail: bool, ghost since: nat)
      returns (r: IterationResult)
      requires Leased(id, job, since) && !leaseLost && !beatThrew
      requires 1 <= job.attempts <= MAX_ATTEMPTS && started <= queue.table.clock
      modifies this, queue
      ensures Inv(queue.cfg, queue.table) && queue.Recorded() && Continues(old(queue.past), queue.past)
      ensures RowMatches(queue.table, r, started) && Follows(r, ends, mayFail) && (beatThrew ==> mayFail)
      ensures !r.Idle? && (!r.Crashed? ==> r.jobId == id)
      ensures Concludes(r) ==> LastWord(queue.past, workerId, r)
      ensures r.LostClaim? && !beatThrew ==> !queue.table.Holds(r.jobId, workerId)
      ensures r.LostClaim? ==> mayFail || TakenAway(queue.past, since, workerId, id)
    {
      hide Inv, IsTrace, LastStatement, RowMatches, TakenAway, Follows, Leased;
      Meanwhile(id, mayFail, job, since);
      r := Answer(id, job, started, ends, mayFail, since);
    }

    /**
     * The statement that the end of the sync asks for; a failing one is like a
     * failing sync. With the lease lost no statement is made.
     */
    method Answer(id: JobId, job: Job, started: Time, ends: Ran, mayFail: bool, ghost since: nat)
      returns (r: IterationResult)
      requires Leased(id, job, since)
      requires 1 <= job.attempts <= MAX_ATTEMPTS && started <= queue.table.clock
      modifies this, queue
      ensures Inv(queue.cfg, queue.table) && queue.Recorded() && Continues(old(queue.past), queue.past)
      ensures RowMatches(queue.table, r, started) && Follows(r, ends, mayFail)
      ensures beatThrew ==> old(beatThrew) || mayFail
      ensures old(leaseLost) ==> r == LostClaim(id) && queue.past == old(queue.past) && queue.table == old(queue.table)
      ensures !r.Idle? && (!r.Crashed? ==> r.jobId == id)
      ensures Concludes(r) ==> LastWord(queue.past, workerId, r)
      ensures r.LostClaim? && !beatThrew ==> !queue.table.Holds(r.jobId, workerId)
      ensures r.LostClaim? ==> mayFail || old(beatThrew) || TakenAway(queue.past, since, workerId, id)
    {
      hide Inv, IsTrace, LastStatement, Step, RowMatches, RowOk, EventOf, TakenAway;
      ghost var since' := since;
      if !ends.Threw? {
        LostMatches(id, queue.table, started);
        if leaseLost {
          TakenNow(id, job, since);
          return LostClaim(id);
        }
        var v := match ends
          case NoCandidate => Verdict.Block
          case OutOfBudget => Verdict.Pause(queue.table.clock)
          case _ => Verdict.Complete;
        var changed;
        ghost var found;
        changed, found, since' := Conclude(id, v, mayFail, job, since);
        if changed.Some? {
          LostMatches(id, queue.table, started);
          if !changed.value {
            return LostClaim(id);
          }
          VerdictShows(queue.cfg, found, id, workerId, v, queue.table, started);
          r := match ends
            case NoCandidate => Blocked(id)
            case OutOfBudget => Paused(id)
            case _ => IterationResult.Completed(id);
          assert Reports(r, v);
          return;
        }
        WaitLeased(id, job, since');
      }
      r := GiveBack(id, job, started, mayFail, since');
    }
  }

  /** A heartbeat changes no lease. */
  lemma BeatKeepsLease(cfg: Config, t: Table, id: JobId, w: WorkerId, beat: Time, t': Table)
    requires Step(cfg, t, Event.Heartbeat(id, w, beat), t')
    ensures t.Holds(id, w) == t'.Holds(id, w)
  {
  }

  lemma BeatAdded(tr: Trace, longer: Trace, since: nat, w: WorkerId, e: Event, t: Table)
    requires longer == Extended(tr, e, t) && e.Heartbeat?
    requires since <= |tr.events| && OnlyBeats(tr, since, |tr.events|, w)
    ensures OnlyBeats(longer, since, |longer.events|, w)
  {
  }

  lemma FoundTaken(tr: Trace, longer: Trace, since: nat, w: WorkerId, id: JobId, found: Table)
    requires |tr.tables| == |tr.events| + 1 && tr.tables[|tr.events|] == found && Continues(tr, longer)
    requires since <= |tr.events| && OnlyBeats(tr, since, |tr.events|, w)
    ensures !found.Holds(id, w) ==> TakenAway(longer, since, w, id)
  {
    assert longer.tables[|tr.events|] == found;
    assert OnlyBeats(longer, since, |tr.events|, w);
  }

  /** What a concluding statement leaves is what the result says. */
  lemma VerdictShows(cfg: Config, t: Table, id: JobId, w: WorkerId, v: Verdict, t': Table, started: Time)
    requires Step(cfg, t, EventOf(id, w, v), t') && t.Holds(id, w) && RowOk(t.jobs[id])
    ensures v.Complete? ==> RowMatches(t', IterationResult.Completed(id), started)
    ensures v.Block? ==> RowMatches(t', Blocked(id), started)
    ensures v.Pause? && v.runAfter <= t'.clock ==> RowMatches(t', Paused(id), started)
    ensures v.Fail? && v.retryAt.None? && t.jobs[id].attempts == MAX_ATTEMPTS ==>
      RowMatches(t', IterationResult.Failed(id), started)
    ensures v.Fail? && v.retryAt.Some? && 1 <= t.jobs[id].attempts < MAX_ATTEMPTS
            && started + RetryDelayMs(t.jobs[id].attempts) <= v.retryAt.value
                    <= t'.clock + RetryDelayMs(t.jobs[id].attempts) ==>
      RowMatches(t', RetryScheduled(id, v.retryAt.value), started)
  {
  }

  /** Of these two nothing is said of the row. */
  lemma LostMatches(id: JobId, t: Table, started: Time)
    ensures RowMatches(t, LostClaim(id), started) && RowMatches(t, Crashed, started)
  {
  }

  lemma RowIsOk(cfg: Config, t: Table, id: JobId)
    requires Inv(cfg, t) && id in t.jobs
    ensures RowOk(t.jobs[id])
  {
  }

  lemma FinishEnds(cfg: Config, t: Table, id: JobId, w: WorkerId, v: Verdict, t': Table)
    requires Step(cfg, t, EventOf(id, w, v), t') && id in t.jobs
    ensures !t'.Holds(id, w) && id in t'.jobs && t'.clock == t.clock
  {
  }

  lemma TraceLength(cfg: Config, tr: Trace)
    requires IsTrace(cfg, tr)
    ensures |tr.tables| == |tr.events| + 1
  {
  }

  lemma ClaimIsHeld(cfg: Config, t: Table, id: JobId, w: WorkerId, t': Table)
    requires Inv(cfg, t) && t.First(id) && t' == t.With(id, ClaimedRow(t, id, w))
    ensures Claimed(t, id, t') && t'.Holds(id, w) && 1 <= t'.jobs[id].attempts <= MAX_ATTEMPTS
  {
  }

  lemma ClaimStays(tr: Trace, longer: Trace, i: nat, w: WorkerId, id: JobId)
    requires |tr.tables| == |tr.events| + 1 && |longer.tables| == |longer.events| + 1
    requires Continues(tr, longer) && ClaimedAt(tr, i, w, id)
    ensures ClaimedAt(longer, i, w, id)
  {
  }
}
