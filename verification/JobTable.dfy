/**
 * The `sync_jobs` table and the statements that change it, one atomic step each
 * (packages/domain/src/job-queue.ts, sync-scheduler.ts, allowlist-admin.ts).
 * Workers, schedulers and administrators interleave in any order.
 */
module JobTable {
  import opened Base

  type JobId = nat
  type WorkerId = string

  const MAX_ATTEMPTS := 5

  datatype Status = Pending | Running | Completed | Failed | SyncBlocked

  /** `scheduled` tells the rows the scheduler created from those that were enqueued by hand. */
  datatype Job = Job(project: Project, status: Status, attempts: nat, runAfter: Time, claimedBy: Option<WorkerId>,
                     claimedAt: Option<Time>, createdAt: Time, updatedAt: Time, scheduled: bool)
  {
    predicate Active() {
      status.Pending? || status.Running?
    }

    predicate Terminal() {
      !Active()
    }

    predicate HeldBy(w: WorkerId) {
      status.Running? && claimedBy == Some(w)
    }

    /** A row leaving `running`; every update stamps `updatedAt`. */
    function Released(to: Status, now: Time): Job {
      this.(status := to, claimedBy := None, claimedAt := None, updatedAt := now)
    }
  }

  datatype Table = Table(jobs: map<JobId, Job>, clock: Time) {
    predicate Holds(id: JobId, w: WorkerId) {
      id in jobs && jobs[id].HeldBy(w)
    }

    predicate HasActive(p: Project) {
      exists id :: id in jobs && jobs[id].project == p && jobs[id].Active()
    }

    predicate Claimable(id: JobId) {
      id in jobs && jobs[id].status.Pending? && jobs[id].attempts < MAX_ATTEMPTS
    }

    predicate Due(id: JobId) {
      Claimable(id) && jobs[id].runAfter <= clock
    }

    /** The claim order: run_after, then created_at, then id. */
    predicate Precedes(a: JobId, b: JobId)
      requires a in jobs && b in jobs
    {
      var x, y := jobs[a], jobs[b];
      || x.runAfter < y.runAfter
      || (x.runAfter == y.runAfter && x.createdAt < y.createdAt)
      || (x.runAfter == y.runAfter && x.createdAt == y.createdAt && a < b)
    }

    /** The row a claim takes. */
    predicate First(id: JobId) {
      Due(id) && forall other :: other in jobs && Due(other) ==> other == id || Precedes(id, other)
    }

    function With(id: JobId, job: Job): Table {
      this.(jobs := jobs[id := job])
    }
  }

  datatype Config = Config(intervalSeconds: nat, staleClaimSeconds: nat)

  datatype Event =
    | Tick(passed: nat)
    | Enqueue(id: JobId, project: Project, at: Option<Time>)
    | Schedule(id: JobId, project: Project, now: Time)
    | Claim(w: WorkerId)
    | Complete(id: JobId, w: WorkerId)
    | Fail(id: JobId, w: WorkerId, retryAt: Option<Time>)
    | Reschedule(id: JobId, w: WorkerId, runAfter: Time)
    | Block(id: JobId, w: WorkerId)
    | Heartbeat(id: JobId, w: WorkerId, beat: Time)
    | Recover(now: Time)
    | RemoveProject(project: Project)
    | RemoveInstance(instance: string)

  function NewJob(p: Project, runAfter: Time, now: Time, scheduled: bool): Job {
    Job(p, Pending, 0, runAfter, None, None, now, now, scheduled)
  }

  /** When a project's latest terminal row was stamped. */
  function TerminalStamps(t: Table, p: Project): set<Time> {
    set id | id in t.jobs && t.jobs[id].project == p && t.jobs[id].Terminal() :: t.jobs[id].updatedAt
  }

  predicate IsLatest(stamps: set<Time>, latest: Time) {
    latest in stamps && forall s :: s in stamps ==> s <= latest
  }

  lemma {:induction false} HasLatest(stamps: set<Time>, some: Time) returns (latest: Time)
    requires some in stamps
    ensures IsLatest(stamps, latest)
    decreases stamps
  {
    var rest := stamps - {some};
    if next :| next in rest {
      var other := HasLatest(rest, next);
      latest := Max(some, other);
      assert forall s :: s in stamps ==> s == some || s in rest;
    } else {
      latest := some;
      assert forall s :: s in stamps ==> s == some || s in rest;
    }
  }

  /** A scheduler row waits one interval after the project's last terminal row. */
  ghost predicate ScheduledFor(cfg: Config, t: Table, p: Project, now: Time, runAfter: Time) {
    var stamps := TerminalStamps(t, p);
    if stamps == {} then runAfter == now
    else exists latest :: IsLatest(stamps, latest) && runAfter == Max(now, latest + cfg.intervalSeconds * 1000)
  }

  function FailedRow(j: Job, retryAt: Option<Time>, now: Time): Job {
    if retryAt.Some? && j.attempts < MAX_ATTEMPTS then j.Released(Pending, now).(runAfter := retryAt.value)
    else j.Released(Failed, now)
  }

  function RescheduledRow(j: Job, runAfter: Time, now: Time): Job {
    j.Released(Pending, now).(runAfter := runAfter, attempts := if j.attempts - 1 >= 0 then j.attempts - 1 else 0)
  }

  predicate IsStale(cfg: Config, j: Job, now: Time) {
    j.status.Running? && (j.claimedAt.None? || j.claimedAt.value < now - cfg.staleClaimSeconds * 1000)
  }

  function RecoveredRow(cfg: Config, j: Job, now: Time, stamp: Time): Job {
    if !IsStale(cfg, j, now) then j
    else if j.attempts < MAX_ATTEMPTS then j.Released(Pending, stamp).(runAfter := now)
    else j.Released(Failed, stamp)
  }

  function RemovedRow(j: Job, removed: bool, stamp: Time): Job {
    if removed && j.Active() then j.Released(SyncBlocked, stamp) else j
  }

  /** What each statement does, as a relation: ids of new rows are the database's choice. */
  ghost predicate Step(cfg: Config, t: Table, e: Event, t': Table) {
    match e
    case Tick(passed) =>
      t' == t.(clock := t.clock + passed)
    case Enqueue(id, p, at) =>
      id !in t.jobs &&
      t' == if t.HasActive(p) then t
            else t.With(id, NewJob(p, if at.Some? then at.value else t.clock, t.clock, false))
    case Schedule(id, p, now) =>
      id !in t.jobs &&
      if t.HasActive(p) then t' == t
      else exists runAfter :: ScheduledFor(cfg, t, p, now, runAfter)
                           && t' == t.With(id, NewJob(p, runAfter, t.clock, true))
    case Claim(w) =>
      if exists id :: t.First(id) then exists id :: t.First(id) && t' == t.With(id, ClaimedRow(t, id, w))
      else t' == t
    case Complete(id, w) =>
      t' == if t.Holds(id, w) then t.With(id, t.jobs[id].Released(Completed, t.clock)) else t
    case Fail(id, w, retryAt) =>
      t' == if t.Holds(id, w) then t.With(id, FailedRow(t.jobs[id], retryAt, t.clock)) else t
    case Reschedule(id, w, runAfter) =>
      t' == if t.Holds(id, w) then t.With(id, RescheduledRow(t.jobs[id], runAfter, t.clock)) else t
    case Block(id, w) =>
      t' == if t.Holds(id, w) then t.With(id, t.jobs[id].Released(SyncBlocked, t.clock)) else t
    case Heartbeat(id, w, beat) =>
      t' == if t.Holds(id, w) then t.With(id, t.jobs[id].(claimedAt := Some(beat), updatedAt := t.clock)) else t
    case Recover(now) =>
      t' == t.(jobs := map id | id in t.jobs :: RecoveredRow(cfg, t.jobs[id], now, t.clock))
    case RemoveProject(p) =>
      t' == t.(jobs := map id | id in t.jobs :: RemovedRow(t.jobs[id], t.jobs[id].project == p, t.clock))
    case RemoveInstance(instance) =>
      t' == t.(jobs := map id | id in t.jobs ::
               RemovedRow(t.jobs[id], t.jobs[id].project.instance == instance, t.clock))
  }

  function ClaimedRow(t: Table, id: JobId, w: WorkerId): Job
    requires id in t.jobs
  {
    var j := t.jobs[id];
    j.(status := Running, attempts := j.attempts + 1, claimedBy := Some(w), claimedAt := Some(t.clock),
       updatedAt := t.clock)
  }

  // ----- The invariant -----

  predicate RowOk(j: Job) {
    && (j.status.Running? <==> j.claimedBy.Some?)
    && (j.status.Running? <==> j.claimedAt.Some?)
    && (j.status.Running? ==> 1 <= j.attempts <= MAX_ATTEMPTS)
    && (j.status.Pending? ==> j.attempts < MAX_ATTEMPTS)
    && j.attempts <= MAX_ATTEMPTS
  }

  ghost predicate OneActive(t: Table) {
    forall a, b ::
      (a in t.jobs && b in t.jobs && t.jobs[a].project == t.jobs[b].project && t.jobs[a].Active() && t.jobs[b].Active())
      ==> a == b
  }

  /** The moment from which a scheduler row may run, as far as earlier terminal row `k` is concerned. */
  predicate Waited(cfg: Config, t: Table, j: Job, k: Job) {
    var due := k.updatedAt + cfg.intervalSeconds * 1000;
    due <= t.clock || (j.status.Pending? && due <= j.runAfter)
  }

  ghost predicate Cadence(cfg: Config, t: Table) {
    forall a, b ::
      (a in t.jobs && b in t.jobs && t.jobs[a].project == t.jobs[b].project
       && t.jobs[a].Active() && t.jobs[a].scheduled && t.jobs[b].Terminal())
      ==> Waited(cfg, t, t.jobs[a], t.jobs[b])
  }

  ghost predicate Inv(cfg: Config, t: Table) {
    && (forall id :: id in t.jobs ==> RowOk(t.jobs[id]))
    && OneActive(t)
    && Cadence(cfg, t)
  }

  // ----- Every step keeps it -----

  /** What a step may do to one row that exists already. */
  ghost predicate RowMoves(t: Table, j: Job, j': Job) {
    && j'.project == j.project && j'.scheduled == j.scheduled && j'.createdAt == j.createdAt
    && (j.Terminal() ==> j' == j)
    && (j.status.Pending? ==>
          || j' == j
          || j'.status.SyncBlocked?
          || (j'.status.Running? && j.runAfter <= t.clock && j.attempts < MAX_ATTEMPTS))
    && (j'.Terminal() && j.Active() ==> j'.updatedAt == t.clock)
    && (RowOk(j) ==> RowOk(j'))
  }

  /** Only rows move, except that a project without active row may get one new pending row. */
  lemma StepMoves(cfg: Config, t: Table, e: Event, t': Table)
    requires Step(cfg, t, e, t')
    ensures t.clock <= t'.clock
    ensures forall id :: id in t.jobs ==> id in t'.jobs && RowMoves(t, t.jobs[id], t'.jobs[id])
    ensures forall id :: id in t'.jobs && id !in t.jobs ==>
              && (e.Enqueue? || e.Schedule?) && e.id == id && !t.HasActive(e.project)
              && t'.jobs[id].project == e.project && t'.jobs[id].status.Pending? && RowOk(t'.jobs[id])
              && t'.jobs[id].scheduled == e.Schedule?
  {
    hide RowMoves, RowOk;
    RowsMove(cfg, t, e, t');
    NewRowsPend(cfg, t, e, t');
  }

  lemma RowsMove(cfg: Config, t: Table, e: Event, t': Table)
    requires Step(cfg, t, e, t')
    ensures forall id :: id in t.jobs ==> id in t'.jobs && RowMoves(t, t.jobs[id], t'.jobs[id])
  {
  }

  lemma NewRowsPend(cfg: Config, t: Table, e: Event, t': Table)
    requires Step(cfg, t, e, t')
    ensures forall id :: id in t'.jobs && id !in t.jobs ==>
              (e.Enqueue? || e.Schedule?) && e.id == id && t'.jobs[id].status.Pending? && RowOk(t'.jobs[id])
  {
  }

  lemma {:induction false} HasFirst(t: Table, due: set<JobId>, some: JobId) returns (first: JobId)
    requires some in due && forall id :: id in due ==> t.Due(id)
    ensures first in due && t.Due(first)
    ensures forall other :: other in due ==> t.Due(other) && (other == first || t.Precedes(first, other))
    decreases due
  {
    var rest := due - {some};
    assert forall id :: id in due ==> id == some || id in rest;
    if next :| next in rest {
      var other := HasFirst(t, rest, next);
      first := if t.Precedes(some, other) then some else other;
    } else {
      first := some;
    }
  }

  // ----- The statements, field by field -----

  /**
   * A claim changes nothing, and then no pending row that has attempts left is
   * due; or it starts the one that has been due longest, the older first, and
   * spends an attempt of it.
   */
  lemma ClaimInFields(cfg: Config, t: Table, w: WorkerId, t': Table)
    requires Step(cfg, t, Claim(w), t')
    ensures t'.clock == t.clock && t'.jobs.Keys == t.jobs.Keys
    ensures t'.jobs == t.jobs ==>
      forall id ::
        id in t.jobs && t.jobs[id].status.Pending? && t.jobs[id].attempts < 5 ==> t.clock < t.jobs[id].runAfter
    ensures t'.jobs != t.jobs ==> exists id ::
      && id in t.jobs
      && t'.jobs[id] == Job(t.jobs[id].project, Running, t.jobs[id].attempts + 1, t.jobs[id].runAfter, Some(w),
                            Some(t.clock), t.jobs[id].createdAt, t.clock, t.jobs[id].scheduled)
      && t.jobs[id].status.Pending? && t.jobs[id].attempts < 5 && t.jobs[id].runAfter <= t.clock
      && forall k :: k in t.jobs && k != id ==>
           && t'.jobs[k] == t.jobs[k]
           && (t.jobs[k].status.Pending? && t.jobs[k].attempts < 5 && t.jobs[k].runAfter <= t.clock ==>
                 || t.jobs[id].runAfter < t.jobs[k].runAfter
                 || (t.jobs[id].runAfter == t.jobs[k].runAfter && t.jobs[id].createdAt < t.jobs[k].createdAt)
                 || (t.jobs[id].runAfter == t.jobs[k].runAfter && t.jobs[id].createdAt == t.jobs[k].createdAt
                     && id < k))
  {
    hide Table.First, Table.Precedes;
    if forall id :: !t.First(id) {
      NoneDueInFields(t);
    }
    forall id | t.First(id) ensures id in t.jobs {
      FirstInFields(t, id);
    }
    if exists id :: t.First(id) {
      var id :| t.First(id) && t' == t.With(id, ClaimedRow(t, id, w));
      FirstInFields(t, id);
      assert t'.jobs[id] != t.jobs[id];
    }
  }

  lemma NoneDueInFields(t: Table)
    requires forall id :: !t.First(id)
    ensures forall id ::
      id in t.jobs && t.jobs[id].status.Pending? && t.jobs[id].attempts < 5 ==> t.clock < t.jobs[id].runAfter
  {
    var due := set id | id in t.jobs && t.Due(id);
    if some :| some in due {
      var first := HasFirst(t, due, some);
      assert t.First(first);
    }
    forall id | id in t.jobs && t.jobs[id].status.Pending? && t.jobs[id].attempts < 5
      ensures t.clock < t.jobs[id].runAfter
    {
      assert t.Due(id) ==> id in due;
    }
  }

  lemma FirstInFields(t: Table, id: JobId)
    requires t.First(id)
    ensures id in t.jobs && t.jobs[id].status.Pending? && t.jobs[id].attempts < 5 && t.jobs[id].runAfter <= t.clock
    ensures forall k ::
      k in t.jobs && k != id && t.jobs[k].status.Pending? && t.jobs[k].attempts < 5 && t.jobs[k].runAfter <= t.clock ==>
        || t.jobs[id].runAfter < t.jobs[k].runAfter
        || (t.jobs[id].runAfter == t.jobs[k].runAfter && t.jobs[id].createdAt < t.jobs[k].createdAt)
        || (t.jobs[id].runAfter == t.jobs[k].runAfter && t.jobs[id].createdAt == t.jobs[k].createdAt && id < k)
  {
    forall k | k in t.jobs && t.jobs[k].status.Pending? && t.jobs[k].attempts < 5 && t.jobs[k].runAfter <= t.clock
      ensures t.Due(k)
    {
    }
  }

  /** What gives a held row back: pending, completed, failed or blocked, held by nobody, and otherwise as it was. */
  lemma VerdictsInFields(cfg: Config, t: Table, e: Event, id: JobId, t': Table)
    requires Step(cfg, t, e, t') && id in t.jobs
    requires e.Complete? || e.Block? || e.Reschedule? || e.Fail?
    ensures !(e.id == id && t.jobs[id].status.Running? && t.jobs[id].claimedBy == Some(e.w)) ==>
      t'.jobs[id] == t.jobs[id]
    ensures e.id == id && t.jobs[id].status.Running? && t.jobs[id].claimedBy == Some(e.w) ==>
      var (j, j') := (t.jobs[id], t'.jobs[id]);
      var retried := e.Fail? && e.retryAt.Some? && j.attempts < 5;
      && j'.status == (match e
                       case Complete(_, _) => Completed
                       case Block(_, _) => SyncBlocked
                       case Reschedule(_, _, _) => Pending
                       case _ => if retried then Pending else Failed)
      && j'.runAfter == (if e.Reschedule? then e.runAfter else if retried then e.retryAt.value else j.runAfter)
      && j'.attempts == (if e.Reschedule? && j.attempts > 0 then j.attempts - 1 else j.attempts)
      && j'.claimedBy == None && j'.claimedAt == None && j'.updatedAt == t.clock
      && j'.project == j.project && j'.createdAt == j.createdAt && j'.scheduled == j.scheduled
  {
  }

  /**
   * A recovery leaves alone every lease whose last heartbeat is no older than the
   * limit, and every row that is not running; every older lease ends, back in the
   * queue at once if attempts are left, failed if not.
   */
  lemma RecoveryInFields(cfg: Config, t: Table, now: Time, id: JobId, t': Table)
    requires Step(cfg, t, Recover(now), t') && id in t.jobs
    ensures t'.jobs.Keys == t.jobs.Keys && t'.clock == t.clock
    ensures var (j, j') := (t.jobs[id], t'.jobs[id]);
            if j.status.Running? && (j.claimedAt.Some? ==> j.claimedAt.value + 1000 * cfg.staleClaimSeconds < now) then
              && j'.status == (if j.attempts < 5 then Pending else Failed)
              && j'.runAfter == (if j.attempts < 5 then now else j.runAfter)
              && j'.claimedBy == None && j'.claimedAt == None && j'.updatedAt == t.clock && j'.attempts == j.attempts
              && j'.project == j.project && j'.createdAt == j.createdAt && j'.scheduled == j.scheduled
            else
              j' == j
  {
  }

  /** A removal blocks every active row of the project, or of the projects of the instance, and no other row. */
  lemma RemovalsInFields(cfg: Config, t: Table, e: Event, id: JobId, t': Table)
    requires Step(cfg, t, e, t') && id in t.jobs && (e.RemoveProject? || e.RemoveInstance?)
    ensures t'.jobs.Keys == t.jobs.Keys && t'.clock == t.clock
    ensures var (j, j') := (t.jobs[id], t'.jobs[id]);
            if (j.status.Pending? || j.status.Running?)
               && (if e.RemoveProject? then j.project == e.project else j.project.instance == e.instance)
            then j' == j.(status := SyncBlocked, claimedBy := None, claimedAt := None, updatedAt := t.clock)
            else j' == j
  {
  }

  /** A new row is pending, unclaimed and unspent; the scheduler's waits one interval after the last terminal row. */
  lemma NewRowsInFields(cfg: Config, t: Table, e: Event, t': Table)
    requires Step(cfg, t, e, t') && (e.Enqueue? || e.Schedule?)
    ensures forall id :: id in t.jobs ==> id in t'.jobs && t'.jobs[id] == t.jobs[id]
    ensures t'.jobs == t.jobs <==>
      exists id ::
        id in t.jobs && t.jobs[id].project == e.project && (t.jobs[id].status.Pending? || t.jobs[id].status.Running?)
    ensures t'.jobs != t.jobs ==>
      && t'.jobs.Keys == t.jobs.Keys + {e.id}
      && var j := t'.jobs[e.id];
         && j == Job(e.project, Pending, 0, j.runAfter, None, None, t.clock, t.clock, e.Schedule?)
         && (e.Enqueue? ==> j.runAfter == if e.at.Some? then e.at.value else t.clock)
         && (e.Schedule? ==>
               && e.now <= j.runAfter
               && (forall k :: k in t.jobs && t.jobs[k].project == e.project ==>
                     t.jobs[k].updatedAt + 1000 * cfg.intervalSeconds <= j.runAfter)
               && (|| j.runAfter == e.now
                   || exists k :: k in t.jobs && t.jobs[k].project == e.project
                                  && j.runAfter == t.jobs[k].updatedAt + 1000 * cfg.intervalSeconds))
  {
    if t.HasActive(e.project) {
      var id :| id in t.jobs && t.jobs[id].project == e.project && t.jobs[id].Active();
    } else {
      assert e.id in t'.jobs;
      if e.Schedule? {
        var stamps := TerminalStamps(t, e.project);
        assert forall k :: k in t.jobs && t.jobs[k].project == e.project ==> t.jobs[k].updatedAt in stamps;
      }
    }
  }

  /** A new row of the scheduler respects the interval. */
  lemma ScheduledWaits(cfg: Config, t: Table, e: Event, t': Table, k: JobId)
    requires Step(cfg, t, e, t') && e.Schedule? && e.id in t'.jobs && !t.HasActive(e.project)
    requires k in t.jobs && t.jobs[k].project == e.project && t.jobs[k].Terminal()
    ensures Waited(cfg, t', t'.jobs[e.id], t.jobs[k])
  {
    assert t.jobs[k].updatedAt in TerminalStamps(t, e.project);
  }

  lemma StepKeepsOneActive(cfg: Config, t: Table, e: Event, t': Table)
    requires OneActive(t) && Step(cfg, t, e, t')
    ensures OneActive(t')
  {
    StepMoves(cfg, t, e, t');
    forall a, b | a in t'.jobs && b in t'.jobs && t'.jobs[a].project == t'.jobs[b].project
                  && t'.jobs[a].Active() && t'.jobs[b].Active()
      ensures a == b
    {
    }
  }

  lemma StepKeepsCadence(cfg: Config, t: Table, e: Event, t': Table)
    requires OneActive(t) && Cadence(cfg, t) && Step(cfg, t, e, t')
    ensures Cadence(cfg, t')
  {
    StepMoves(cfg, t, e, t');
    StepKeepsOneActive(cfg, t, e, t');
    forall a, b | a in t'.jobs && b in t'.jobs && t'.jobs[a].project == t'.jobs[b].project
                  && t'.jobs[a].Active() && t'.jobs[a].scheduled && t'.jobs[b].Terminal()
      ensures Waited(cfg, t', t'.jobs[a], t'.jobs[b])
    {
      if a !in t.jobs {
        ScheduledWaits(cfg, t, e, t', b);
      } else {
        assert t.jobs[a].Active() && t.jobs[b].Terminal();
        assert Waited(cfg, t, t.jobs[a], t.jobs[b]);
      }
    }
  }

  lemma StepKeepsInv(cfg: Config, t: Table, e: Event, t': Table)
    requires Inv(cfg, t) && Step(cfg, t, e, t')
    ensures Inv(cfg, t')
  {
    StepMoves(cfg, t, e, t');
    StepKeepsOneActive(cfg, t, e, t');
    StepKeepsCadence(cfg, t, e, t');
  }
}
