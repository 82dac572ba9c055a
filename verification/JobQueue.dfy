/** The queue as an object over the table, the scheduler, and what other workers do in between. */
module JobQueues {
  import opened Base
  import opened JobTable
  import opened JobHistory

  /** A user's enable row, with the instances that user has an active connection to. */
  datatype EnableRow = EnableRow(project: Project, connectedInstances: set<string>)

  datatype ScheduleResult = ScheduleResult(targetsDiscovered: nat, jobsEnqueued: nat, jobsCoalesced: nat)

  /** The statement a worker runs last on a job. */
  datatype Verdict = Complete | Block | Pause(runAfter: Time) | Fail(retryAt: Option<Time>)

  function EventOf(id: JobId, w: WorkerId, v: Verdict): Event {
    match v
    case Complete => Event.Complete(id, w)
    case Block => Event.Block(id, w)
    case Pause(runAfter) => Reschedule(id, w, runAfter)
    case Fail(retryAt) => Event.Fail(id, w, retryAt)
  }

  /** The row is still the one that was claimed; only its heartbeat may be younger. */
  predicate SameLease(j: Job, j': Job) {
    j'.(claimedAt := j.claimedAt, updatedAt := j.updatedAt) == j
  }

  /** What `me` can rely on while others act: time passes, finished rows stay, and leases still held are untouched. */
  ghost predicate Rely(me: WorkerId, t: Table, t': Table) {
    && t.clock <= t'.clock
    && (forall id :: id in t.jobs ==> id in t'.jobs)
    && (forall id :: id in t.jobs && t.jobs[id].Terminal() ==> t'.jobs[id] == t.jobs[id])
    && (forall id :: t'.Holds(id, me) ==> t.Holds(id, me) && SameLease(t.jobs[id], t'.jobs[id]))
  }

  /** A heartbeat of `me` may still be under way; it changes no more than the heartbeat. */
  lemma OthersCanBeReliedOn(cfg: Config, t: Table, e: Event, t': Table, me: WorkerId)
    requires Step(cfg, t, e, t') && (!IsBy(e, me) || e.Heartbeat?)
    ensures Rely(me, t, t')
  {
    StepMoves(cfg, t, e, t');
    forall id | t'.Holds(id, me) ensures t.Holds(id, me) && SameLease(t.jobs[id], t'.jobs[id]) {
      LeaseIsKept(cfg, t, e, t', me, id);
    }
  }

  lemma RelyJoins(me: WorkerId, a: Table, b: Table, c: Table)
    ensures Rely(me, a, a) && (Rely(me, a, b) && Rely(me, b, c) ==> Rely(me, a, c))
  {
  }

  lemma LeaseIsKept(cfg: Config, t: Table, e: Event, t': Table, me: WorkerId, id: JobId)
    requires Step(cfg, t, e, t') && (!IsBy(e, me) || e.Heartbeat?) && t'.Holds(id, me)
    ensures t.Holds(id, me) && SameLease(t.jobs[id], t'.jobs[id])
  {
  }

  lemma FreshAbove(ids: set<JobId>) returns (above: JobId)
    ensures above !in ids && forall id :: id in ids ==> id < above
    decreases ids
  {
    if some :| some in ids {
      var rest := FreshAbove(ids - {some});
      above := Max(rest, some + 1);
      assert forall id :: id in ids ==> id == some || id in ids - {some};
    } else {
      above := 0;
    }
  }

  /** What happened since was not done by `me`, but for heartbeats under way. */
  ghost predicate OnlyOthers(me: WorkerId, tr: Trace, longer: Trace) {
    && Continues(tr, longer)
    && forall i :: |tr.events| <= i < |longer.events| ==> !IsBy(longer.events[i], me) || longer.events[i].Heartbeat?
  }

  /** Statement `i`, made since `from`, scheduled the project, which has an active job after it. */
  ghost predicate Handles(tr: Trace, from: nat, p: Project, now: Time, i: nat) {
    && from <= i < |tr.events| && |tr.tables| == |tr.events| + 1
    && tr.events[i].Schedule? && tr.events[i].project == p && tr.events[i].now == now
    && tr.tables[i + 1].HasActive(p)
  }

  /** One such statement for each target, in order. */
  ghost predicate Handled(tr: Trace, from: nat, targets: seq<Project>, now: Time, own: seq<nat>) {
    && |own| == |targets|
    && (forall k :: 0 <= k < |own| ==> Handles(tr, from, targets[k], now, own[k]))
    && forall k, l :: 0 <= k < l < |own| ==> own[k] < own[l]
  }

  /** The statement found no active job of its project, and so made one. */
  ghost predicate Created(tr: Trace, i: nat) {
    i < |tr.events| && i < |tr.tables| && tr.events[i].Schedule? && !tr.tables[i].HasActive(tr.events[i].project)
  }

  ghost function Creations(tr: Trace, own: seq<nat>): nat {
    if own == [] then 0
    else Creations(tr, own[..|own| - 1]) + if Created(tr, own[|own| - 1]) then 1 else 0
  }

  lemma {:induction false} CreationsStay(tr: Trace, longer: Trace, own: seq<nat>)
    requires |tr.tables| == |tr.events| + 1 && Continues(tr, longer) && forall i :: i in own ==> i < |tr.events|
    ensures Creations(longer, own) == Creations(tr, own)
  {
    if own != [] {
      var front := own[..|own| - 1];
      assert own[|own| - 1] in own && forall i :: i in front ==> i in own;
      CreationsStay(tr, longer, front);
    }
  }

  lemma NothingHandled(tr: Trace, from: nat, now: Time)
    ensures Handled(tr, from, [], now, []) && Creations(tr, []) == 0
  {
  }

  lemma HandledStays(tr: Trace, longer: Trace, from: nat, targets: seq<Project>, now: Time, own: seq<nat>)
    requires Handled(tr, from, targets, now, own) && Continues(tr, longer) && |longer.tables| == |longer.events| + 1
    ensures Handled(longer, from, targets, now, own)
  {
    forall k | 0 <= k < |own| ensures Handles(longer, from, targets[k], now, own[k]) {
      assert Handles(tr, from, targets[k], now, own[k]);
    }
  }

  lemma HandledOneMore(tr: Trace, longer: Trace, from: nat, targets: seq<Project>, now: Time, own: seq<nat>, p: Project,
                       at: nat)
    requires |tr.tables| == |tr.events| + 1 && Continues(tr, longer) && from <= |tr.events|
    requires Handled(tr, from, targets, now, own) && Handles(longer, |tr.events|, p, now, at)
    ensures Handled(longer, from, targets + [p], now, own + [at])
    ensures Creations(longer, own + [at]) == Creations(tr, own) + if longer.tables[at].HasActive(p) then 0 else 1
  {
    assert forall i :: i in own ==> i < |tr.events|;
    CreationsStay(tr, longer, own);
    assert (own + [at])[..|own|] == own;
    forall k | 0 <= k < |own + [at]| ensures Handles(longer, from, (targets + [p])[k], now, (own + [at])[k]) {
      if k < |own| {
        assert Handles(tr, from, targets[k], now, own[k]);
      }
    }
  }

  class PostgresJobQueue {
    const cfg: Config
    var table: Table
    /** Every statement so far, of anyone, with the table it left. */
    ghost var past: Trace

    constructor (cfg: Config, start: Time)
      ensures this.cfg == cfg && table == Table(map[], start) && Inv(cfg, table)
      ensures Recorded() && past == Trace([table], [])
    {
      this.cfg := cfg;
      table, past := Table(map[], start), Trace([Table(map[], start)], []);
    }

    /** The past is a history of the job table, and it ends with the table of now. */
    ghost predicate Recorded()
      reads this
    {
      IsTrace(cfg, past) && past.tables[|past.events|] == table
    }

    ghost method Record(e: Event)
      requires IsTrace(cfg, past) && Step(cfg, past.tables[|past.events|], e, table)
      modifies this`past
      ensures Recorded() && past == Extended(old(past), e, table) && Continues(old(past), past)
    {
      ExtendedIsTrace(cfg, past, e, table);
      past := Extended(past, e, table);
    }

    method FreshId() returns (id: JobId)
      ensures id !in table.jobs
    {
      ghost var above := FreshAbove(table.jobs.Keys);
      assert above !in table.jobs;
      id :| id !in table.jobs;
    }

    method Wait(passed: nat)
      requires Recorded()
      modifies this
      ensures Step(cfg, old(table), Tick(passed), table) && Recorded()
              && past == Extended(old(past), Tick(passed), table)
    {
      table := table.(clock := table.clock + passed);
      Record(Tick(passed));
    }

    method Enqueue(id: JobId, p: Project, at: Option<Time>)
      requires id !in table.jobs
      requires Recorded()
      modifies this
      ensures Step(cfg, old(table), Event.Enqueue(id, p, at), table) && Recorded()
              && past == Extended(old(past), Event.Enqueue(id, p, at), table)
      ensures table.HasActive(p)
    {
      if table.HasActive(p) {
        Record(Event.Enqueue(id, p, at));
        return;
      }
      var runAfter := if at.Some? then at.value else table.clock;
      table := table.With(id, NewJob(p, runAfter, table.clock, false));
      assert table.jobs[id].project == p && table.jobs[id].Active();
      Record(Event.Enqueue(id, p, at));
    }

    method Claim(w: WorkerId) returns (claimed: Option<JobId>)
      requires Recorded()
      modifies this
      ensures Step(cfg, old(table), Event.Claim(w), table) && Recorded()
              && past == Extended(old(past), Event.Claim(w), table)
      ensures claimed.None? ==> table == old(table) && forall id :: id in table.jobs ==> !table.Due(id)
      ensures claimed.Some? ==>
        && old(table).First(claimed.value)
        && table == old(table).With(claimed.value, ClaimedRow(old(table), claimed.value, w))
    {
      var due := set id | id in table.jobs && table.Due(id);
      if due == {} {
        assert forall id :: table.First(id) ==> id in due;
        assert forall id :: id in table.jobs && table.Due(id) ==> id in due;
        Record(Event.Claim(w));
        return None;
      }
      ghost var some :| some in due;
      ghost var first := HasFirst(table, due, some);
      assert table.First(first);
      var id: JobId :| id in table.jobs && table.First(id);
      table := table.With(id, ClaimedRow(table, id, w));
      Record(Event.Claim(w));
      return Some(id);
    }

    /** One of the four statements that end a claim; each is conditional on the row still being held. */
    method Finish(id: JobId, w: WorkerId, v: Verdict) returns (changed: bool)
      requires Recorded()
      modifies this
      ensures Step(cfg, old(table), EventOf(id, w, v), table) && Recorded()
              && past == Extended(old(past), EventOf(id, w, v), table)
      ensures changed == old(table).Holds(id, w)
      ensures !changed ==> table == old(table)
    {
      changed := table.Holds(id, w);
      if !changed {
        Record(EventOf(id, w, v));
        return;
      }
      var job := table.jobs[id];
      match v {
        case Complete =>
          job := job.(status := Completed);
        case Block =>
          job := job.(status := SyncBlocked);
        case Pause(runAfter) =>
          job := job.(status := Pending, attempts := Max(job.attempts - 1, 0), runAfter := runAfter);
        case Fail(retryAt) =>
          if retryAt.Some? && job.attempts < MAX_ATTEMPTS {
            job := job.(status := Pending, runAfter := retryAt.value);
          } else {
            job := job.(status := Failed);
          }
      }
      table := table.With(id, job.(claimedBy := None, claimedAt := None, updatedAt := table.clock));
      Record(EventOf(id, w, v));
    }

    method Heartbeat(id: JobId, w: WorkerId, beat: Time) returns (owned: bool)
      requires Recorded()
      modifies this
      ensures Step(cfg, old(table), Event.Heartbeat(id, w, beat), table) && Recorded()
              && past == Extended(old(past), Event.Heartbeat(id, w, beat), table)
      ensures owned == old(table).Holds(id, w)
    {
      owned := table.Holds(id, w);
      if owned {
        table := table.With(id, table.jobs[id].(claimedAt := Some(beat), updatedAt := table.clock));
      }
      Record(Event.Heartbeat(id, w, beat));
    }

    method RecoverStaleClaims(now: Time) returns (recovered: nat)
      requires Recorded()
      modifies this
      ensures Step(cfg, old(table), Recover(now), table) && Recorded()
              && past == Extended(old(past), Recover(now), table)
      ensures recovered == |set id | id in old(table).jobs && IsStale(cfg, old(table).jobs[id], now)|
      ensures forall id :: id in table.jobs && id in old(table).jobs && IsStale(cfg, old(table).jobs[id], now) ==>
                !table.jobs[id].status.Running?
    {
      var stale := set id | id in table.jobs && IsStale(cfg, table.jobs[id], now);
      table := table.(jobs := map id | id in table.jobs :: RecoveredRow(cfg, table.jobs[id], now, table.clock));
      Record(Recover(now));
      recovered := |stale|;
    }

    method RemoveProject(p: Project)
      requires Recorded()
      modifies this
      ensures Step(cfg, old(table), Event.RemoveProject(p), table) && Recorded()
              && past == Extended(old(past), Event.RemoveProject(p), table)
      ensures !table.HasActive(p)
    {
      table := table.(jobs := map id | id in table.jobs ::
                        RemovedRow(table.jobs[id], table.jobs[id].project == p, table.clock));
      Record(Event.RemoveProject(p));
    }

    method RemoveInstance(instance: string)
      requires Recorded()
      modifies this
      ensures Step(cfg, old(table), Event.RemoveInstance(instance), table) && Recorded()
              && past == Extended(old(past), Event.RemoveInstance(instance), table)
      ensures forall p: Project :: p.instance == instance ==> !table.HasActive(p)
    {
      table := table.(jobs := map id | id in table.jobs ::
                        RemovedRow(table.jobs[id], table.jobs[id].project.instance == instance, table.clock));
      Record(Event.RemoveInstance(instance));
    }

    // ----- The scheduler -----

    /** Under the project's advisory lock: nothing if a job is active, else one row, due after the interval. */
    method ScheduleTarget(id: JobId, p: Project, now: Time) returns (created: bool)
      requires id !in table.jobs
      requires Recorded()
      modifies this
      ensures Step(cfg, old(table), Event.Schedule(id, p, now), table) && Recorded()
              && past == Extended(old(past), Event.Schedule(id, p, now), table)
      ensures created <==> !old(table).HasActive(p)
      ensures table.HasActive(p)
    {
      if table.HasActive(p) {
        Record(Event.Schedule(id, p, now));
        return false;
      }
      var stamps := TerminalStamps(table, p);
      var runAfter := now;
      if stamps != {} {
        ghost var some :| some in stamps;
        ghost var greatest := HasLatest(stamps, some);
        var latest: Time :| latest in stamps && IsLatest(stamps, latest);
        var due := latest + cfg.intervalSeconds * 1000;
        if due > now {
          runAfter := due;
        }
        assert ScheduledFor(cfg, table, p, now, runAfter);
      }
      table := table.With(id, NewJob(p, runAfter, table.clock, true));
      assert table.jobs[id].project == p && table.jobs[id].Active();
      Record(Event.Schedule(id, p, now));
      return true;
    }

    /** The projects to sync: enabled by someone who is connected to their instance, and allowlisted. */
    static ghost function Targets(rows: seq<EnableRow>, allowlisted: set<Project>): set<Project> {
      set row | row in rows && row.project in allowlisted && row.project.instance in row.connectedInstances
        :: row.project
    }

    static lemma NoRowsNoTargets(allowlisted: set<Project>)
      ensures Targets([], allowlisted) == {}
    {
    }

    static lemma OneRowMore(rows: seq<EnableRow>, k: nat, allowlisted: set<Project>)
      requires k < |rows|
      ensures var row := rows[k];
              Targets(rows[..k + 1], allowlisted)
              == Targets(rows[..k], allowlisted)
                 + (if row.project in allowlisted && row.project.instance in row.connectedInstances
                    then {row.project} else {})
    {
      assert rows[..k + 1] == rows[..k] + [rows[k]];
    }

    /** The targets as a list, each project once. */
    static method DiscoverTargets(rows: seq<EnableRow>, allowlisted: set<Project>) returns (targets: seq<Project>)
      ensures |targets| == |Targets(rows, allowlisted)|
      ensures forall p :: p in targets <==> p in Targets(rows, allowlisted)
      ensures forall i, j :: 0 <= i < j < |targets| ==> targets[i] != targets[j]
    {
      hide Targets;
      targets := [];
      NoRowsNoTargets(allowlisted);
      ghost var found: set<Project> := {};
      assert rows[..0] == [];
      for k := 0 to |rows|
        invariant found == Targets(rows[..k], allowlisted)
        invariant forall p :: p in found <==> p in targets
        invariant |targets| == |found|
        invariant forall i, j :: 0 <= i < j < |targets| ==> targets[i] != targets[j]
      {
        var row := rows[k];
        var target := row.project in allowlisted && row.project.instance in row.connectedInstances;
        OneRowMore(rows, k, allowlisted);
        if target && row.project !in targets {
          targets := targets + [row.project];
          found := found + {row.project};
        }
      }
      assert rows[..|rows|] == rows;
    }

    /**
     * One scheduling pass: each target is handled once, however many users
     * enabled it; others may act between targets. `own` are the places of this
     * pass's statements among all statements, one for each target: after it the
     * target has an active job, and the jobs counted as enqueued are those that
     * had none before it. A statement that fails, or seems to, ends the pass.
     */
    method Schedule(me: WorkerId, rows: seq<EnableRow>, allowlisted: set<Project>, now: Time, mayFail: bool)
      returns (r: Option<ScheduleResult>, ghost targets: seq<Project>, ghost own: seq<nat>)
      requires Inv(cfg, table) && Recorded()
      modifies this
      ensures Inv(cfg, table) && Rely(me, old(table), table) && Recorded() && OnlyOthers(me, old(past), past)
      ensures forall p :: p in targets <==> p in Targets(rows, allowlisted)
      ensures forall i, j :: 0 <= i < j < |targets| ==> targets[i] != targets[j]
      ensures |own| <= |targets| == |Targets(rows, allowlisted)|
      ensures Handled(past, |old(past).events|, targets[..|own|], now, own)
      ensures r.None? ==> mayFail
      ensures r.Some? ==>
        && |own| == |targets| == r.value.targetsDiscovered == r.value.jobsEnqueued + r.value.jobsCoalesced
        && r.value.jobsEnqueued == Creations(past, own)
    {
      hide Inv, Step, TerminalStamps, Targets, Table.HasActive, IsBy, Creations, Handled;
      var found := DiscoverTargets(rows, allowlisted);
      var enqueued, coalesced := 0, 0;
      targets, own := found, [];
      NothingHandled(past, |past.events|, now);
      for k := 0 to |found|
        invariant Inv(cfg, table) && Rely(me, old(table), table) && Recorded() && OnlyOthers(me, old(past), past)
        invariant |own| == k && Handled(past, |old(past).events|, found[..k], now, own)
        invariant enqueued == Creations(past, own) && enqueued + coalesced == k
      {
        var fails: bool := *;
        if mayFail && fails {
          return None, targets, own;
        }
        var created;
        ghost var before := past;
        ghost var at;
        created, at := ScheduleOne(me, found[k], now);
        assert found[..k + 1] == found[..k] + [found[k]];
        HandledOneMore(before, past, |old(past).events|, found[..k], now, own, found[k], at);
        own := own + [at];
        fails := *;
        if mayFail && fails {
          return None, targets, own;
        }
        if created {
          enqueued := enqueued + 1;
        } else {
          coalesced := coalesced + 1;
        }
      }
      assert found[..|found|] == found;
      r := Some(ScheduleResult(|found|, enqueued, coalesced));
    }

    /** One target, after others have acted. */
    method ScheduleOne(me: WorkerId, p: Project, now: Time) returns (created: bool, ghost at: nat)
      requires Inv(cfg, table) && Recorded()
      modifies this
      ensures Inv(cfg, table) && Rely(me, old(table), table) && Recorded() && OnlyOthers(me, old(past), past)
      ensures Handles(past, |old(past).events|, p, now, at)
      ensures created <==> !past.tables[at].HasActive(p)
    {
      hide Inv, Step, IsTrace, TerminalStamps, Table.HasActive;
      OthersAct(me);
      var id := FreshId();
      ghost var before := table;
      at := |past.events|;
      TraceLengths();
      created := ScheduleTarget(id, p, now);
      TraceLengths();
      OthersCanBeReliedOn(cfg, before, Event.Schedule(id, p, now), table, me);
      StepKeepsInv(cfg, before, Event.Schedule(id, p, now), table);
    }

    lemma TraceLengths()
      requires Recorded()
      ensures |past.tables| == |past.events| + 1 && past.tables[|past.events|] == table
    {
    }

    // ----- Everyone else -----

    /** A statement of another scheduler or worker, or a heartbeat of `me` that is still under way. */
    method WorkerAct(me: WorkerId)
      requires Inv(cfg, table) && Recorded()
      modifies this
      ensures Inv(cfg, table) && Rely(me, old(table), table) && Recorded() && OnlyOthers(me, old(past), past)
    {
      hide Inv, Step, IsTrace, TerminalStamps, Table.HasActive;
      var kind: int := *;
      var w: WorkerId := *;
      var id: int := *;
      var p: Project := *;
      var time: Time := *;
      var v: Verdict := *;
      ghost var e := Tick(0);
      if kind == 0 {
        var unused := FreshId();
        var created := ScheduleTarget(unused, p, time);
        e := Event.Schedule(unused, p, time);
      } else if kind == 1 && w != me {
        var claimed := Claim(w);
        e := Event.Claim(w);
      } else if kind == 2 && w != me && id >= 0 {
        var changed := Finish(id, w, v);
        e := EventOf(id, w, v);
      } else if id >= 0 {
        var owned := Heartbeat(id, w, time);
        e := Event.Heartbeat(id, w, time);
      } else {
        var recovered := RecoverStaleClaims(time);
        e := Recover(time);
      }
      OthersCanBeReliedOn(cfg, old(table), e, table, me);
      StepKeepsInv(cfg, old(table), e, table);
    }

    /** A user asks for a sync, an administrator takes a project or an instance away, or time passes. */
    method UserAct(me: WorkerId)
      requires Inv(cfg, table) && Recorded()
      modifies this
      ensures Inv(cfg, table) && Rely(me, old(table), table) && Recorded() && OnlyOthers(me, old(past), past)
    {
      hide Inv, Step, IsTrace, TerminalStamps, Table.HasActive;
      var kind: int := *;
      var p: Project := *;
      var passed: int := *;
      var at: Option<Time> := *;
      ghost var e := Tick(0);
      if kind == 0 {
        var unused := FreshId();
        Enqueue(unused, p, at);
        e := Event.Enqueue(unused, p, at);
      } else if kind == 1 {
        RemoveProject(p);
        e := Event.RemoveProject(p);
      } else if kind == 2 {
        RemoveInstance(p.instance);
        e := Event.RemoveInstance(p.instance);
      } else {
        Wait(Max(passed, 0));
        e := Tick(Max(passed, 0));
      }
      OthersCanBeReliedOn(cfg, old(table), e, table, me);
      StepKeepsInv(cfg, old(table), e, table);
    }

    method OthersAct(me: WorkerId)
      requires Inv(cfg, table) && Recorded()
      modifies this
      ensures Inv(cfg, table) && Rely(me, old(table), table) && Recorded() && OnlyOthers(me, old(past), past)
    {
      hide Inv, Step, IsTrace, IsBy;
      var acts: int := *;
      for k := 0 to Max(acts, 0)
        invariant Inv(cfg, table) && Rely(me, old(table), table) && Recorded() && OnlyOthers(me, old(past), past)
      {
        var user: bool := *;
        if user {
          UserAct(me);
        } else {
          WorkerAct(me);
        }
      }
    }
  }
}
