/**
 * Who may see which project: allowlist, enables, connections and the membership
 * cache, changed by users, administrators and GitLab's answers
 * (packages/domain/src/project-access.ts, gitlab-connection.ts, allowlist-admin.ts).
 * Every request is a sequence of statements; others act between any two of them.
 */
module ProjectAccess {
  import opened Base
  import opened MembershipCaches
  import opened ProbePool
  import opened AccessWorld

  class LiveProjectAccess {
    const ttl: Ttl
    /** How long after its probe a grant may be written back and still count as fresh from then. */
    const lag: nat
    var clock: Time
    var allowlist: seq<Project>
    var enables: set<Key>
    var connections: seq<Connection>
    var cache: Entries
    ghost var log: seq<Fact>
    ghost var stale: set<Key>
    /** Every moment so far, one after each statement of anyone; the last is now. */
    ghost var past: seq<World>
    /** The statements between those moments, and whose they were. */
    ghost var steps: seq<Turn>

    constructor (ttl: Ttl, lag: nat, start: Time)
      requires ttl.Valid()
      ensures Valid() && this.ttl == ttl && this.lag == lag
      ensures Here() == World([], {}, [], map[], [], {}, start) && past == [Here()] && steps == []
    {
      this.ttl, this.lag, clock := ttl, lag, start;
      allowlist, enables, connections, cache, log, stale := [], {}, [], map[], [], {};
      past, steps := [World([], {}, [], map[], [], {}, start)], [];
    }

    ghost function MaxAge(): nat {
      ttl.Millis(true) + lag
    }

    ghost function Here(): World
      reads this
    {
      World(allowlist, enables, connections, cache, log, stale, clock)
    }

    ghost predicate Valid()
      reads this
    {
      && ttl.Valid()
      && SoundWorld(Here(), MaxAge())
      && past != [] && past[|past| - 1] == Here() && Traced(ttl, lag, past, steps)
    }

    /** This moment, as an index into the past. */
    ghost function Moment(): int
      reads this
    {
      |past| - 1
    }

    /** One statement, of the request in question or of another. */
    twostate predicate Performed(mine: bool, what: Stmt)
      reads this
    {
      && Valid() && past == old(past) + [Here()] && Here() == Effect(ttl, lag, old(Here()), what)
      && old(log) <= log && old(clock) <= clock && steps == old(steps) + [Turn(mine, what)]
      && Own(steps) == Own(old(steps)) + (if mine then [what] else [])
    }

    /** Since then the request in question did just this, while others did whatever they did. */
    twostate predicate Did(own: seq<Stmt>)
      reads this
    {
      && Valid() && old(past) <= past && old(log) <= log && old(clock) <= clock && old(steps) <= steps
      && Own(steps) == Own(old(steps)) + own
    }

    // ----- Statements -----

    ghost method Mark(mine: bool, what: Stmt)
      requires ttl.Valid() && past != [] && Traced(ttl, lag, past, steps) && SoundWorld(past[|past| - 1], MaxAge())
      requires Here() == Effect(ttl, lag, past[|past| - 1], what)
      modifies this`past, this`steps
      ensures Valid() && past == old(past) + [Here()] && old(past[|past| - 1].log) <= log
              && old(past[|past| - 1].clock) <= clock
      ensures steps == old(steps) + [Turn(mine, what)]
      ensures Own(steps) == Own(old(steps)) + (if mine then [what] else [])
    {
      hide Effect, SoundWorld;
      EffectKeepsSound(ttl, lag, past[|past| - 1], what);
      EffectMovesOn(ttl, lag, past[|past| - 1], what);
      TracedOn(ttl, lag, past, steps, Turn(mine, what));
      OwnGrows(steps, Turn(mine, what));
      past, steps := past + [Here()], steps + [Turn(mine, what)];
    }

    method Pass(until: Time, ghost mine: bool)
      requires Valid()
      modifies this
      ensures Performed(mine, Waiting(until))
    {
      hide SoundWorld, Traced;
      clock := Max(clock, until);
      Mark(mine, Waiting(until));
    }

    /** GitLab or the application says something; no row changes. */
    ghost method Learn(f: Fact)
      requires Valid()
      modifies this`log, this`stale, this`past, this`steps
      ensures Performed(false, Saying(f))
    {
      var w := Learnt(Here(), f);
      log, stale := w.log, w.stale;
      Mark(false, Saying(f));
    }

    method Drop(scope: Scope, ghost mine: bool)
      requires Valid()
      modifies this
      ensures Performed(mine, Dropping(scope)) && Here().Cleaned(scope)
    {
      hide SoundWorld, Traced;
      stale := set k | k in stale && !scope.Hits(k);
      cache := Without(cache, scope);
      Mark(mine, Dropping(scope));
    }

    /** Writes an answer back; fact `i` is the probe behind it. */
    method Write(k: Key, granted: bool, ghost i: int, ghost mine: bool)
      requires Valid()
      modifies this
      ensures Performed(mine, Writing(k, granted, i))
    {
      hide SoundWorld, Traced;
      stale := if granted && !Probed(Here(), k, i, lag) then stale + {k} else stale - {k};
      var seconds := if granted then ttl.positive else ttl.negative;
      cache := cache[k := Entry(granted, clock, clock + 1000 * seconds)];
      Mark(mine, Writing(k, granted, i));
    }

    /** A sync run learns that a project is hidden from this user. */
    method Deny(k: Key, ghost mine: bool)
      requires Valid()
      modifies this
      ensures Performed(mine, Denying(k))
    {
      hide SoundWorld, Traced;
      cache := cache[k := Entry(false, clock, clock + SYNC_DENIED_TTL_MS)];
      log, stale := log + [Refused(k, clock)], stale - {k};
      Mark(mine, Denying(k));
    }

    method SetEnable(k: Key, ghost mine: bool)
      requires Valid()
      modifies this
      ensures Performed(mine, Enabling(k))
    {
      hide SoundWorld, Traced;
      enables := enables + {k};
      Mark(mine, Enabling(k));
    }

    /** Deleting an enable takes back what was said of the key. */
    method ClearEnable(k: Key, ghost mine: bool)
      requires Valid()
      modifies this
      ensures Performed(mine, Disabling(k))
    {
      hide SoundWorld, Traced;
      ghost var w := Learnt(Here(), Cut(OfKey(k)));
      enables := enables - {k};
      log, stale := w.log, w.stale;
      Mark(mine, Disabling(k));
    }

    /** Sets the status of a connection, unless the unique index refuses it. */
    method SetStatus(id: string, status: ConnectionStatus, ghost mine: bool) returns (ok: bool)
      requires Valid()
      modifies this
      ensures Performed(mine, Setting(id, status)) && ok == OneActive(WithStatus(old(connections), id, status))
    {
      hide SoundWorld, Traced;
      ok := OneActive(WithStatus(connections, id, status));
      if ok {
        connections := WithStatus(connections, id, status);
      }
      Mark(mine, Setting(id, status));
    }

    /**
     * The user's live row for the instance becomes active, or a new one is added,
     * in one transaction; the unique index may refuse it.
     */
    method SaveRow(id: string, user: string, instance: string, ghost mine: bool) returns (ok: bool, ghost row: nat)
      requires Valid()
      modifies this
      ensures Performed(mine, Linking(row, id, user, instance))
      ensures Connected(connections, user, instance) && (!ok ==> connections == old(connections))
      ensures FoundRow(old(connections), row, user, instance)
      ensures ok <==> !ServedElsewhere(old(connections), row, user, instance)
      ensures forall u, s ::
        u != user || s != instance ==> (Connected(connections, u, s) <==> Connected(old(connections), u, s))
    {
      hide SoundWorld, Traced;
      ghost var before := connections;
      if i: nat :| i < |connections| && connections[i].LiveFor(user, instance) {
        row, ok := i, !ServedElsewhere(connections, i, user, instance);
        if ok {
          connections := connections[i := connections[i].(status := Active)];
          assert connections[i].Serves(user, instance);
        }
      } else {
        row, ok := |connections|, true;
        connections := connections + [Connection(id, user, instance, Active)];
        assert connections[row].Serves(user, instance);
      }
      assert forall j :: 0 <= j < |before| && j != row ==> connections[j] == before[j];
      Mark(mine, Linking(row, id, user, instance));
    }

    method AddProject(p: Project, ghost mine: bool) returns (added: bool)
      requires Valid()
      modifies this
      ensures Performed(mine, Listing(p)) && added == (p !in old(allowlist))
    {
      hide SoundWorld, Traced;
      added := p !in allowlist;
      if added {
        allowlist := allowlist + [p];
      }
      Mark(mine, Listing(p));
    }

    /** Taking a project off the allowlist is one transaction: its enables and cached decisions go with it. */
    method RemoveProject(p: Project, ghost mine: bool)
      requires Valid()
      modifies this
      ensures Performed(mine, Delisting(p))
      ensures forall q :: q in allowlist <==> q in old(allowlist) && q != p
      ensures forall k :: k in enables <==> k in old(enables) && k.project != p
      ensures connections == old(connections)
      ensures Here().Cleaned(OfProject(p)) && Forgotten(log, |old(log)|, OfProject(p))
    {
      hide SoundWorld, Traced, Forgotten, Against, Effect, Learnt, Dropped;
      ghost var w := Dropped(Learnt(Here(), Cut(OfProject(p))), OfProject(p));
      allowlist := Without1(allowlist, p);
      enables := set k | k in enables && k.project != p;
      cache := Without(cache, OfProject(p));
      log, stale := w.log, w.stale;
      DelistingTouches(ttl, lag, past[|past| - 1], p);
      DelistingTakesAll(ttl, lag, past[|past| - 1], p);
      Mark(mine, Delisting(p));
    }

    /** So is closing a GitLab address, which a row of a connection prevents, whatever its status. */
    method RemoveInstance(instance: string, ghost mine: bool) returns (ok: bool)
      requires Valid()
      modifies this
      ensures Performed(mine, Closing(instance)) && ok == !InUse(old(connections), instance)
      ensures !ok ==> Here() == old(Here())
      ensures ok ==>
        && (forall q :: q in allowlist <==> q in old(allowlist) && q.instance != instance)
        && (forall k :: k in enables <==> k in old(enables) && k.project.instance != instance)
        && connections == old(connections)
        && Here().Cleaned(OfInstance(instance)) && Forgotten(log, |old(log)|, OfInstance(instance))
    {
      hide SoundWorld, Traced, Forgotten, Against, Effect, Learnt, Dropped;
      ok := !InUse(connections, instance);
      if ok {
        ghost var w := Dropped(Learnt(Here(), Cut(OfInstance(instance))), OfInstance(instance));
        allowlist := Elsewhere(allowlist, instance);
        enables := set k | k in enables && k.project.instance != instance;
        cache := Without(cache, OfInstance(instance));
        log, stale := w.log, w.stale;
        ClosingTakesAll(ttl, lag, past[|past| - 1], instance);
      }
      ClosingTouches(ttl, lag, past[|past| - 1], instance);
      Mark(mine, Closing(instance));
    }

    // ----- Everyone else -----

    /** One statement of a user's request, or of a sync run. */
    method UserStatement()
      requires Valid()
      modifies this
      ensures Did([])
    {
      hide Effect, SoundWorld, Traced;
      var kind: int := *;
      var k: Key := *;
      var scope: Scope := *;
      var granted: bool := *;
      var id: string := *;
      var status: ConnectionStatus := *;
      ghost var f: Fact := *;
      ghost var i: int := *;
      if kind == 0 {
        Learn(f);
      } else if kind == 1 {
        Drop(scope, false);
      } else if kind == 2 {
        Write(k, granted, i, false);
      } else if kind == 3 {
        Deny(k, false);
      } else if kind == 4 {
        SetEnable(k, false);
      } else if kind == 5 {
        ClearEnable(k, false);
      } else if kind == 6 {
        var ok := SetStatus(id, status, false);
      } else {
        var ok;
        ghost var row;
        ok, row := SaveRow(id, k.user, k.project.instance, false);
      }
    }

    /** An administrator changes the allowlists, or time passes. */
    method AdminStatement()
      requires Valid()
      modifies this
      ensures Did([])
    {
      hide Effect, SoundWorld, Traced;
      var kind: int := *;
      var p: Project := *;
      var until: Time := *;
      if kind == 0 {
        RemoveProject(p, false);
      } else if kind == 1 {
        var added := AddProject(p, false);
      } else if kind == 2 {
        var ok := RemoveInstance(p.instance, false);
      } else {
        Pass(until, false);
      }
    }

    method OthersAct()
      requires Valid()
      modifies this
      ensures Did([])
    {
      hide Effect, SoundWorld, Traced;
      var acts: int := *;
      for n := 0 to Max(acts, 0)
        invariant Did([])
      {
        var admin: bool := *;
        if admin {
          AdminStatement();
        } else {
          UserStatement();
        }
      }
    }

    // ----- Asking -----

    /** What fresh cache entries decide at this moment, and what is left to ask. */
    method LookUp(user: string, projects: seq<Project>)
      returns (verdicts: map<Project, Visibility>, toProbe: seq<Project>)
      requires NoRepeats(projects)
      ensures forall p :: p in projects <==> p in verdicts || p in toProbe
      ensures forall p :: p in verdicts ==> p !in toProbe
      ensures NoRepeats(toProbe)
      ensures forall p :: p in verdicts <==>
        p in projects && Key(user, p) in cache && cache[Key(user, p)].expiresAt > clock
      ensures forall p :: p in verdicts ==> verdicts[p] == if cache[Key(user, p)].allowed then Allowed else Hidden
    {
      verdicts, toProbe := map[], [];
      for i := 0 to |projects|
        invariant forall p :: p in projects[..i] <==> p in verdicts || p in toProbe
        invariant forall p :: p in verdicts ==> p !in toProbe
        invariant NoRepeats(toProbe)
        invariant forall p :: p in toProbe ==> !(Key(user, p) in cache && cache[Key(user, p)].expiresAt > clock)
        invariant forall p :: p in verdicts ==>
          && Key(user, p) in cache && cache[Key(user, p)].expiresAt > clock
          && verdicts[p] == if cache[Key(user, p)].allowed then Allowed else Hidden
      {
        var key := Key(user, projects[i]);
        assert projects[..i + 1] == projects[..i] + [projects[i]];
        if key in cache && cache[key].expiresAt > clock {
          verdicts := verdicts[projects[i] := if cache[key].allowed then Allowed else Hidden];
        } else {
          toProbe := toProbe + [projects[i]];
        }
      }
      assert projects[..|projects|] == projects;
    }

    /** A verdict from the cache holds at the moment of the lookup. */
    lemma Vouch(user: string, p: Project, answer: Probe, verdict: Visibility)
      requires Valid() && Key(user, p) in cache && cache[Key(user, p)].expiresAt > clock
      requires verdict == if cache[Key(user, p)].allowed then Allowed else Hidden
      ensures VerdictHolds(past, Moment(), Key(user, p), MaxAge(), answer, verdict)
      ensures FromCache(past, Moment(), Key(user, p), verdict)
    {
      var k := Key(user, p);
      var here := past[|past| - 1];
      if verdict.Allowed? {
        assert FreshGrant(here.cache, k, here.clock);
        if k in stale {
          assert here.Trusts(k);
        } else {
          assert Justified(log, k, cache[k], MaxAge());
          assert here.Backs(k, MaxAge());
        }
      } else {
        assert here.Denies(k);
      }
    }

    /** GitLab answers. */
    ghost method Hear(k: Key, answer: Probe)
      requires Valid()
      modifies this`log, this`stale, this`past, this`steps
      ensures Did([]) && Heard(log, |old(log)|, k, answer, |old(log)|)
      ensures answer.Visible? ==> OnceBacked(past, old(Moment()), k, MaxAge())
    {
      hide SoundWorld, Traced, Effect, OnceBacked, Learnt;
      ghost var before := Here();
      if answer.Visible? {
        Learn(Granted(k, clock));
        EffectOfSaying(ttl, lag, before, Granted(k, before.clock));
        JustBacked(past, |old(past)| - 1, k, MaxAge());
      } else if answer.Denied? {
        Learn(Refused(k, clock));
      }
    }

    /** An answer as it comes in. Returns where it stands in the log. */
    method Ask(user: string, p: Project, answer: Replies) returns (ghost at: int)
      requires Valid() && !answer(p).Throws()
      modifies this
      ensures Did([]) && Heard(log, |old(log)|, Key(user, p), answer(p), at)
      ensures answer(p).Visible? ==> OnceBacked(past, old(Moment()), Key(user, p), MaxAge())
    {
      hide SoundWorld, Traced, Effect, OnceBacked;
      OthersAct();
      at := |log|;
      ghost var k, then' := Key(user, p), Moment();
      Hear(k, answer(p));
      ghost var heard := past;
      OthersAct();
      if answer(p).Visible? {
        BackedOnce(heard, past, then', |old(past)| - 1, k, MaxAge());
      }
    }

    /** The answers of a batch that nothing rejected, as they come in. */
    method AskAll(user: string, toProbe: seq<Project>, answer: Replies) returns (ghost at: map<Project, int>)
      requires Valid() && forall p :: p in toProbe ==> !answer(p).Throws()
      modifies this
      ensures Did([])
      ensures forall p :: p in toProbe ==> p in at && Heard(log, |old(log)|, Key(user, p), answer(p), at[p])
      ensures forall p :: p in toProbe && answer(p).Visible? ==> OnceBacked(past, old(Moment()), Key(user, p), MaxAge())
    {
      hide OnceBacked, SoundWorld, Traced;
      ghost var from := Moment();
      at := map[];
      for i := 0 to |toProbe|
        invariant Did([])
        invariant forall p :: p in toProbe[..i] ==> p in at && Heard(log, |old(log)|, Key(user, p), answer(p), at[p])
        invariant forall p :: p in toProbe[..i] && answer(p).Visible? ==> OnceBacked(past, from, Key(user, p), MaxAge())
      {
        assert toProbe[..i + 1] == toProbe[..i] + [toProbe[i]];
        ghost var before, mid := past, Moment();
        ghost var index := Ask(user, toProbe[i], answer);
        forall p | p in toProbe[..i] && answer(p).Visible? ensures OnceBacked(past, from, Key(user, p), MaxAge()) {
          BackedOnce(before, past, from, from, Key(user, p), MaxAge());
        }
        if answer(toProbe[i]).Visible? {
          BackedOnce(past, past, mid, from, Key(user, toProbe[i]), MaxAge());
        }
        at := at[toProbe[i] := index];
      }
      assert toProbe[..|toProbe|] == toProbe;
    }

    /** One answer is written, unless the write fails; it may also seem to. */
    method WriteAnswer(k: Key, granted: bool, mayFail: bool, ghost probe: int)
      returns (done: bool, ghost did: seq<Stmt>)
      requires Valid()
      modifies this
      ensures Did(did) && did <= [Writing(k, granted, probe)]
      ensures if done then did != [] else mayFail
    {
      hide SoundWorld, Effect, Traced;
      OthersAct();
      var fails: bool := *;
      if mayFail && fails {
        return false, [];
      }
      Write(k, granted, probe, true);
      var unseen: bool := *;
      return !(mayFail && unseen), [Writing(k, granted, probe)];
    }

    /**
     * Each answer is cached as it was given; an unanswered probe is reported
     * unknown and not written. A failing write ends it, whether or not it was done.
     */
    method WriteBack(user: string, toProbe: seq<Project>, answer: Replies, mayFail: bool, ghost at: map<Project, int>)
      returns (verdicts: map<Project, Visibility>, ghost asked: seq<Project>, ghost did: seq<Stmt>, done: bool)
      requires Valid() && NoRepeats(toProbe) && forall p :: p in toProbe ==> p in at
      modifies this
      ensures Did(did) && Kept(user, asked, answer, at, did) && asked <= toProbe
      ensures if done then asked == toProbe else mayFail
      ensures done ==> forall p :: p in verdicts <==> p in toProbe
      ensures done ==> forall p :: p in toProbe ==> verdicts[p] == VerdictOf(answer(p))
    {
      hide SoundWorld, Effect, Traced, Own, Answered, Writes;
      verdicts, asked, did, done := map[], [], [], true;
      NothingKept(user, answer, at);
      for i := 0 to |toProbe|
        invariant done && asked == toProbe[..i]
        invariant Did(did) && Kept(user, asked, answer, at, did)
        invariant forall p :: p in verdicts <==> p in toProbe[..i]
        invariant forall p :: p in verdicts ==> verdicts[p] == VerdictOf(answer(p))
      {
        var p := toProbe[i];
        assert toProbe[..i + 1] == toProbe[..i] + [p];
        KeptMore(user, asked, p, answer, at, did);
        if !answer(p).Failure? {
          ghost var more;
          done, more := WriteAnswer(Key(user, p), answer(p).Visible?, mayFail, at[p]);
          AddUp(Own(old(steps)), did, more);
          did := did + more;
          if !done {
            return verdicts, if more == [] then asked else asked + [p], did, false;
          }
        }
        asked, verdicts := asked + [p], verdicts[p := VerdictOf(answer(p))];
      }
      assert toProbe[..|toProbe|] == toProbe;
    }

    /** A batch: all answers first, then the writes. */
    method ProbeAndWrite(user: string, toProbe: seq<Project>, answer: Replies, mayFail: bool)
      returns (verdicts: map<Project, Visibility>, ghost asked: seq<Project>, ghost at: map<Project, int>,
               ghost did: seq<Stmt>, done: bool)
      requires Valid() && NoRepeats(toProbe) && forall p :: p in toProbe ==> !answer(p).Throws()
      modifies this
      ensures Did(did) && Kept(user, asked, answer, at, did) && asked <= toProbe
      ensures forall p :: p in toProbe ==> p in at && Heard(log, |old(log)|, Key(user, p), answer(p), at[p])
      ensures if done then asked == toProbe else mayFail
      ensures done ==> forall p :: p in verdicts <==> p in toProbe
      ensures done ==> forall p :: p in toProbe ==>
        && verdicts[p] == VerdictOf(answer(p))
        && VerdictHolds(past, old(Moment()), Key(user, p), MaxAge(), answer(p), verdicts[p])
    {
      hide OnceBacked, SoundWorld, Traced, Kept;
      ghost var from := Moment();
      at := AskAll(user, toProbe, answer);
      ghost var heard := past;
      verdicts, asked, did, done := WriteBack(user, toProbe, answer, mayFail, at);
      forall p | p in toProbe && answer(p).Visible? ensures OnceBacked(past, from, Key(user, p), MaxAge()) {
        BackedOnce(heard, past, from, from, Key(user, p), MaxAge());
      }
    }

    /** Cached decisions of a user and instance are dropped at last; this, too, may fail, or seem to. */
    method CleanUp(user: string, instance: string, mayFail: bool) returns (done: bool, ghost did: seq<Stmt>)
      requires Valid()
      modifies this
      ensures Did(did) && did <= [Dropping(OfUserInstance(user, instance))]
      ensures !done ==> mayFail
      ensures done ==> did != [] && OnceCleaned(past, old(Moment()), OfUserInstance(user, instance))
    {
      hide SoundWorld, Traced, Effect;
      OthersAct();
      var fails: bool := *;
      if mayFail && fails {
        return false, [];
      }
      Drop(OfUserInstance(user, instance), true);
      assert past[|past| - 1].Cleaned(OfUserInstance(user, instance));
      var unseen: bool := *;
      return !(mayFail && unseen), [Dropping(OfUserInstance(user, instance))];
    }

    /** The token was refused: its credential goes, then the connection, then the cached decisions. */
    method HandleUnauthorized(c: Connection, mayFail: bool) returns (whole: bool, ghost did: seq<Stmt>)
      requires Valid()
      modifies this
      ensures Did(did) && did <= GivingUp(c, Invalid)
      ensures Forgotten(log, |old(log)|, OfUserInstance(c.user, c.instance))
      ensures !whole ==> mayFail
      ensures whole ==>
        && did == GivingUp(c, Invalid) && OnceStatus(past, old(Moment()), c.id, Invalid)
        && OnceCleaned(past, old(Moment()), OfUserInstance(c.user, c.instance))
    {
      whole, did := GiveUpToken(c, Invalid, mayFail);
    }

    /** What the token showed before does not count from now on; then the connection says so. */
    method Distrust(c: Connection, status: ConnectionStatus, mayFail: bool) returns (done: bool, ghost did: seq<Stmt>)
      requires Valid() && !status.Active?
      modifies this
      ensures Did(did) && did <= [Setting(c.id, status)]
      ensures Forgotten(log, |old(log)|, OfUserInstance(c.user, c.instance))
      ensures !done ==> mayFail
      ensures done ==> did != [] && OnceStatus(past, old(Moment()), c.id, status)
    {
      hide SoundWorld, Traced, Forgotten, OnceStatus, Effect;
      ghost var from, scope, before := Moment(), OfUserInstance(c.user, c.instance), Here();
      Learn(Cut(scope));
      EffectOfSaying(ttl, lag, before, Cut(scope));
      CutForgets(log, |old(log)|, scope);
      ghost var learnt := log;
      OthersAct();
      StaysForgotten(learnt, log, |old(log)|, scope);
      var fails: bool := *;
      if mayFail && fails {
        return false, [];
      }
      learnt := log;
      Deactivate(c.id, status, from);
      StaysForgotten(learnt, log, |old(log)|, scope);
      var unseen: bool := *;
      return !(mayFail && unseen), [Setting(c.id, status)];
    }

    /** No index keeps a connection from becoming inactive. */
    method Deactivate(id: string, status: ConnectionStatus, ghost from: int)
      requires Valid() && !status.Active? && from <= Moment()
      modifies this
      ensures Did([Setting(id, status)]) && OnceStatus(past, from, id, status)
    {
      hide SoundWorld, Traced, OnceStatus, Effect, OneActive;
      IndexHolds();
      ghost var now := Here();
      var ok := SetStatus(id, status, true);
      InactiveIsOnce(ttl, lag, now, past, from, id, status);
    }

    lemma IndexHolds()
      requires Valid()
      ensures OneActive(connections) && NoRepeats(allowlist)
    {
    }

    /**
     * From the first moment on no earlier probe of the user and instance counts;
     * the statements follow in order, as far as none fails.
     */
    method GiveUpToken(c: Connection, status: ConnectionStatus, mayFail: bool)
      returns (whole: bool, ghost did: seq<Stmt>)
      requires Valid() && !status.Active?
      modifies this
      ensures Did(did) && did <= GivingUp(c, status)
      ensures Forgotten(log, |old(log)|, OfUserInstance(c.user, c.instance))
      ensures !whole ==> mayFail
      ensures whole ==>
        && did == GivingUp(c, status) && OnceStatus(past, old(Moment()), c.id, status)
        && OnceCleaned(past, old(Moment()), OfUserInstance(c.user, c.instance))
    {
      hide SoundWorld, Traced, Forgotten, OnceCleaned, OnceStatus, Effect, Own;
      ghost var from, scope := Moment(), OfUserInstance(c.user, c.instance);
      whole, did := Distrust(c, status, mayFail);
      if whole {
        ghost var learnt, at, marked := log, Moment(), past;
        ghost var more;
        whole, more := CleanUp(c.user, c.instance, mayFail);
        AddUp(Own(old(steps)), did, more);
        did := did + more;
        StaysForgotten(learnt, log, |old(log)|, scope);
        StatusStays(marked, past, from, c.id, status);
        if whole {
          CleanedOnce(past, at, from, scope);
        }
      }
    }

    /** A token given up as a whole. */
    twostate predicate GaveUp(c: Connection, did: seq<Stmt>)
      reads this
    {
      && did == GivingUp(c, Invalid) && Forgotten(log, |old(log)|, OfUserInstance(c.user, c.instance))
      && OnceStatus(past, old(Moment()), c.id, Invalid)
      && OnceCleaned(past, old(Moment()), OfUserInstance(c.user, c.instance))
    }

    /**
     * Asks for these projects, after reading the token: one that GitLab refuses
     * is given up, and anything else that breaks the batch off changes nothing.
     */
    method Probe(c: Connection, toProbe: seq<Project>, answer: Replies, mayFail: bool)
      returns (r: Resolution, ghost asked: seq<Project>, ghost at: map<Project, int>, ghost did: seq<Stmt>)
      requires Valid() && NoRepeats(toProbe)
      modifies this
      ensures Did(did) && asked <= toProbe
      ensures forall p :: p in asked ==>
        !answer(p).Throws() && p in at && Heard(log, |old(log)|, Key(c.user, p), answer(p), at[p])
      ensures Kept(c.user, asked, answer, at, did) || (r.Rejected? && CutShort(c, toProbe, answer, asked, did))
      ensures r.Resolved? ==>
        && asked == toProbe && Kept(c.user, asked, answer, at, did)
        && (forall p :: p in r.verdicts <==> p in toProbe)
        && (forall p :: p in toProbe ==>
              && r.verdicts[p] == VerdictOf(answer(p))
              && VerdictHolds(past, old(Moment()), Key(c.user, p), MaxAge(), answer(p), r.verdicts[p]))
      ensures r.Rejected? ==> Excused(toProbe, answer, mayFail, r.refused) && (r.refused ==> GaveUp(c, did))
    {
      hide VerdictHolds, SoundWorld, Traced, Kept, Own, Effect, Heard, OnceStatus, OnceCleaned, Forgotten;
      NothingKept(c.user, answer, map[]);
      asked, at, did := [], map[], [];
      var fails: bool := *;
      if mayFail && fails {
        return Rejected(false), asked, at, did;
      }
      if i: nat :| i < |toProbe| && answer(toProbe[i]).Throws() {
        assert toProbe[i] in toProbe;
        var whole := false;
        if answer(toProbe[i]).Unauthorized? {
          whole, did := HandleUnauthorized(c, mayFail);
        }
        return Rejected(whole), asked, at, did;
      }
      var verdicts, done;
      verdicts, asked, at, did, done := ProbeAndWrite(c.user, toProbe, answer, mayFail);
      return if done then Resolved(verdicts) else Rejected(false), asked, at, did;
    }

    /**
     * Verdicts for some projects of one connection: fresh cache entries first,
     * probes for the rest, while others act throughout. Each verdict says
     * something about a moment of this request. What was asked and answered is
     * cached as it was answered, and nothing else is written.
     */
    method ResolveVisibility(c: Connection, projects: seq<Project>, answer: Replies, mayFail: bool)
      returns (r: Resolution, ghost asked: seq<Project>, ghost at: map<Project, int>, ghost did: seq<Stmt>)
      requires Valid() && NoRepeats(projects)
      modifies this
      ensures Did(did) && NoRepeats(asked)
      ensures forall p :: p in asked ==>
        p in projects && !answer(p).Throws() && p in at && Heard(log, |old(log)|, Key(c.user, p), answer(p), at[p])
      ensures Kept(c.user, asked, answer, at, did) || (r.Rejected? && CutShort(c, projects, answer, asked, did))
      ensures r.Resolved? ==>
        && Kept(c.user, asked, answer, at, did)
        && (forall p :: p in projects <==> p in r.verdicts)
        && (forall p :: p in projects ==>
              VerdictHolds(past, old(Moment()), Key(c.user, p), MaxAge(), answer(p), r.verdicts[p]))
        && (forall p :: p in projects ==>
              if p in asked then r.verdicts[p] == VerdictOf(answer(p))
              else FromCache(past, old(Moment()), Key(c.user, p), r.verdicts[p]))
        && (forall s :: s in did ==>
              s.Writing? && s.key.user == c.user && s.key.project in projects && !r.verdicts[s.key.project].Unknown?)
      ensures r.Rejected? ==>
        projects != [] && Excused(projects, answer, mayFail, r.refused) && (r.refused ==> GaveUp(c, did))
    {
      hide VerdictHolds, FromCache, SoundWorld, Traced, Kept, Own, Effect, Heard, OnceStatus, OnceCleaned, Forgotten;
      ghost var from := Moment();
      NothingKept(c.user, answer, map[]);
      asked, at, did := [], map[], [];
      if |projects| == 0 {
        return Resolved(map[]), asked, at, did;
      }
      OthersAct();
      var fails: bool := *;
      if mayFail && fails {
        return Rejected(false), asked, at, did;
      }
      var known, toProbe := LookUp(c.user, projects);
      ghost var looked, now := past, Moment();
      forall p | p in known
        ensures VerdictHolds(looked, now, Key(c.user, p), MaxAge(), answer(p), known[p])
        ensures FromCache(looked, now, Key(c.user, p), known[p])
      {
        Vouch(c.user, p, answer(p), known[p]);
      }
      if |toProbe| == 0 {
        Combine(looked, past, from, now, c.user, projects, known, map[], [], answer);
        return Resolved(known), asked, at, did;
      }
      OthersAct();
      ghost var later, said := Moment(), |log|;
      r, asked, at, did := Probe(c, toProbe, answer, mayFail);
      HeardSince(log, |old(log)|, said, c.user, asked, answer, at);
      if r.Rejected? {
        if r.refused {
          FewerForgotten(log, |old(log)|, OfUserInstance(c.user, c.instance));
          CleanedOnce(past, later, from, OfUserInstance(c.user, c.instance));
          StatusOnce(past, later, from, c.id, Invalid);
        }
        return;
      }
      forall p | p in toProbe
        ensures VerdictHolds(past, from, Key(c.user, p), MaxAge(), answer(p), r.verdicts[p])
      {
        VerdictStillHolds(past, past, later, from, Key(c.user, p), MaxAge(), answer(p), r.verdicts[p]);
      }
      Combine(looked, past, from, now, c.user, projects, known, r.verdicts, asked, answer);
      KeptIsAnswered(c.user, asked, answer, at, did);
      r := Resolved(known + r.verdicts);
    }

    /** What the cache said still holds when the probes are through. */
    lemma Combine(looked: seq<World>, later: seq<World>, from: int, now: int, user: string, projects: seq<Project>,
                  known: map<Project, Visibility>, probed: map<Project, Visibility>, asked: seq<Project>,
                  answer: Replies)
      requires looked <= later && from <= now
      requires forall p :: p in probed <==> p in asked
      requires forall p :: p in projects <==> p in known || p in probed
      requires forall p :: p in known ==> p !in probed
      requires forall p :: p in known ==>
        && VerdictHolds(looked, now, Key(user, p), MaxAge(), answer(p), known[p])
        && FromCache(looked, now, Key(user, p), known[p])
      requires forall p :: p in probed ==> VerdictHolds(later, from, Key(user, p), MaxAge(), answer(p), probed[p])
      ensures forall p :: p in projects ==>
        && VerdictHolds(later, from, Key(user, p), MaxAge(), answer(p), (known + probed)[p])
        && (p !in asked ==> FromCache(later, from, Key(user, p), (known + probed)[p]))
    {
      hide VerdictHolds, FromCache;
      forall p | p in known
        ensures VerdictHolds(later, from, Key(user, p), MaxAge(), answer(p), known[p])
        ensures FromCache(later, from, Key(user, p), known[p])
      {
        VerdictStillHolds(looked, later, now, from, Key(user, p), MaxAge(), answer(p), known[p]);
        StillFromCache(looked, later, now, from, Key(user, p), known[p]);
      }
    }

    // ----- Listing -----

    /** The items of one connection: all its allowlisted projects, or the same marked as failed. */
    method ListInstance(c: Connection, projects: seq<Project>, enabled: set<Key>, answer: Replies, faults: Faults,
                        ghost from: int)
      returns (items: seq<Item>, ghost did: seq<Stmt>)
      requires Valid() && NoRepeats(projects) && 0 <= from <= Moment() && OnceServed(past, from, c)
      requires forall p :: p in projects ==>
        && p.instance == c.instance && OnceAllowed(past, from, p) && OnceConnected(past, from, c.user, p.instance)
        && (if Key(c.user, p) in enabled then OnceEnabled(past, from, Key(c.user, p))
            else OnceDisabled(past, from, Key(c.user, p)))
      modifies this
      ensures Did(did) && Honest(past, from, c.user, answer, did)
      ensures |items| == |projects|
      ensures forall i :: 0 <= i < |items| ==>
        items[i].project == projects[i] && ItemHolds(past, from, c.user, MaxAge(), faults, answer, items[i])
    {
      hide VerdictHolds, FromCache, Kept, GaveUp, SoundWorld, Traced, ItemHolds, MayReject, Excused, Heard;
      hide CutShort, Honest, OnceAllowed, OnceConnected, OnceEnabled, OnceDisabled;
      ghost var before, at := past, Moment();
      var r;
      ghost var asked, heard;
      r, asked, heard, did := ResolveVisibility(c, projects, answer, c.id in faults.asking);
      items := ItemsOf(c.user, projects, enabled, r);
      ResolvedHonestly(before, past, from, c, projects, asked, answer, heard, did);
      if r.Rejected? {
        RejectedForAReason(before, past, from, c, projects, faults, answer, r.refused);
      }
      forall i | 0 <= i < |items| ensures ItemHolds(past, from, c.user, MaxAge(), faults, answer, items[i]) {
        var p := projects[i];
        assert p in projects;
        var verdict := if r.Rejected? then Unknown else r.verdicts[p];
        if r.Resolved? {
          VerdictStillHolds(past, past, at, from, Key(c.user, p), MaxAge(), answer(p), verdict);
        }
        MakesItem(before, past, from, c.user, MaxAge(), faults, answer, items[i], r.Rejected?, verdict);
      }
    }

    static method ItemsOf(user: string, projects: seq<Project>, enabled: set<Key>, r: Resolution)
      returns (items: seq<Item>)
      requires r.Resolved? ==> forall p :: p in projects ==> p in r.verdicts
      ensures |items| == |projects|
      ensures forall i :: 0 <= i < |items| ==>
        var verdict := if r.Rejected? then Unknown else r.verdicts[projects[i]];
        items[i] == Item(projects[i], verdict.Allowed?, Key(user, projects[i]) in enabled, verdict.Unknown?)
    {
      items := [];
      for i := 0 to |projects|
        invariant |items| == i
        invariant forall j :: 0 <= j < i ==>
          var verdict := if r.Rejected? then Unknown else r.verdicts[projects[j]];
          items[j] == Item(projects[j], verdict.Allowed?, Key(user, projects[j]) in enabled, verdict.Unknown?)
      {
        assert projects[i] in projects;
        var verdict := if r.Rejected? then Unknown else r.verdicts[projects[i]];
        items := items + [Item(projects[i], verdict.Allowed?, Key(user, projects[i]) in enabled, verdict.Unknown?)];
      }
    }


    /** The rows a list starts from, read one table after the other. */
    method ReadRows(mayFail: bool) returns (ok: bool, conns: seq<Connection>, allowed: seq<Project>, enabled: set<Key>)
      requires Valid()
      modifies this
      ensures Did([]) && (!ok ==> mayFail)
      ensures OneActive(conns) && NoRepeats(allowed) && RowsRead(past, old(Moment()), conns, allowed, enabled)
    {
      hide SoundWorld, Traced;
      OthersAct();
      IndexHolds();
      conns := connections;
      ghost var first, read := Moment(), past;
      OthersAct();
      IndexHolds();
      allowed := allowlist;
      ghost var second, found := Moment(), past;
      OthersAct();
      enabled := enables;
      assert past[first] == read[first] && past[second] == found[second];
      assert past[first].connections == conns && past[second].allowlist == allowed
             && past[|past| - 1].enables == enabled;
      var fails: bool := *;
      ok := !(mayFail && fails);
    }

    /** One connection's part of a list; keeping a display path in step may fail the whole list. */
    method ListConnection(c: Connection, allowed: seq<Project>, enabled: set<Key>, answer: Replies, faults: Faults,
                          ghost from: int, ghost conns: seq<Connection>, ghost n: nat)
      returns (ok: bool, items: seq<Item>, ghost did: seq<Stmt>)
      requires Valid() && NoRepeats(allowed) && 0 <= from <= Moment()
      requires n < |conns| && conns[n] == c && c.Serves(c.user, c.instance)
      requires RowsRead(past, from, conns, allowed, enabled)
      modifies this
      ensures Did(did) && Honest(past, from, c.user, answer, did) && (!ok ==> faults.tables)
      ensures var projects := OnInstance(allowed, c.instance);
              && |items| == |projects|
              && forall i :: 0 <= i < |items| ==>
                   items[i].project == projects[i] && ItemHolds(past, from, c.user, MaxAge(), faults, answer, items[i])
    {
      hide SoundWorld, Traced, RowsRead, Honest, ItemHolds, OnceAllowed, OnceConnected, OnceEnabled, OnceDisabled;
      var projects := OnInstance(allowed, c.instance);
      OnInstanceDistinct(allowed, c.instance);
      RowsSay(past, from, conns, allowed, enabled, c.user, c.instance);
      RowsServe(past, from, conns, allowed, enabled, n);
      items, did := ListInstance(c, projects, enabled, answer, faults, from);
      var fails: bool := *;
      ok := !(faults.tables && fails);
    }

    /**
     * Every project that was allowlisted when the list was begun, for every
     * connection that was active then, each once; others act throughout. The
     * connections fail one by one: what one of them cannot answer is marked.
     * There is no list only if a table could not be read or written. By moment
     * `read` all rows were read, and the request had done nothing yet itself.
     */
    method ListForUser(user: string, answer: Replies, faults: Faults)
      returns (r: Option<seq<Item>>, ghost did: seq<Stmt>, ghost read: nat)
      requires Valid()
      modifies this
      ensures |old(steps)| <= read <= |steps| && Own(steps[..read]) == Own(old(steps))
      ensures Did(did) && Honest(past, old(Moment()), user, answer, did)
      ensures r.None? ==> faults.tables
      ensures r.Some? ==>
        && (forall i, j :: 0 <= i < j < |r.value| ==> r.value[i].project != r.value[j].project)
        && (forall it :: it in r.value ==> ItemHolds(past, old(Moment()), user, MaxAge(), faults, answer, it))
        && forall p ::
             (exists it :: it in r.value && it.project == p)
             || OnceDelisted(past[..read + 1], old(Moment()), p)
             || OnceDisconnected(past[..read + 1], old(Moment()), user, p.instance)
    {
      hide ItemHolds, SoundWorld, Traced, RowsRead, OnceAllowed, OnceConnected, OnceEnabled, OnceDisabled, OnceDelisted;
      hide OnceDisconnected, Honest, Own;
      ghost var from := Moment();
      did := [];
      StepsAreMoments();
      var ok, conns, allowed, enabled := ReadRows(faults.tables);
      StepsAreMoments();
      NothingIsHonest(past, from, user, answer);
      read := |steps|;
      assert steps[..read] == steps;
      if !ok {
        return None, did, read;
      }
      ghost var rows, made := past, steps;
      var items := [];
      for n := 0 to |conns|
        invariant Did(did) && rows <= past && made <= steps && Honest(past, from, user, answer, did)
        invariant ListsSoFar(past, from, user, MaxAge(), conns[..n], allowed, faults, answer, items)
      {
        var c := conns[n];
        assert conns[..n + 1] == conns[..n] + [c];
        if c.user == user && c.status.Active? {
          NotYetConnected(conns, n, user);
          RowsStillRead(rows, past, from, conns, allowed, enabled);
          ghost var before := past;
          var more;
          ghost var done;
          ok, more, done := ListConnection(c, allowed, enabled, answer, faults, from, conns, n);
          HonestTogether(before, past, from, user, answer, did, done);
          AddUp(Own(old(steps)), did, done);
          did := did + done;
          if !ok {
            assert steps[..read] == made;
            return None, did, read;
          }
          ListsOneMore(before, past, from, user, MaxAge(), conns[..n], c, allowed, faults, answer, items, more);
          items := items + more;
        } else {
          ListsNoMore(past, from, user, MaxAge(), conns[..n], c, allowed, faults, answer, items);
        }
      }
      assert conns[..|conns|] == conns;
      assert steps[..read] == made && past[..read + 1] == rows;
      forall p ensures (exists it :: it in items && it.project == p)
                    || OnceDelisted(rows, from, p) || OnceDisconnected(rows, from, user, p.instance)
      {
        RowsSay(rows, from, conns, allowed, enabled, user, p.instance);
      }
      r := Some(items);
    }

    /**
     * The projects whose data a user may see, decided while others act. Each one
     * was, at some moment since the request began, allowlisted, enabled by that
     * user, connected, and backed by a young probe that nothing had contradicted
     * by then, unless its cached grant was stale. And whatever was allowlisted,
     * enabled and connected all the time, and GitLab shows, is among them, unless
     * the cache denied it, or an active connection of the user to that instance
     * could not be asked, or GitLab's answer about an allowlisted project of that
     * instance broke the batch off.
     */
    method AuthorizedProjectIds(user: string, answer: Replies, faults: Faults)
      returns (r: Option<seq<Project>>, ghost did: seq<Stmt>, ghost read: nat)
      requires Valid()
      modifies this
      ensures |old(steps)| <= read <= |steps| && Own(steps[..read]) == Own(old(steps))
      ensures Did(did) && Honest(past, old(Moment()), user, answer, did)
      ensures r.None? ==> faults.tables
      ensures r.Some? ==> NoRepeats(r.value)
      ensures r.Some? ==> forall p :: p in r.value ==>
        Entitled(past, old(Moment()), user, p, MaxAge(), answer) && OnceEnabled(past, old(Moment()), Key(user, p))
      ensures r.Some? ==> forall p ::
        answer(p).Visible? && !OnceDenied(past, old(Moment()), Key(user, p))
        && !OnceDelisted(past[..read + 1], old(Moment()), p)
        && !OnceDisconnected(past[..read + 1], old(Moment()), user, p.instance)
        && !OnceDisabled(past, old(Moment()), Key(user, p))
        && !MayReject(past, old(Moment()), user, p.instance, faults, answer)
        ==> p in r.value
    {
      hide SoundWorld, Traced, OnceAllowed, OnceConnected, OnceEnabled, OnceDisabled, OnceBacked, OnceTrusted;
      hide OnceDelisted, OnceDisconnected, OnceDenied, OnceGranted, MayReject, Honest;
      var list;
      list, did, read := ListForUser(user, answer, faults);
      if list.None? {
        return None, did, read;
      }
      var ids := Chosen(list.value);
      r := Some(ids);
    }

    /** The enabled and visible ones, in order. */
    static method Chosen(items: seq<Item>) returns (ids: seq<Project>)
      requires forall i, j :: 0 <= i < j < |items| ==> items[i].project != items[j].project
      ensures NoRepeats(ids)
      ensures forall p :: p in ids <==>
        exists it :: it in items && it.project == p && it.enabled && it.visible && !it.failed
    {
      ids := [];
      for k := 0 to |items|
        invariant NoRepeats(ids)
        invariant forall p :: p in ids <==>
          exists i :: 0 <= i < k && items[i].project == p && items[i].enabled && items[i].visible && !items[i].failed
      {
        if items[k].enabled && items[k].visible && !items[k].failed {
          assert items[k].project !in ids;
          ids := ids + [items[k].project];
        }
      }
    }

    // ----- What users and administrators do -----

    /** The project is on the allowlist, and the user has an active connection to its instance. */
    method MayEnable(user: string, p: Project, mayFail: bool) returns (may: bool, conn: Connection)
      requires Valid()
      modifies this
      ensures Did([])
      ensures may ==>
        && conn.Serves(user, p.instance) && OnceServed(past, old(Moment()), conn)
        && OnceAllowed(past, old(Moment()), p) && OnceConnected(past, old(Moment()), user, p.instance)
      ensures may || mayFail || OnceDelisted(past, old(Moment()), p)
              || OnceDisconnected(past, old(Moment()), user, p.instance)
    {
      hide SoundWorld, Traced;
      may, conn := false, Connection("", user, p.instance, Deleted);
      OthersAct();
      var fails: bool := *;
      if mayFail && fails {
        return;
      }
      ghost var first, read := Moment(), past;
      assert past[first].allowlist == allowlist;
      if p !in allowlist {
        return;
      }
      OthersAct();
      assert past[first] == read[first];
      assert past[|past| - 1].connections == connections;
      if i: nat :| i < |connections| && connections[i].Serves(user, p.instance) {
        may, conn := true, connections[i];
      } else {
        assert !Connected(connections, user, p.instance);
      }
    }

    /**
     * Enabling asks for the allowlist, an active connection and a visible project,
     * one after the other, and is refused for one of these reasons only. `enabled`
     * says whether the enable was written, which a failing call may hide.
     */
    method Enable(user: string, p: Project, answer: Replies, faults: Faults)
      returns (ok: bool, ghost did: seq<Stmt>, ghost enabled: bool, ghost read: nat)
      requires Valid()
      modifies this
      ensures |old(steps)| <= read <= |steps| && Own(steps[..read]) == Own(old(steps))
      ensures Did(did + (if enabled then [Enabling(Key(user, p))] else []))
      ensures Honest(past, old(Moment()), user, answer, did)
      ensures ok ==> enabled
      ensures enabled ==>
        Entitled(past, old(Moment()), user, p, MaxAge(), answer) && OnceEnabled(past, old(Moment()), Key(user, p))
      ensures ok || faults.tables || OnceDelisted(past[..read + 1], old(Moment()), p)
           || OnceDisconnected(past[..read + 1], old(Moment()), user, p.instance)
           || OnceDenied(past, old(Moment()), Key(user, p)) || !answer(p).Visible?
           || MayReject(past, old(Moment()), user, p.instance, faults, answer)
    {
      hide SoundWorld, Traced, Honest, MayReject, FromCache, Kept, CutShort, Excused, GaveUp, Heard, Own;
      hide OnceAllowed, OnceConnected, OnceDelisted, OnceDisconnected, OnceBacked, OnceTrusted, OnceDenied, OnceGranted;
      hide Effect, OnceEnabled, Entitled, OnceServed, VerdictHolds;
      ghost var from, k := Moment(), Key(user, p);
      ok, did, enabled := false, [], false;
      StepsAreMoments();
      var may, conn := MayEnable(user, p, faults.tables);
      StepsAreMoments();
      NothingIsHonest(past, from, user, answer);
      read := |steps|;
      ghost var made := steps;
      assert steps[..read] == made && past[..read + 1] == past;
      if !may {
        return;
      }
      ghost var before, at := past, Moment();
      var r;
      ghost var asked, heard;
      r, asked, heard, did := ResolveVisibility(conn, [p], answer, conn.id in faults.asking);
      assert p in [p];
      assert steps[..read] == made;
      ResolvedHonestly(before, past, from, conn, [p], asked, answer, heard, did);
      if r.Rejected? {
        RejectedForAReason(before, past, from, conn, [p], faults, answer, r.refused);
        return;
      }
      VerdictStillHolds(past, past, at, from, k, MaxAge(), answer(p), r.verdicts[p]);
      NotAllowedForAReason(past, from, k, MaxAge(), answer(p), r.verdicts[p]);
      if !r.verdicts[p].Allowed? {
        return;
      }
      AllowedIsEntitled(before, past, from, user, p, MaxAge(), answer);
      ghost var resolved, did' := past, did;
      ok, enabled := StoreEnable(Key(user, p), faults.tables);
      AddUp(Own(old(steps)), did', if enabled then [Enabling(k)] else []);
      assert steps[..read] == made;
      StillHonest(resolved, past, from, user, answer, did);
      StillEntitled(resolved, past, from, user, p, MaxAge(), answer);
      EnabledOnce(past, |resolved| - 1, from, k);
    }

    method StoreEnable(k: Key, mayFail: bool) returns (ok: bool, ghost enabled: bool)
      requires Valid()
      modifies this
      ensures Did(if enabled then [Enabling(k)] else [])
      ensures ok ==> enabled
      ensures enabled ==> OnceEnabled(past, old(Moment()), k)
      ensures !ok ==> mayFail
    {
      hide SoundWorld, Traced;
      OthersAct();
      var fails: bool := *;
      if mayFail && fails {
        return false, false;
      }
      SetEnable(k, true);
      assert k in past[|past| - 1].enables;
      var unseen: bool := *;
      return !(mayFail && unseen), true;
    }

    /**
     * Disabling takes the enable back, and no earlier probe counts from then on;
     * the cached decision goes last. Each step is taken unless one before it fails.
     */
    method Disable(user: string, p: Project, mayFail: bool) returns (whole: bool, ghost did: seq<Stmt>)
      requires Valid()
      modifies this
      ensures Did(did) && did <= [Disabling(Key(user, p)), Dropping(OfKey(Key(user, p)))]
      ensures if whole then |did| == 2 else mayFail
      ensures did != [] ==>
        OnceDisabled(past, old(Moment()), Key(user, p)) && Forgotten(log, |old(log)|, OfKey(Key(user, p)))
      ensures |did| == 2 ==> OnceCleaned(past, old(Moment()), OfKey(Key(user, p)))
    {
      hide SoundWorld, Traced, Forgotten, Effect, Own;
      ghost var k, scope := Key(user, p), OfKey(Key(user, p));
      did := [];
      OthersAct();
      var fails: bool := *;
      if mayFail && fails {
        return false, did;
      }
      ghost var said, before := log, Here();
      ClearEnable(Key(user, p), true);
      DisablingForgets(ttl, lag, before, k);
      did := [Disabling(k)];
      ghost var at := Moment();
      assert k !in past[at].enables;
      FewerForgotten(log, |old(log)|, scope);
      ghost var learnt, marked := log, past;
      OthersAct();
      StaysForgotten(learnt, log, |old(log)|, scope);
      assert past[at] == marked[at];
      fails := *;
      if mayFail && fails {
        return false, did;
      }
      learnt, marked := log, past;
      Drop(OfKey(Key(user, p)), true);
      StaysForgotten(learnt, log, |old(log)|, scope);
      AddUp(Own(old(steps)), did, [Dropping(scope)]);
      did := did + [Dropping(scope)];
      assert past[at] == marked[at];
      assert past[|past| - 1].Cleaned(scope);
      var unseen: bool := *;
      whole := !(mayFail && unseen);
    }

    /**
     * The new token takes the place of the old one, which speaks against whatever
     * the old one showed. The call may fail, or lose against another rotation.
     */
    method Rotate(user: string, instance: string, mayFail: bool) returns (replaced: bool)
      requires Valid()
      modifies this
      ensures Did([])
      ensures if replaced then Forgotten(log, |old(log)|, OfUserInstance(user, instance)) else mayFail
    {
      hide SoundWorld, Traced, Forgotten, Effect, Own;
      ghost var scope := OfUserInstance(user, instance);
      OthersAct();
      var fails: bool := *;
      if mayFail && fails {
        return false;
      }
      ghost var said, before := log, Here();
      Learn(Cut(scope));
      EffectOfSaying(ttl, lag, before, Cut(scope));
      CutForgets(log, |said|, scope);
      FewerForgotten(log, |old(log)|, scope);
      return true;
    }

    /** What follows the row: the token is replaced, the address of the user saved, and cached decisions are dropped. */
    method FinishSaving(user: string, instance: string, mayFail: bool) returns (r: Saved, ghost did: seq<Stmt>)
      requires Valid()
      modifies this
      ensures Did(did) && did <= [Dropping(OfUserInstance(user, instance))]
      ensures r.Linked? || (r.BrokenOff? && mayFail)
      ensures r.Linked? || r.replaced ==> Forgotten(log, |old(log)|, OfUserInstance(user, instance))
      ensures r.Linked? ==> did != [] && OnceCleaned(past, old(Moment()), OfUserInstance(user, instance))
      ensures r.BrokenOff? && !r.replaced ==> did == []
    {
      hide SoundWorld, Traced, Forgotten, Effect, Own;
      ghost var from, scope := Moment(), OfUserInstance(user, instance);
      var replaced := Rotate(user, instance, mayFail);
      if !replaced {
        return BrokenOff(false), [];
      }
      ghost var learnt, last := log, Moment();
      var emailFails: bool := *;
      if mayFail && emailFails {
        return BrokenOff(true), [];
      }
      var done;
      done, did := CleanUp(user, instance, mayFail);
      StaysForgotten(learnt, log, |old(log)|, scope);
      if done {
        CleanedOnce(past, last, from, scope);
      }
      r := if done then Linked else BrokenOff(true);
    }

    /**
     * Saving a tested token reactivates the user's live row for the instance, or
     * adds one, in one transaction; the unique indexes refuse a second active row,
     * and a GitLab identity that someone else has linked. The rest follows. `at`
     * is the place of that transaction among all statements: what it found there
     * decides between refusal and success.
     */
    method SaveConnection(id: string, user: string, instance: string, identityFree: bool, mayFail: bool)
      returns (r: Saved, ghost row: nat, ghost at: nat, ghost did: seq<Stmt>)
      requires Valid()
      modifies this
      ensures Did(did) && did <= [Linking(row, id, user, instance), Dropping(OfUserInstance(user, instance))]
      ensures did != [] ==>
        && |old(steps)| <= at < |steps| && at < |past|
        && steps[at] == Turn(true, Linking(row, id, user, instance))
        && FoundRow(past[at].connections, row, user, instance)
      ensures r.NotSaved? || r.BrokenOff? ==> mayFail
      ensures r.NotSaved? ==> |did| <= 1
      ensures r.AlreadyLinked? ==>
        if identityFree then |did| == 1 && ServedElsewhere(past[at].connections, row, user, instance) else did == []
      ensures r.BrokenOff? || r.Linked? ==>
        && identityFree && did != [] && !ServedElsewhere(past[at].connections, row, user, instance)
        && OnceConnected(past, old(Moment()), user, instance)
      ensures !mayFail && identityFree ==>
        did != [] && (r.Linked? <==> !ServedElsewhere(past[at].connections, row, user, instance))
      ensures r.Linked? || (r.BrokenOff? && r.replaced) ==> Forgotten(log, |old(log)|, OfUserInstance(user, instance))
      ensures r.Linked? ==> |did| == 2 && OnceCleaned(past, old(Moment()), OfUserInstance(user, instance))
    {
      hide SoundWorld, Traced, Forgotten, Effect, Own, OnceCleaned, FoundRow, ServedElsewhere;
      ghost var from, scope := Moment(), OfUserInstance(user, instance);
      row, at, did := 0, 0, [];
      OthersAct();
      var fails: bool := *;
      if mayFail && fails {
        return NotSaved, row, at, did;
      }
      if !identityFree {
        return AlreadyLinked, row, at, did;
      }
      var ok;
      StepsAreMoments();
      at := |steps|;
      ok, row := SaveRow(id, user, instance, true);
      did := [Linking(row, id, user, instance)];
      ghost var now, saved := Moment(), past;
      assert Connected(past[now].connections, user, instance);
      var unseen: bool := *;
      if mayFail && unseen {
        return NotSaved, row, at, did;
      }
      if !ok {
        return AlreadyLinked, row, at, did;
      }
      ghost var more, said := [], log;
      r, more := FinishSaving(user, instance, mayFail);
      AddUp(Own(old(steps)), did, more);
      did := did + more;
      assert past[now] == saved[now] && past[at] == saved[at];
      FewerForgotten(log, |old(log)|, scope);
      if r.Linked? {
        CleanedOnce(past, now, from, scope);
      }
    }

    /** There is a statement between any two moments. */
    lemma StepsAreMoments()
      requires Valid()
      ensures |past| == |steps| + 1 && past[|steps|] == Here()
    {
    }

    /**
     * Testing the stored token again. If it works, the connection is active from
     * then on, unless the unique index keeps it out at that moment or the write
     * fails. A token that GitLab refuses, or whose address is no longer
     * allowlisted, is given up; any other failure changes nothing.
     */
    method RetestStored(c: Connection, tested: Retest, mayFail: bool) returns (ok: bool, ghost did: seq<Stmt>)
      requires Valid()
      modifies this
      ensures Did(did)
      ensures match tested
              case NotTested => !ok && did == [] && Here() == old(Here())
              case TokenWorks =>
                && did <= [Setting(c.id, Active)]
                && (ok ==> did != [] && OnceStatus(past, old(Moment()), c.id, Active))
                && (ok || mayFail || OnceKeptOut(past, old(Moment()), c.id))
              case _ =>
                && did <= GivingUp(c, Invalid) && Forgotten(log, |old(log)|, OfUserInstance(c.user, c.instance))
                && (ok || mayFail)
                && (ok ==> (
                  && did == GivingUp(c, Invalid) && OnceStatus(past, old(Moment()), c.id, Invalid)
                  && OnceCleaned(past, old(Moment()), OfUserInstance(c.user, c.instance))))
    {
      hide SoundWorld, Traced, Forgotten, OnceCleaned, OnceStatus, Own;
      match tested {
        case NotTested =>
          ok, did := false, [];
        case TokenWorks =>
          ok, did := Reactivate(c.id, mayFail);
        case TokenRefused =>
          ok, did := GiveUpToken(c, Invalid, mayFail);
        case AddressDelisted =>
          ok, did := GiveUpToken(c, Invalid, mayFail);
      }
    }

    method Reactivate(id: string, mayFail: bool) returns (ok: bool, ghost did: seq<Stmt>)
      requires Valid()
      modifies this
      ensures Did(did) && did <= [Setting(id, Active)]
      ensures ok ==> did != [] && OnceStatus(past, old(Moment()), id, Active)
      ensures ok || mayFail || OnceKeptOut(past, old(Moment()), id)
    {
      hide SoundWorld, Traced, OneActive, Effect, WithStatus;
      OthersAct();
      var fails: bool := *;
      if mayFail && fails {
        return false, [];
      }
      ok := Activate(id);
      var unseen: bool := *;
      return ok && !(mayFail && unseen), [Setting(id, Active)];
    }

    /** The connection becomes active, unless the unique index keeps it out. */
    method Activate(id: string) returns (ok: bool)
      requires Valid()
      modifies this
      ensures Did([Setting(id, Active)])
      ensures if ok then OnceStatus(past, |old(past)|, id, Active) else OnceKeptOut(past, old(Moment()), id)
    {
      hide SoundWorld, Traced, OneActive, Effect;
      ghost var before, found := past, Here();
      ok := SetStatus(id, Active, true);
      ActiveIsOnce(ttl, lag, found, past, |before|, id);
      KeptOutOnce(before, past, |before| - 1, id);
    }

    /** Deleting a connection: its credential, its row, and the cached decisions, as far as no write fails. */
    method DeleteConnection(c: Connection, mayFail: bool) returns (whole: bool, ghost did: seq<Stmt>)
      requires Valid()
      modifies this
      ensures Did(did) && did <= GivingUp(c, Deleted)
      ensures Forgotten(log, |old(log)|, OfUserInstance(c.user, c.instance))
      ensures !whole ==> mayFail
      ensures whole ==>
        && did == GivingUp(c, Deleted) && OnceStatus(past, old(Moment()), c.id, Deleted)
        && OnceCleaned(past, old(Moment()), OfUserInstance(c.user, c.instance))
    {
      whole, did := GiveUpToken(c, Deleted, mayFail);
    }
  }

  /** The items of the connections handled so far. */
  ghost predicate ListsSoFar(past: seq<World>, from: int, user: string, maxAge: int, conns: seq<Connection>,
                             allowed: seq<Project>, faults: Faults, answer: Replies, items: seq<Item>)
  {
    && (forall i, j :: 0 <= i < j < |items| ==> items[i].project != items[j].project)
    && (forall it :: it in items ==>
          && Connected(conns, user, it.project.instance)
          && ItemHolds(past, from, user, maxAge, faults, answer, it))
    && (forall p :: p in allowed && Connected(conns, user, p.instance) ==> exists it :: it in items && it.project == p)
  }

  lemma ListsNoMore(past: seq<World>, from: int, user: string, maxAge: int, conns: seq<Connection>, c: Connection,
                    allowed: seq<Project>, faults: Faults, answer: Replies, items: seq<Item>)
    requires ListsSoFar(past, from, user, maxAge, conns, allowed, faults, answer, items)
    requires !(c.status.Active? && c.user == user)
    ensures ListsSoFar(past, from, user, maxAge, conns + [c], allowed, faults, answer, items)
  {
    hide ItemHolds, Connected;
    forall s ensures Connected(conns + [c], user, s) <==> Connected(conns, user, s) {
      OneConnectionMore(conns, c, user, s);
    }
  }

  /** One more connection, whose instance no connection before it had, while others have acted on. */
  lemma ListsOneMore(past: seq<World>, longer: seq<World>, from: int, user: string, maxAge: int, conns: seq<Connection>,
                     c: Connection, allowed: seq<Project>, faults: Faults, answer: Replies, items: seq<Item>,
                     more: seq<Item>)
    requires ListsSoFar(past, from, user, maxAge, conns, allowed, faults, answer, items) && past <= longer
    requires c.Serves(user, c.instance) && !Connected(conns, user, c.instance)
    requires NoRepeats(allowed) && |more| == |OnInstance(allowed, c.instance)|
    requires forall i :: 0 <= i < |more| ==>
      && more[i].project == OnInstance(allowed, c.instance)[i]
      && ItemHolds(longer, from, user, maxAge, faults, answer, more[i])
    ensures ListsSoFar(longer, from, user, maxAge, conns + [c], allowed, faults, answer, items + more)
  {
    hide ItemHolds, Connected;
    var projects := OnInstance(allowed, c.instance);
    OnInstanceDistinct(allowed, c.instance);
    forall s ensures Connected(conns + [c], user, s) <==> Connected(conns, user, s) || s == c.instance {
      OneConnectionMore(conns, c, user, s);
    }
    forall it | it in more ensures it.project in projects && ItemHolds(longer, from, user, maxAge, faults, answer, it) {
      var i :| 0 <= i < |more| && more[i] == it;
      assert projects[i] in projects;
    }
    forall it | it in items ensures it.project.instance != c.instance
      && ItemHolds(longer, from, user, maxAge, faults, answer, it)
    {
      ItemStillHolds(past, longer, from, user, maxAge, faults, answer, it);
    }
    forall i, j | 0 <= i < j < |items + more| ensures (items + more)[i].project != (items + more)[j].project {
      if i < |items| <= j {
        assert items[i] in items && more[j - |items|] in more;
      }
    }
    forall p | p in allowed && Connected(conns + [c], user, p.instance)
      ensures exists it :: it in items + more && it.project == p
    {
      if p.instance == c.instance {
        var i :| 0 <= i < |projects| && projects[i] == p;
        assert more[i] in items + more;
      } else {
        var it :| it in items && it.project == p;
        assert it in items + more;
      }
    }
  }
}
