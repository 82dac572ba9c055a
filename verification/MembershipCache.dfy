/**
 * The membership cache (packages/domain/src/membership-cache.ts) and what its
 * entries are worth, under any interleaving of probes, write-backs and
 * invalidations.
 */
module MembershipCaches {
  import opened Base

  datatype Key = Key(user: string, project: Project)

  datatype Entry = Entry(allowed: bool, checkedAt: Time, expiresAt: Time)

  /** Seconds that a grant and a denial are kept. */
  datatype Ttl = Ttl(positive: nat, negative: nat) {
    predicate Valid() {
      0 < negative <= positive
    }

    function Millis(allowed: bool): nat {
      1000 * (if allowed then positive else negative)
    }
  }

  const DEFAULT_NEGATIVE_TTL_SECONDS := 30
  const SYNC_DENIED_TTL_MS := 300_000

  /** Denials never outlive grants, whatever the environment asks for. */
  function EffectiveTtl(positive: nat, requested: Option<nat>): (ttl: Ttl)
    requires positive > 0 && (requested.Some? ==> requested.value > 0)
    ensures ttl.Valid() && ttl.positive == positive
    ensures requested.Some? && requested.value <= positive ==> ttl.negative == requested.value
    ensures requested.None? ==> ttl.negative <= DEFAULT_NEGATIVE_TTL_SECONDS
  {
    var wanted := if requested.Some? then requested.value else Min(DEFAULT_NEGATIVE_TTL_SECONDS, positive);
    Ttl(positive, Min(wanted, positive))
  }

  /** What an invalidation deletes. */
  datatype Scope =
    | OfKey(key: Key)
    | OfUserInstance(user: string, instance: string)
    | OfProject(project: Project)
    | OfInstance(instance: string)
    | OfUser(user: string)
  {
    predicate Hits(k: Key) {
      match this
      case OfKey(key) => k == key
      case OfUserInstance(user, instance) => k.user == user && k.project.instance == instance
      case OfProject(project) => k.project == project
      case OfInstance(instance) => k.project.instance == instance
      case OfUser(user) => k.user == user
    }
  }

  /** What GitLab and the application said about keys, in order. */
  datatype Fact = Granted(key: Key, at: Time) | Refused(key: Key, at: Time) | Cut(scope: Scope)

  predicate Against(f: Fact, k: Key) {
    (f.Refused? && f.key == k) || (f.Cut? && f.scope.Hits(k))
  }

  /** Nothing since fact `i` speaks against `k`. */
  ghost predicate Stands(log: seq<Fact>, i: nat, k: Key) {
    forall j :: i < j < |log| ==> !Against(log[j], k)
  }

  /** A grant for `k`, younger than `maxAge`, that nothing said since contradicts. */
  ghost predicate Backed(log: seq<Fact>, k: Key, now: Time, maxAge: int) {
    exists i :: 0 <= i < |log| && log[i].Granted? && log[i].key == k && now - log[i].at < maxAge && Stands(log, i, k)
  }

  type Entries = map<Key, Entry>

  /** The entry was written for a grant that still stands, and expires at most `maxAge` after it. */
  ghost predicate Justified(log: seq<Fact>, k: Key, e: Entry, maxAge: int) {
    exists i :: 0 <= i < |log| && log[i].Granted? && log[i].key == k && e.expiresAt <= log[i].at + maxAge
      && Stands(log, i, k)
  }

  predicate FreshGrant(cache: Entries, k: Key, now: Time) {
    k in cache && cache[k].allowed && cache[k].expiresAt > now
  }

  ghost predicate Sound(cache: Entries, log: seq<Fact>, now: Time, maxAge: int) {
    forall k :: FreshGrant(cache, k, now) ==> Justified(log, k, cache[k], maxAge)
  }

  /** The same, but for keys known to be stale: something spoke against them, or their grant came back too late. */
  ghost predicate SoundBut(cache: Entries, log: seq<Fact>, now: Time, maxAge: int, stale: set<Key>) {
    forall k :: FreshGrant(cache, k, now) && k !in stale ==> Justified(log, k, cache[k], maxAge)
  }

  /** A fresh grant of a sound cache has a probe behind it that still stands. */
  lemma FreshGrantsAreBacked(cache: Entries, log: seq<Fact>, maxAge: int, k: Key, now: Time)
    requires Sound(cache, log, now, maxAge) && FreshGrant(cache, k, now)
    ensures Backed(log, k, now, maxAge)
  {
    var i :| 0 <= i < |log| && log[i].Granted? && log[i].key == k && cache[k].expiresAt <= log[i].at + maxAge
      && Stands(log, i, k);
    assert now - log[i].at < maxAge;
  }

  lemma StandsLonger(log: seq<Fact>, f: Fact, i: int, k: Key)
    requires 0 <= i < |log| && Stands(log, i, k) && !Against(f, k)
    ensures Stands(log + [f], i, k)
  {
  }

  /** A fact that speaks against a key leaves no fresh grant of it, or never was about a fresh grant. */
  lemma FactKeepsSound(cache: Entries, log: seq<Fact>, f: Fact, now: Time, maxAge: int, kept: Entries)
    requires Sound(cache, log, now, maxAge)
    requires forall k :: FreshGrant(kept, k, now) ==> k in cache && kept[k] == cache[k] && !Against(f, k)
    ensures Sound(kept, log + [f], now, maxAge)
  {
    forall k | FreshGrant(kept, k, now) ensures Justified(log + [f], k, kept[k], maxAge) {
      assert FreshGrant(cache, k, now);
      var i :| 0 <= i < |log| && log[i].Granted? && log[i].key == k && kept[k].expiresAt <= log[i].at + maxAge
        && Stands(log, i, k);
      StandsLonger(log, f, i, k);
      assert (log + [f])[i] == log[i];
    }
  }

  /**
   * Something spoke against the keys of `scope`, a replaced or refused token
   * say, and the cache was not cleaned: what it holds is still sound if and
   * only if it held no fresh grant there.
   */
  lemma UncleanedCut(cache: Entries, log: seq<Fact>, scope: Scope, now: Time, maxAge: int)
    requires Sound(cache, log, now, maxAge)
    ensures Sound(cache, log + [Cut(scope)], now, maxAge) <==> forall k :: FreshGrant(cache, k, now) ==> !scope.Hits(k)
  {
    var longer := log + [Cut(scope)];
    if forall k :: FreshGrant(cache, k, now) ==> !scope.Hits(k) {
      FactKeepsSound(cache, log, Cut(scope), now, maxAge, cache);
    } else {
      var k :| FreshGrant(cache, k, now) && scope.Hits(k);
      assert Against(longer[|log|], k);
      assert !Justified(longer, k, cache[k], maxAge);
    }
  }

  // ----- Requests in flight -----

  /** `probes` holds, per request, the index of the fact that answered it, until it is written back. */
  datatype State = State(cache: Entries, log: seq<Fact>, probes: map<nat, nat>, clock: Time)

  datatype Step =
    | Tick(passed: nat)
    | Answer(request: nat, key: Key, granted: bool)
    | WriteBack(request: nat)
    | Invalidate(scope: Scope)
    | SyncDenies(key: Key)

  ghost predicate WellFormed(s: State) {
    forall r :: r in s.probes ==> s.probes[r] < |s.log| && !s.log[s.probes[r]].Cut?
  }

  function Without(cache: Entries, scope: Scope): Entries {
    map k | k in cache && !scope.Hits(k) :: cache[k]
  }

  function EntryFor(ttl: Ttl, granted: bool, now: Time): Entry {
    Entry(granted, now, now + ttl.Millis(granted))
  }

  ghost predicate Next(ttl: Ttl, s: State, step: Step, s': State) {
    match step
    case Tick(passed) => s' == s.(clock := s.clock + passed)
    case Answer(r, k, granted) =>
      && r !in s.probes
      && s' == s.(log := s.log + [if granted then Granted(k, s.clock) else Refused(k, s.clock)],
                  probes := s.probes[r := |s.log|])
    case WriteBack(r) =>
      && r in s.probes && s.probes[r] < |s.log| && !s.log[s.probes[r]].Cut?
      && var answer := s.log[s.probes[r]];
         s' == s.(cache := s.cache[answer.key := EntryFor(ttl, answer.Granted?, s.clock)],
                  probes := s.probes - {r})
    case Invalidate(scope) => s' == s.(cache := Without(s.cache, scope), log := s.log + [Cut(scope)])
    case SyncDenies(k) =>
      s' == s.(cache := s.cache[k := Entry(false, s.clock, s.clock + SYNC_DENIED_TTL_MS)],
               log := s.log + [Refused(k, s.clock)])
  }

  /** The write-back comes within `lag` of its probe, and nothing spoke against the key in between. */
  ghost predicate Clean(s: State, r: nat, lag: nat) {
    && r in s.probes && s.probes[r] < |s.log| && !s.log[s.probes[r]].Cut?
    && var answer := s.log[s.probes[r]];
       s.clock - answer.at <= lag && Stands(s.log, s.probes[r], answer.key)
  }

  ghost predicate HoldsGrant(s: State, r: nat) {
    r in s.probes && s.probes[r] < |s.log| && s.log[s.probes[r]].Granted?
  }

  /** Grants are written back cleanly, and a refusal does not arrive while a grant is still fresh. */
  ghost predicate StepIsClean(s: State, step: Step, lag: nat) {
    match step
    case WriteBack(r) => HoldsGrant(s, r) ==> Clean(s, r, lag)
    case Answer(_, k, granted) => granted || !FreshGrant(s.cache, k, s.clock)
    case _ => true
  }

  /** Clean steps keep every fresh grant backed by a probe younger than the TTL plus the lag. */
  lemma CleanStepsKeepSound(ttl: Ttl, s: State, step: Step, s': State, lag: nat)
    requires WellFormed(s) && Sound(s.cache, s.log, s.clock, ttl.Millis(true) + lag)
    requires Next(ttl, s, step, s') && StepIsClean(s, step, lag)
    ensures WellFormed(s') && Sound(s'.cache, s'.log, s'.clock, ttl.Millis(true) + lag)
  {
    var maxAge := ttl.Millis(true) + lag;
    match step {
      case Tick(_) =>
        assert forall k :: FreshGrant(s'.cache, k, s'.clock) ==> FreshGrant(s.cache, k, s.clock);
      case Answer(_, k, _) => FactKeepsSound(s.cache, s.log, s'.log[|s.log|], s.clock, maxAge, s'.cache);
      case Invalidate(_) => FactKeepsSound(s.cache, s.log, s'.log[|s.log|], s.clock, maxAge, s'.cache);
      case SyncDenies(_) => FactKeepsSound(s.cache, s.log, s'.log[|s.log|], s.clock, maxAge, s'.cache);
      case WriteBack(r) =>
        var i := s.probes[r];
        if s.log[i].Granted? {
          assert Justified(s.log, s.log[i].key, s'.cache[s.log[i].key], maxAge);
        }
        assert forall k :: FreshGrant(s'.cache, k, s.clock) && k != s.log[i].key ==> FreshGrant(s.cache, k, s.clock);
    }
  }

  /** Over whole runs, from an empty cache on: whoever is let in on a cached grant has a standing probe behind it. */
  lemma {:induction false} CleanRunsStaySound(ttl: Ttl, states: seq<State>, steps: seq<Step>, lag: nat, n: nat)
    requires |states| == |steps| + 1 && n <= |steps|
    requires WellFormed(states[0]) && states[0].cache == map[]
    requires forall i :: 0 <= i < |steps| ==>
      Next(ttl, states[i], steps[i], states[i + 1]) && StepIsClean(states[i], steps[i], lag)
    ensures var s := states[n];
            && WellFormed(s) && Sound(s.cache, s.log, s.clock, ttl.Millis(true) + lag)
            && forall k :: FreshGrant(s.cache, k, s.clock) ==> Backed(s.log, k, s.clock, ttl.Millis(true) + lag)
  {
    if n > 0 {
      CleanRunsStaySound(ttl, states, steps, lag, n - 1);
      CleanStepsKeepSound(ttl, states[n - 1], steps[n - 1], states[n], lag);
    }
    var s := states[n];
    forall k | FreshGrant(s.cache, k, s.clock) ensures Backed(s.log, k, s.clock, ttl.Millis(true) + lag) {
      FreshGrantsAreBacked(s.cache, s.log, ttl.Millis(true) + lag, k, s.clock);
    }
  }

  /**
   * The exact condition: when a request holds the latest grant for its key,
   * writing it back leaves the key backed if and only if nothing has spoken
   * against the key since the probe. An invalidation in between is undone.
   */
  lemma LateWriteBackRevivesAccess(ttl: Ttl, s: State, r: nat, s': State)
    requires ttl.Valid() && WellFormed(s) && Next(ttl, s, WriteBack(r), s')
    requires s.log[s.probes[r]].Granted?
    requires forall j :: s.probes[r] < j < |s.log| && s.log[j].Granted? ==> s.log[j].key != s.log[s.probes[r]].key
    ensures var k := s.log[s.probes[r]].key;
            && k in s'.cache && s'.cache[k].allowed && s'.cache[k].expiresAt > s'.clock
            && ((exists maxAge :: Backed(s'.log, k, s'.clock, maxAge)) <==> Stands(s.log, s.probes[r], k))
  {
    var i := s.probes[r];
    var k := s.log[i].key;
    if Stands(s.log, i, k) {
      assert Backed(s'.log, k, s'.clock, s.clock - s.log[i].at + 1);
    } else {
      var j :| i < j < |s.log| && Against(s.log[j], k);
      forall maxAge ensures !Backed(s'.log, k, s'.clock, maxAge) {
        forall m | 0 <= m < |s.log| && s.log[m].Granted? && s.log[m].key == k ensures !Stands(s.log, m, k) {
          assert m <= i < j;
        }
      }
    }
  }

  /** The shortest run in which that happens: probe, revoke, write back. */
  lemma RevokedThenWrittenBack(ttl: Ttl, k: Key) returns (probed: State, revoked: State, written: State)
    requires ttl.Valid()
    ensures Next(ttl, State(map[], [], map[], 0), Answer(0, k, true), probed)
    ensures Next(ttl, probed, Invalidate(OfKey(k)), revoked) && Next(ttl, revoked, WriteBack(0), written)
    ensures FreshGrant(written.cache, k, written.clock)
    ensures forall maxAge :: !Backed(written.log, k, written.clock, maxAge)
  {
    probed := State(map[], [Granted(k, 0)], map[0 := 0], 0);
    revoked := State(map[], [Granted(k, 0), Cut(OfKey(k))], map[0 := 0], 0);
    assert Without(probed.cache, OfKey(k)) == map[];
    written := State(map[k := EntryFor(ttl, true, 0)], revoked.log, map[], 0);
    assert revoked.probes - {0} == map[];
    assert Against(revoked.log[1], k);
  }

  // ----- How long entries live -----

  /** In any run, grants live for exactly the positive TTL, denials at most for the longer of their two lifetimes. */
  lemma {:induction false} EntriesExpire(ttl: Ttl, states: seq<State>, steps: seq<Step>, n: nat, k: Key)
    requires |states| == |steps| + 1 && n <= |steps| && states[0].cache == map[]
    requires forall i :: 0 <= i < |steps| ==> Next(ttl, states[i], steps[i], states[i + 1])
    requires k in states[n].cache
    ensures var e := states[n].cache[k];
            if e.allowed then e.expiresAt == e.checkedAt + ttl.Millis(true)
            else e.expiresAt <= e.checkedAt + Max(ttl.Millis(false), SYNC_DENIED_TTL_MS)
  {
    if n > 0 && k in states[n - 1].cache {
      EntriesExpire(ttl, states, steps, n - 1, k);
    }
    if n > 0 {
      assert Next(ttl, states[n - 1], steps[n - 1], states[n]);
    }
  }

  /** The negative TTL alone bounds every denial that a sync run can leave exactly when it is at least 300 seconds. */
  lemma NegativeTtlBoundsSyncDenials(ttl: Ttl)
    ensures (forall s, k, s' :: Next(ttl, s, SyncDenies(k), s') ==>
                                  s'.cache[k].expiresAt <= s'.cache[k].checkedAt + ttl.Millis(false))
       <==> ttl.negative >= 300
  {
    var k := Key("", Project("", ""));
    var s := State(map[], [], map[], 0);
    var denied := State(map[k := Entry(false, 0, SYNC_DENIED_TTL_MS)], [Refused(k, 0)], map[], 0);
    assert Next(ttl, s, SyncDenies(k), denied);
  }
}
