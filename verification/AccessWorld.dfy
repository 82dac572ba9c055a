/**
 * What there is to know about access at one moment, what one statement makes of
 * it, and what can be said of the moments of a request.
 */
module AccessWorld {
  import opened Base
  import opened MembershipCaches
  import opened ProbePool

  datatype ConnectionStatus = Active | Invalid | Deleted

  datatype Connection = Connection(id: string, user: string, instance: string, status: ConnectionStatus) {
    predicate Serves(user: string, instance: string) {
      status.Active? && this.user == user && this.instance == instance
    }

    predicate LiveFor(user: string, instance: string) {
      !status.Deleted? && this.user == user && this.instance == instance
    }
  }

  datatype Visibility = Allowed | Hidden | Unknown

  /** `refused` says whether GitLab refused the token. */
  datatype Resolution = Resolved(verdicts: map<Project, Visibility>) | Rejected(refused: bool)

  datatype Item = Item(project: Project, visible: bool, enabled: bool, failed: bool)

  /** How saving a connection ends; `BrokenOff` says whether the token was replaced before. */
  datatype Saved = Linked | AlreadyLinked | NotSaved | BrokenOff(replaced: bool)

  /** How testing a stored token against GitLab ends. */
  datatype Retest = TokenWorks | TokenRefused | AddressDelisted | NotTested

  /** What GitLab answers the user's token about a project. */
  type Replies = Project -> Probe

  predicate NoRepeats(projects: seq<Project>) {
    forall i, j :: 0 <= i < j < |projects| ==> projects[i] != projects[j]
  }

  /** The partial unique index over (user, instance) of active rows. */
  predicate OneActive(conns: seq<Connection>) {
    forall i, j :: 0 <= i < j < |conns| && conns[i].status.Active? && conns[j].status.Active? ==>
      conns[i].user != conns[j].user || conns[i].instance != conns[j].instance
  }

  predicate Connected(conns: seq<Connection>, user: string, instance: string) {
    exists i :: 0 <= i < |conns| && conns[i].Serves(user, instance)
  }

  function WithStatus(conns: seq<Connection>, id: string, status: ConnectionStatus): seq<Connection> {
    seq(|conns|, i requires 0 <= i < |conns| => if conns[i].id == id then conns[i].(status := status) else conns[i])
  }

  // ----- One moment -----

  /** Everything there is at one moment; `stale` are the keys whose cached grants nothing vouches for any more. */
  datatype World = World(allowlist: seq<Project>, enables: set<Key>, connections: seq<Connection>, cache: Entries,
                         log: seq<Fact>, stale: set<Key>, clock: Time)
  {
    ghost predicate Backs(k: Key, maxAge: int) {
      Backed(log, k, clock, maxAge)
    }

    /** A fresh grant that nothing vouches for. */
    predicate Trusts(k: Key) {
      k in stale && FreshGrant(cache, k, clock)
    }

    predicate Denies(k: Key) {
      k in cache && !cache[k].allowed && cache[k].expiresAt > clock
    }

    predicate Cleaned(scope: Scope) {
      (forall k :: k in cache ==> !scope.Hits(k)) && (forall k :: k in stale ==> !scope.Hits(k))
    }
  }

  ghost predicate SoundWorld(w: World, maxAge: int) {
    SoundBut(w.cache, w.log, w.clock, maxAge, w.stale) && NoRepeats(w.allowlist) && OneActive(w.connections)
  }

  /** GitLab or the application said something: what it speaks against is stale from now on. */
  ghost function Learnt(w: World, f: Fact): World {
    w.(log := w.log + [f], stale := w.stale + set k | k in w.cache && Against(f, k))
  }

  ghost function Dropped(w: World, scope: Scope): World {
    w.(cache := Without(w.cache, scope), stale := set k | k in w.stale && !scope.Hits(k))
  }

  /** Fact `i` is a grant for `k` that still stands, obtained no more than `lag` ago. */
  ghost predicate Probed(w: World, k: Key, i: int, lag: nat) {
    && 0 <= i < |w.log| && w.log[i].Granted? && w.log[i].key == k
    && w.clock <= w.log[i].at + lag && Stands(w.log, i, k)
  }

  /** An answer written back; a grant that is late, or contradicted by now, is stale. */
  ghost function Written(ttl: Ttl, lag: nat, w: World, k: Key, granted: bool, i: int): World {
    w.(cache := w.cache[k := EntryFor(ttl, granted, w.clock)],
       stale := if granted && !Probed(w, k, i, lag) then w.stale + {k} else w.stale - {k})
  }

  // ----- Statements -----

  /** What a request or an administrator does to the tables, or what is said, in one moment. */
  datatype Stmt =
    | Waiting(until: Time)
    | Saying(fact: Fact)
    | Dropping(scope: Scope)
    | Writing(key: Key, granted: bool, probe: int)
    | Denying(key: Key)
    | Enabling(key: Key)
    | Disabling(key: Key)
    | Setting(id: string, status: ConnectionStatus)
    | Linking(row: nat, id: string, user: string, instance: string)
    | Listing(project: Project)
    | Delisting(project: Project)
    | Closing(instance: string)

  /** The row `row`, if it is the user's live one, becomes active, unless another is; without one, a row is added. */
  function LinkedRows(conns: seq<Connection>, row: nat, id: string, user: string, instance: string): seq<Connection> {
    if row < |conns| && conns[row].LiveFor(user, instance) then
      if exists j :: 0 <= j < |conns| && j != row && conns[j].Serves(user, instance) then conns
      else conns[row := conns[row].(status := Active)]
    else if exists j :: 0 <= j < |conns| && conns[j].LiveFor(user, instance) then conns
    else conns + [Connection(id, user, instance, Active)]
  }

  /** The row that saving finds: a live one of the user for the instance, or none, and then it adds one. */
  predicate FoundRow(conns: seq<Connection>, row: nat, user: string, instance: string) {
    if row < |conns| then conns[row].LiveFor(user, instance)
    else row == |conns| && forall j :: 0 <= j < |conns| ==> !conns[j].LiveFor(user, instance)
  }

  /** Another row is the active one, which the unique index protects. */
  predicate ServedElsewhere(conns: seq<Connection>, row: nat, user: string, instance: string) {
    exists j :: 0 <= j < |conns| && j != row && conns[j].Serves(user, instance)
  }

  /** Rows that refer to a GitLab address keep it from being closed. */
  /** Rows that refer to a GitLab address keep it from being closed. */
  predicate InUse(conns: seq<Connection>, instance: string) {
    exists c :: c in conns && c.instance == instance
  }

  /** The same moment for everyone: what a statement makes of everything there is. */
  ghost function Effect(ttl: Ttl, lag: nat, w: World, s: Stmt): World {
    match s
    case Waiting(until) => w.(clock := Max(w.clock, until))
    case Saying(f) => Learnt(w, f)
    case Dropping(scope) => Dropped(w, scope)
    case Writing(k, granted, i) => Written(ttl, lag, w, k, granted, i)
    case Denying(k) =>
      w.(cache := w.cache[k := Entry(false, w.clock, w.clock + SYNC_DENIED_TTL_MS)],
         log := w.log + [Refused(k, w.clock)], stale := w.stale - {k})
    case Enabling(k) => w.(enables := w.enables + {k})
    case Disabling(k) => Learnt(w, Cut(OfKey(k))).(enables := w.enables - {k})
    case Setting(id, status) =>
      var rows := WithStatus(w.connections, id, status);
      if OneActive(rows) then w.(connections := rows) else w
    case Linking(row, id, user, instance) => w.(connections := LinkedRows(w.connections, row, id, user, instance))
    case Listing(p) => w.(allowlist := if p in w.allowlist then w.allowlist else w.allowlist + [p])
    case Delisting(p) =>
      Dropped(Learnt(w, Cut(OfProject(p))), OfProject(p)).(allowlist := Without1(w.allowlist, p),
                                                           enables := set k | k in w.enables && k.project != p)
    case Closing(s) =>
      if InUse(w.connections, s) then w
      else
        Dropped(Learnt(w, Cut(OfInstance(s))), OfInstance(s)).
          (allowlist := Elsewhere(w.allowlist, s), enables := set k | k in w.enables && k.project.instance != s)
  }

  function Without1(projects: seq<Project>, p: Project): (r: seq<Project>)
    ensures forall q :: q in r <==> q in projects && q != p
  {
    if projects == [] then []
    else (if projects[0] == p then [] else [projects[0]]) + Without1(projects[1..], p)
  }

  lemma {:induction false} RemovalKeepsDistinct(projects: seq<Project>, p: Project)
    requires NoRepeats(projects)
    ensures NoRepeats(Without1(projects, p))
  {
    if projects != [] {
      RemovalKeepsDistinct(projects[1..], p);
      var rest := Without1(projects[1..], p);
      assert projects[0] !in rest;
      assert forall i :: 0 <= i < |rest| ==> rest[i] in rest;
    }
  }

  function Elsewhere(projects: seq<Project>, instance: string): (r: seq<Project>)
    ensures forall q :: q in r <==> q in projects && q.instance != instance
  {
    if projects == [] then []
    else (if projects[0].instance == instance then [] else [projects[0]]) + Elsewhere(projects[1..], instance)
  }

  lemma {:induction false} ElsewhereKeepsDistinct(projects: seq<Project>, instance: string)
    requires NoRepeats(projects)
    ensures NoRepeats(Elsewhere(projects, instance))
  {
    if projects != [] {
      ElsewhereKeepsDistinct(projects[1..], instance);
      var rest := Elsewhere(projects[1..], instance);
      assert projects[0] !in rest;
      assert forall i :: 0 <= i < |rest| ==> rest[i] in rest;
    }
  }

  /** A statement, and whether it is one of the request in question or of anyone else. */
  datatype Turn = Turn(mine: bool, what: Stmt)

  ghost function Own(steps: seq<Turn>): seq<Stmt> {
    if steps == [] then []
    else Own(steps[..|steps| - 1]) + (if steps[|steps| - 1].mine then [steps[|steps| - 1].what] else [])
  }

  lemma OwnGrows(steps: seq<Turn>, s: Turn)
    ensures Own(steps + [s]) == Own(steps) + (if s.mine then [s.what] else [])
  {
    assert (steps + [s])[..|steps|] == steps;
  }

  lemma EffectOfSaying(ttl: Ttl, lag: nat, w: World, f: Fact)
    ensures Effect(ttl, lag, w, Saying(f)) == Learnt(w, f)
    ensures Learnt(w, f).log == w.log + [f] && Learnt(w, f).clock == w.clock
  {
  }

  lemma LearntKeepsSound(w: World, f: Fact, maxAge: int)
    requires SoundWorld(w, maxAge)
    ensures SoundWorld(Learnt(w, f), maxAge)
  {
    var w' := Learnt(w, f);
    forall k | FreshGrant(w'.cache, k, w'.clock) && k !in w'.stale ensures Justified(w'.log, k, w'.cache[k], maxAge) {
      assert Justified(w.log, k, w.cache[k], maxAge);
      var i :| 0 <= i < |w.log| && w.log[i].Granted? && w.log[i].key == k
        && w.cache[k].expiresAt <= w.log[i].at + maxAge
            && Stands(w.log, i, k);
      StandsLonger(w.log, f, i, k);
      assert w'.log[i] == w.log[i];
    }
  }

  lemma WrittenKeepsSound(ttl: Ttl, lag: nat, w: World, k: Key, granted: bool, i: int)
    requires ttl.Valid() && SoundWorld(w, ttl.Millis(true) + lag)
    ensures SoundWorld(Written(ttl, lag, w, k, granted, i), ttl.Millis(true) + lag)
  {
    var w' := Written(ttl, lag, w, k, granted, i);
    forall other | FreshGrant(w'.cache, other, w'.clock) && other !in w'.stale
      ensures Justified(w'.log, other, w'.cache[other], ttl.Millis(true) + lag)
    {
      if other != k {
        assert FreshGrant(w.cache, other, w.clock);
      }
    }
  }

  lemma LinkedRowsKeepOneActive(conns: seq<Connection>, row: nat, id: string, user: string, instance: string)
    requires OneActive(conns)
    ensures OneActive(LinkedRows(conns, row, id, user, instance))
  {
  }

  lemma DenyingKeepsSound(w: World, k: Key, maxAge: int)
    requires SoundWorld(w, maxAge)
    ensures SoundWorld(w.(cache := w.cache[k := Entry(false, w.clock, w.clock + SYNC_DENIED_TTL_MS)],
                          log := w.log + [Refused(k, w.clock)], stale := w.stale - {k}), maxAge)
  {
    LearntKeepsSound(w, Refused(k, w.clock), maxAge);
  }

  /** Every statement, of anyone, leaves every grant outside the stale keys backed, and the tables in order. */
  lemma EffectKeepsSound(ttl: Ttl, lag: nat, w: World, s: Stmt)
    requires ttl.Valid() && SoundWorld(w, ttl.Millis(true) + lag)
    ensures SoundWorld(Effect(ttl, lag, w, s), ttl.Millis(true) + lag)
  {
    hide Learnt, Written, Justified, NoRepeats, OneActive, LinkedRows;
    var maxAge := ttl.Millis(true) + lag;
    match s {
      case Waiting(until) =>
        assert forall k :: FreshGrant(w.cache, k, Max(w.clock, until)) ==> FreshGrant(w.cache, k, w.clock);
      case Saying(f) => LearntKeepsSound(w, f, maxAge);
      case Dropping(_) =>
      case Writing(k, granted, i) => WrittenKeepsSound(ttl, lag, w, k, granted, i);
      case Denying(k) => DenyingKeepsSound(w, k, maxAge);
      case Enabling(_) =>
      case Disabling(k) => LearntKeepsSound(w, Cut(OfKey(k)), maxAge);
      case Setting(_, _) =>
      case Linking(row, id, user, instance) => LinkedRowsKeepOneActive(w.connections, row, id, user, instance);
      case Listing(p) =>
        if p !in w.allowlist {
          ListingKeepsDistinct(w.allowlist, p);
        }
      case Delisting(p) =>
        LearntKeepsSound(w, Cut(OfProject(p)), maxAge);
        RemovalKeepsDistinct(w.allowlist, p);
      case Closing(instance) =>
        LearntKeepsSound(w, Cut(OfInstance(instance)), maxAge);
        ElsewhereKeepsDistinct(w.allowlist, instance);
    }
  }

  lemma ListingKeepsDistinct(projects: seq<Project>, p: Project)
    requires NoRepeats(projects) && p !in projects
    ensures NoRepeats(projects + [p])
  {
  }

  /** Time and knowledge only grow. */
  lemma EffectMovesOn(ttl: Ttl, lag: nat, w: World, s: Stmt)
    ensures w.clock <= Effect(ttl, lag, w, s).clock && w.log <= Effect(ttl, lag, w, s).log
  {
  }

  /**
   * What a contradiction leaves behind until the cache is cleaned: a fresh grant
   * it speaks against is stale, and not backed by anything; and it makes nothing
   * else stale.
   */
  lemma ContradictedIsStale(w: World, f: Fact, k: Key, maxAge: int)
    requires SoundWorld(w, maxAge) && FreshGrant(w.cache, k, w.clock) && k !in w.stale
    ensures Against(f, k) <==> Learnt(w, f).Trusts(k)
    ensures Against(f, k) <==> !Learnt(w, f).Backs(k, maxAge)
  {
    var w' := Learnt(w, f);
    LearntKeepsSound(w, f, maxAge);
    if Against(f, k) {
      assert w'.log[|w.log|] == f;
      assert !w'.Backs(k, maxAge);
    } else {
      var i :| 0 <= i < |w'.log| && w'.log[i].Granted? && w'.log[i].key == k
        && w'.cache[k].expiresAt <= w'.log[i].at + maxAge
            && Stands(w'.log, i, k);
      assert w'.clock - w'.log[i].at < maxAge;
    }
  }

  /** A contradiction that is followed by its clean-up leaves nothing stale. */
  lemma CleanedUpIsNotStale(w: World, scope: Scope)
    ensures var w' := Dropped(Learnt(w, Cut(scope)), scope);
            w'.Cleaned(scope) && w'.stale == set k | k in w.stale && !scope.Hits(k)
  {
  }

  /** No probe among the first `n` facts counts for what `scope` hits. */
  ghost predicate Forgotten(log: seq<Fact>, n: nat, scope: Scope) {
    forall i, k :: 0 <= i < n && i < |log| && scope.Hits(k) ==> !Stands(log, i, k)
  }

  lemma CutForgets(log: seq<Fact>, j: nat, scope: Scope)
    requires j < |log| && log[j] == Cut(scope)
    ensures Forgotten(log, j, scope)
  {
    forall i, k | 0 <= i < j && scope.Hits(k) ensures !Stands(log, i, k) {
      assert Against(log[j], k);
    }
  }

  lemma DisablingForgets(ttl: Ttl, lag: nat, w: World, k: Key)
    ensures Forgotten(Effect(ttl, lag, w, Disabling(k)).log, |w.log|, OfKey(k))
    ensures k !in Effect(ttl, lag, w, Disabling(k)).enables
  {
    CutForgets(Effect(ttl, lag, w, Disabling(k)).log, |w.log|, OfKey(k));
  }

  lemma FewerForgotten(log: seq<Fact>, m: nat, scope: Scope)
    ensures forall n :: m <= n && Forgotten(log, n, scope) ==> Forgotten(log, m, scope)
  {
  }

  lemma StaysForgotten(log: seq<Fact>, longer: seq<Fact>, n: nat, scope: Scope)
    requires Forgotten(log, n, scope) && log <= longer && n <= |log|
    ensures Forgotten(longer, n, scope)
  {
    forall i, k | 0 <= i < n && scope.Hits(k) ensures !Stands(longer, i, k) {
      assert !Stands(log, i, k);
      var j :| i < j < |log| && Against(log[j], k);
      assert longer[j] == log[j];
    }
  }

  /** Off the allowlist, a project keeps no enable, no cached decision and no earlier probe. */
  lemma DelistingTakesAll(ttl: Ttl, lag: nat, w: World, p: Project)
    ensures var w' := Effect(ttl, lag, w, Delisting(p));
            && (forall q :: q in w'.allowlist <==> q in w.allowlist && q != p)
            && (forall k :: k in w'.enables <==> k in w.enables && k.project != p)
            && w'.connections == w.connections
            && w'.Cleaned(OfProject(p)) && Forgotten(w'.log, |w.log|, OfProject(p))
  {
    CutForgets(Effect(ttl, lag, w, Delisting(p)).log, |w.log|, OfProject(p));
  }

  lemma DelistingTouches(ttl: Ttl, lag: nat, w: World, p: Project)
    ensures Effect(ttl, lag, w, Delisting(p))
         == w.(allowlist := Without1(w.allowlist, p), enables := (set k | k in w.enables && k.project != p),
               cache := Without(w.cache, OfProject(p)),
               log := Dropped(Learnt(w, Cut(OfProject(p))), OfProject(p)).log,
               stale := Dropped(Learnt(w, Cut(OfProject(p))), OfProject(p)).stale)
  {
  }

  /** A closed address takes everything along that was said or stored of its projects. */
  lemma ClosingTakesAll(ttl: Ttl, lag: nat, w: World, instance: string)
    requires !InUse(w.connections, instance)
    ensures var w' := Effect(ttl, lag, w, Closing(instance));
            && (forall q :: q in w'.allowlist <==> q in w.allowlist && q.instance != instance)
            && (forall k :: k in w'.enables <==> k in w.enables && k.project.instance != instance)
            && w'.connections == w.connections
            && w'.Cleaned(OfInstance(instance)) && Forgotten(w'.log, |w.log|, OfInstance(instance))
  {
    CutForgets(Effect(ttl, lag, w, Closing(instance)).log, |w.log|, OfInstance(instance));
  }

  lemma ClosingTouches(ttl: Ttl, lag: nat, w: World, instance: string)
    ensures Effect(ttl, lag, w, Closing(instance))
         == if InUse(w.connections, instance) then w
            else w.(allowlist := Elsewhere(w.allowlist, instance),
                    enables := (set k | k in w.enables && k.project.instance != instance),
                    cache := Without(w.cache, OfInstance(instance)),
                    log := Dropped(Learnt(w, Cut(OfInstance(instance))), OfInstance(instance)).log,
                    stale := Dropped(Learnt(w, Cut(OfInstance(instance))), OfInstance(instance)).stale)
  {
  }

  // ----- Moments of a request -----

  /** Time and knowledge only grow. */
  ghost predicate Ordered(past: seq<World>) {
    forall i, j :: 0 <= i <= j < |past| ==> past[i].clock <= past[j].clock && past[i].log <= past[j].log
  }

  ghost predicate OnceAllowed(past: seq<World>, from: int, p: Project) {
    exists i :: 0 <= i < |past| && from <= i && p in past[i].allowlist
  }

  ghost predicate OnceEnabled(past: seq<World>, from: int, k: Key) {
    exists i :: 0 <= i < |past| && from <= i && k in past[i].enables
  }

  ghost predicate OnceDisabled(past: seq<World>, from: int, k: Key) {
    exists i :: 0 <= i < |past| && from <= i && k !in past[i].enables
  }

  ghost predicate OnceConnected(past: seq<World>, from: int, user: string, instance: string) {
    exists i :: 0 <= i < |past| && from <= i && Connected(past[i].connections, user, instance)
  }

  /** At some moment a young standing probe backed the key. */
  ghost predicate OnceBacked(past: seq<World>, from: int, k: Key, maxAge: int) {
    exists i :: 0 <= i < |past| && from <= i && past[i].Backs(k, maxAge)
  }

  /** At some moment the cache held a fresh grant of the key that was stale. */
  ghost predicate OnceTrusted(past: seq<World>, from: int, k: Key) {
    exists i :: 0 <= i < |past| && from <= i && past[i].Trusts(k)
  }

  ghost predicate OnceDenied(past: seq<World>, from: int, k: Key) {
    exists i :: 0 <= i < |past| && from <= i && past[i].Denies(k)
  }

  ghost predicate OnceGranted(past: seq<World>, from: int, k: Key) {
    exists i :: 0 <= i < |past| && from <= i && FreshGrant(past[i].cache, k, past[i].clock)
  }

  ghost predicate OnceCleaned(past: seq<World>, from: int, scope: Scope) {
    exists i :: 0 <= i < |past| && from <= i && past[i].Cleaned(scope)
  }

  /** At some moment all rows of the connection had this status. */
  ghost predicate OnceStatus(past: seq<World>, from: int, id: string, status: ConnectionStatus) {
    exists i :: 0 <= i < |past| && from <= i && AllHave(past[i].connections, id, status)
  }

  predicate AllHave(conns: seq<Connection>, id: string, status: ConnectionStatus) {
    forall c :: c in conns && c.id == id ==> c.status == status
  }

  /** What a verdict says about moments since `from`. */
  ghost predicate VerdictHolds(past: seq<World>, from: int, k: Key, maxAge: int, answer: Probe, verdict: Visibility) {
    && (verdict.Allowed? ==> OnceBacked(past, from, k, maxAge) || OnceTrusted(past, from, k))
    && (answer.Visible? && !verdict.Allowed? ==> OnceDenied(past, from, k))
    && (!answer.Visible? && verdict.Allowed? ==> OnceGranted(past, from, k))
  }

  lemma VerdictStillHolds(past: seq<World>, longer: seq<World>, from: int, since: int, k: Key, maxAge: int,
                          answer: Probe, verdict: Visibility)
    requires VerdictHolds(past, from, k, maxAge, answer, verdict) && past <= longer && since <= from
    ensures VerdictHolds(longer, since, k, maxAge, answer, verdict)
  {
    assert forall i :: 0 <= i < |past| ==> longer[i] == past[i];
  }

  /** The cache held a fresh entry that says so. */
  ghost predicate FromCache(past: seq<World>, from: int, k: Key, verdict: Visibility) {
    match verdict
    case Allowed => OnceGranted(past, from, k)
    case Hidden => OnceDenied(past, from, k)
    case Unknown => false
  }

  function VerdictOf(answer: Probe): Visibility {
    if answer.Failure? then Unknown else if answer.Visible? then Allowed else Hidden
  }

  lemma StillFromCache(past: seq<World>, longer: seq<World>, from: int, since: int, k: Key, verdict: Visibility)
    requires FromCache(past, from, k, verdict) && past <= longer && since <= from
    ensures FromCache(longer, since, k, verdict)
  {
    assert forall i :: 0 <= i < |past| ==> longer[i] == past[i];
  }

  ghost predicate OnceDelisted(past: seq<World>, from: int, p: Project) {
    exists i :: 0 <= i < |past| && from <= i && p !in past[i].allowlist
  }

  ghost predicate OnceDisconnected(past: seq<World>, from: int, user: string, instance: string) {
    exists i :: 0 <= i < |past| && from <= i && !Connected(past[i].connections, user, instance)
  }

  /** At some moment another active row kept this connection from becoming active. */
  ghost predicate OnceKeptOut(past: seq<World>, from: int, id: string) {
    exists i :: 0 <= i < |past| && from <= i && !OneActive(WithStatus(past[i].connections, id, Active))
  }

  /** Each table read is that of some moment. */
  ghost predicate RowsRead(past: seq<World>, from: int, conns: seq<Connection>, allowed: seq<Project>,
                           enabled: set<Key>)
  {
    && (exists i :: 0 <= i < |past| && from <= i && past[i].connections == conns)
    && (exists i :: 0 <= i < |past| && from <= i && past[i].allowlist == allowed)
    && (exists i :: 0 <= i < |past| && from <= i && past[i].enables == enabled)
  }

  lemma RowsStillRead(past: seq<World>, longer: seq<World>, from: int, conns: seq<Connection>, allowed: seq<Project>,
                      enabled: set<Key>)
    requires RowsRead(past, from, conns, allowed, enabled) && past <= longer
    ensures RowsRead(longer, from, conns, allowed, enabled)
  {
    assert forall i :: 0 <= i < |past| ==> longer[i] == past[i];
  }

  lemma RowsSay(past: seq<World>, from: int, conns: seq<Connection>, allowed: seq<Project>, enabled: set<Key>,
                user: string, instance: string)
    requires RowsRead(past, from, conns, allowed, enabled)
    ensures forall p :: if p in allowed then OnceAllowed(past, from, p) else OnceDelisted(past, from, p)
    ensures forall k :: if k in enabled then OnceEnabled(past, from, k) else OnceDisabled(past, from, k)
    ensures if Connected(conns, user, instance) then OnceConnected(past, from, user, instance)
            else OnceDisconnected(past, from, user, instance)
  {
  }

  lemma RowsServe(past: seq<World>, from: int, conns: seq<Connection>, allowed: seq<Project>, enabled: set<Key>, n: nat)
    requires RowsRead(past, from, conns, allowed, enabled) && n < |conns| && conns[n].status.Active?
    ensures OnceServed(past, from, conns[n])
    ensures OnceConnected(past, from, conns[n].user, conns[n].instance)
  {
    assert conns[n] in conns && conns[n].Serves(conns[n].user, conns[n].instance);
  }

  lemma NotYetConnected(conns: seq<Connection>, n: nat, user: string)
    requires OneActive(conns) && n < |conns| && conns[n].status.Active? && conns[n].user == user
    ensures !Connected(conns[..n], user, conns[n].instance)
  {
  }

  lemma OneConnectionMore(conns: seq<Connection>, c: Connection, user: string, instance: string)
    ensures Connected(conns + [c], user, instance) <==> Connected(conns, user, instance) || c.Serves(user, instance)
  {
    if Connected(conns, user, instance) {
      var i :| 0 <= i < |conns| && conns[i].Serves(user, instance);
      assert (conns + [c])[i] == conns[i];
    }
    assert (conns + [c])[|conns|] == c;
  }

  /** An answer that has just come in backs its key, for any age above none. */
  lemma JustBacked(past: seq<World>, from: int, k: Key, maxAge: int)
    requires past != [] && from < |past| && maxAge > 0
    requires var w := past[|past| - 1]; w.log != [] && w.log[|w.log| - 1] == Granted(k, w.clock)
    ensures OnceBacked(past, from, k, maxAge)
  {
    var w := past[|past| - 1];
    assert Stands(w.log, |w.log| - 1, k);
    assert w.Backs(k, maxAge);
  }

  lemma BackedOnce(past: seq<World>, longer: seq<World>, from: int, since: int, k: Key, maxAge: int)
    requires OnceBacked(past, from, k, maxAge) && past <= longer && since <= from
    ensures OnceBacked(longer, since, k, maxAge)
  {
    var i :| 0 <= i < |past| && from <= i && past[i].Backs(k, maxAge);
    assert longer[i] == past[i];
  }

  /** No index keeps a connection from becoming inactive. */
  lemma InactiveIsOnce(ttl: Ttl, lag: nat, w: World, past: seq<World>, from: int, id: string, status: ConnectionStatus)
    requires !status.Active? && OneActive(w.connections)
    requires past != [] && from < |past| && past[|past| - 1] == Effect(ttl, lag, w, Setting(id, status))
    ensures OnceStatus(past, from, id, status)
  {
    var rows := WithStatus(w.connections, id, status);
    assert OneActive(rows);
    forall c | c in past[|past| - 1].connections && c.id == id ensures c.status == status {
      var i :| 0 <= i < |rows| && rows[i] == c;
    }
  }

  /** A connection becomes active exactly if the unique index lets it. */
  lemma ActiveIsOnce(ttl: Ttl, lag: nat, w: World, past: seq<World>, from: int, id: string)
    requires past != [] && from < |past| && past[|past| - 1] == Effect(ttl, lag, w, Setting(id, Active))
    ensures OneActive(WithStatus(w.connections, id, Active)) ==> OnceStatus(past, from, id, Active)
  {
    var rows := WithStatus(w.connections, id, Active);
    if OneActive(rows) {
      forall c | c in past[|past| - 1].connections && c.id == id ensures c.status == Active {
        var i :| 0 <= i < |rows| && rows[i] == c;
      }
    }
  }

  lemma KeptOutOnce(past: seq<World>, longer: seq<World>, from: int, id: string)
    requires past != [] && past <= longer && from < |past|
    ensures !OneActive(WithStatus(past[|past| - 1].connections, id, Active)) ==> OnceKeptOut(longer, from, id)
  {
    assert longer[|past| - 1] == past[|past| - 1];
  }

  lemma StatusStays(past: seq<World>, longer: seq<World>, from: int, id: string, status: ConnectionStatus)
    requires OnceStatus(past, from, id, status) && past <= longer
    ensures OnceStatus(longer, from, id, status)
  {
    assert forall i :: 0 <= i < |past| ==> longer[i] == past[i];
  }

  lemma StatusOnce(past: seq<World>, from: int, since: int, id: string, status: ConnectionStatus)
    requires OnceStatus(past, from, id, status) && since <= from
    ensures OnceStatus(past, since, id, status)
  {
  }

  lemma CleanedOnce(past: seq<World>, from: int, since: int, scope: Scope)
    requires OnceCleaned(past, from, scope) && since <= from
    ensures OnceCleaned(past, since, scope)
  {
  }

  /** Over whole runs of everyone's statements: a fresh grant that is not stale is backed at every moment. */
  lemma {:induction false} RunsStaySound(ttl: Ttl, lag: nat, past: seq<World>, steps: seq<Turn>, n: nat, k: Key)
    requires ttl.Valid() && Traced(ttl, lag, past, steps) && SoundWorld(past[0], ttl.Millis(true) + lag) && n < |past|
    ensures SoundWorld(past[n], ttl.Millis(true) + lag)
    ensures FreshGrant(past[n].cache, k, past[n].clock) ==>
      past[n].Trusts(k) || past[n].Backs(k, ttl.Millis(true) + lag)
  {
    hide Effect, NoRepeats, OneActive;
    if n > 0 {
      RunsStaySound(ttl, lag, past, steps, n - 1, k);
      EffectKeepsSound(ttl, lag, past[n - 1], steps[n - 1].what);
    }
    if FreshGrant(past[n].cache, k, past[n].clock) && k !in past[n].stale {
      assert Justified(past[n].log, k, past[n].cache[k], ttl.Millis(true) + lag);
    }
  }

  // ----- What a request does itself -----

  /** Which calls may fail: reading the tables, and asking on behalf of these connections. */
  datatype Faults = Faults(tables: bool, asking: set<string>)

  /** The projects whose probes were answered with yes or no. */
  function Answered(asked: seq<Project>, answer: Replies): (r: seq<Project>)
    ensures forall p :: p in r <==> p in asked && !answer(p).Failure?
  {
    if asked == [] then []
    else
      var last := asked[|asked| - 1];
      Answered(asked[..|asked| - 1], answer) + (if answer(last).Failure? then [] else [last])
  }

  lemma AnsweredGrows(asked: seq<Project>, p: Project, answer: Replies)
    ensures Answered(asked + [p], answer) == Answered(asked, answer) + (if answer(p).Failure? then [] else [p])
  {
    assert (asked + [p])[..|asked|] == asked;
  }

  /** One write for each answer, with what was answered. */
  ghost function Writes(user: string, answered: seq<Project>, answer: Replies, at: map<Project, int>): seq<Stmt> {
    seq(|answered|, i requires 0 <= i < |answered| =>
      Writing(Key(user, answered[i]), answer(answered[i]).Visible?, if answered[i] in at then at[answered[i]] else -1))
  }

  lemma WritesGrow(user: string, answered: seq<Project>, p: Project, answer: Replies, at: map<Project, int>)
    ensures Writes(user, answered + [p], answer, at)
         == Writes(user, answered, answer, at)
            + [Writing(Key(user, p), answer(p).Visible?, if p in at then at[p] else -1)]
  {
  }

  /** What giving up a token does: the connection's status, then the cached decisions. */
  function GivingUp(c: Connection, status: ConnectionStatus): seq<Stmt> {
    [Setting(c.id, status), Dropping(OfUserInstance(c.user, c.instance))]
  }

  /** GitLab refused the token for a project of the instance that was on the allowlist. */
  ghost predicate OnceRefused(past: seq<World>, from: int, instance: string, answer: Replies) {
    exists p: Project :: p.instance == instance && OnceAllowed(past, from, p) && answer(p).Unauthorized?
  }

  /** The user had this connection active at some moment, and GitLab refused its token. */
  ghost predicate OnceUseless(past: seq<World>, from: int, user: string, id: string, answer: Replies) {
    exists i, c: Connection :: 0 <= i < |past| && from <= i && c in past[i].connections
      && c.id == id && c.Serves(user, c.instance) && OnceRefused(past, from, c.instance, answer)
  }

  /**
   * Reading a list changes nothing but this: answers are cached as they were
   * given, and a connection whose token GitLab refused is given up.
   */
  ghost predicate Honest(past: seq<World>, from: int, user: string, answer: Replies, done: seq<Stmt>) {
    forall s :: s in done ==> HonestStep(past, from, user, answer, s)
  }

  ghost predicate HonestStep(past: seq<World>, from: int, user: string, answer: Replies, s: Stmt) {
    match s
    case Writing(k, granted, _) =>
      k.user == user && granted == answer(k.project).Visible? && (granted || answer(k.project).Denied?)
    case Setting(id, status) => status.Invalid? && OnceUseless(past, from, user, id, answer)
    case Dropping(scope) =>
      scope.OfUserInstance? && scope.user == user && OnceRefused(past, from, scope.instance, answer)
    case _ => false
  }

  lemma StillHonest(past: seq<World>, longer: seq<World>, from: int, user: string, answer: Replies, done: seq<Stmt>)
    requires Honest(past, from, user, answer, done) && past <= longer
    ensures Honest(longer, from, user, answer, done)
  {
    forall s | s in done ensures HonestStep(longer, from, user, answer, s) {
      assert HonestStep(past, from, user, answer, s);
      if s.Setting? {
        var i, c: Connection :| 0 <= i < |past| && from <= i && c in past[i].connections
                             && c.id == s.id && c.Serves(user, c.instance)
                             && OnceRefused(past, from, c.instance, answer);
        assert longer[i] == past[i];
        StillRefused(past, longer, from, c.instance, answer);
      } else if s.Dropping? {
        StillRefused(past, longer, from, s.scope.instance, answer);
      }
    }
  }

  lemma StillRefused(past: seq<World>, longer: seq<World>, from: int, instance: string, answer: Replies)
    requires OnceRefused(past, from, instance, answer) && past <= longer
    ensures OnceRefused(longer, from, instance, answer)
  {
    var p: Project :| p.instance == instance && OnceAllowed(past, from, p) && answer(p).Unauthorized?;
    var j :| 0 <= j < |past| && from <= j && p in past[j].allowlist;
    assert longer[j] == past[j];
    assert OnceAllowed(longer, from, p);
  }

  lemma NothingIsHonest(past: seq<World>, from: int, user: string, answer: Replies)
    ensures Honest(past, from, user, answer, [])
  {
  }

  lemma HonestTogether(past: seq<World>, longer: seq<World>, from: int, user: string, answer: Replies, a: seq<Stmt>,
                       b: seq<Stmt>)
    requires Honest(past, from, user, answer, a) && past <= longer && Honest(longer, from, user, answer, b)
    ensures Honest(longer, from, user, answer, a + b)
  {
    StillHonest(past, longer, from, user, answer, a);
  }

  /** What was cached: one entry for each of these projects, as it was answered, and nothing else. */
  ghost predicate Kept(user: string, asked: seq<Project>, answer: Replies, at: map<Project, int>, did: seq<Stmt>) {
    did == Writes(user, Answered(asked, answer), answer, at)
  }

  lemma NothingKept(user: string, answer: Replies, at: map<Project, int>)
    ensures Kept(user, [], answer, at, [])
  {
  }

  lemma KeptMore(user: string, asked: seq<Project>, p: Project, answer: Replies, at: map<Project, int>, did: seq<Stmt>)
    requires Kept(user, asked, answer, at, did) && p in at
    ensures Kept(user, asked + [p], answer, at,
                 if answer(p).Failure? then did else did + [Writing(Key(user, p), answer(p).Visible?, at[p])])
  {
    AnsweredGrows(asked, p, answer);
    WritesGrow(user, Answered(asked, answer), p, answer, at);
  }

  lemma KeptIsHonest(past: seq<World>, from: int, user: string, asked: seq<Project>, answer: Replies,
                     at: map<Project, int>, did: seq<Stmt>)
    requires Kept(user, asked, answer, at, did) && forall p :: p in asked ==> !answer(p).Throws()
    ensures Honest(past, from, user, answer, did)
  {
    var answered := Answered(asked, answer);
    forall s | s in did ensures HonestStep(past, from, user, answer, s) {
      var i :| 0 <= i < |did| && did[i] == s;
      assert answered[i] in answered;
    }
  }

  lemma GivingUpIsHonest(past: seq<World>, from: int, answer: Replies, c: Connection, p: Project, did: seq<Stmt>)
    requires did <= GivingUp(c, Invalid) && OnceServed(past, from, c)
    requires answer(p).Unauthorized? && OnceAllowed(past, from, p) && p.instance == c.instance
    ensures Honest(past, from, c.user, answer, did)
  {
    var i :| 0 <= i < |past| && from <= i && c in past[i].connections;
    assert OnceRefused(past, from, c.instance, answer);
    assert OnceUseless(past, from, c.user, c.id, answer);
  }

  /** The fact `i` is the answer, given after the first `since` facts. */
  ghost predicate Heard(log: seq<Fact>, since: nat, k: Key, answer: Probe, i: int) {
    since <= i && (answer.Visible? ==> i < |log| && log[i].Granted? && log[i].key == k)
  }

  /** GitLab refused the token before anything was written, and it was given up, as far as that did not fail. */
  ghost predicate CutShort(c: Connection, projects: seq<Project>, answer: Replies, asked: seq<Project>,
                           did: seq<Stmt>)
  {
    asked == [] && did <= GivingUp(c, Invalid) && exists p :: p in projects && answer(p).Unauthorized?
  }

  /** Why nothing came of asking: GitLab refused the token, or a call failed or broke. */
  ghost predicate Excused(projects: seq<Project>, answer: Replies, mayFail: bool, refused: bool) {
    if refused then exists p :: p in projects && answer(p).Unauthorized?
    else mayFail || exists p :: p in projects && answer(p).Broken?
  }

  lemma HeardSince(log: seq<Fact>, since: nat, later: nat, user: string, asked: seq<Project>, answer: Replies,
                   at: map<Project, int>)
    requires since <= later
    requires forall p :: p in asked ==> p in at && Heard(log, later, Key(user, p), answer(p), at[p])
    ensures forall p :: p in asked ==> p in at && Heard(log, since, Key(user, p), answer(p), at[p])
  {
  }

  lemma KeptIsAnswered(user: string, asked: seq<Project>, answer: Replies, at: map<Project, int>, did: seq<Stmt>)
    requires Kept(user, asked, answer, at, did)
    ensures forall s :: s in did ==>
      s.Writing? && s.key.user == user && s.key.project in asked && !answer(s.key.project).Failure?
  {
    var answered := Answered(asked, answer);
    forall s | s in did
      ensures s.Writing? && s.key.user == user && s.key.project in asked && !answer(s.key.project).Failure?
    {
      var i :| 0 <= i < |did| && did[i] == s;
      assert answered[i] in answered;
    }
  }

  /** The connection was active at some moment. */
  ghost predicate OnceServed(past: seq<World>, from: int, c: Connection) {
    c.status.Active? && exists i :: 0 <= i < |past| && from <= i && c in past[i].connections
  }

  lemma StillServed(past: seq<World>, longer: seq<World>, from: int, c: Connection)
    requires OnceServed(past, from, c) && past <= longer
    ensures OnceServed(longer, from, c)
  {
    var i :| 0 <= i < |past| && from <= i && c in past[i].connections;
    assert longer[i] == past[i];
  }

  lemma ResolvedHonestly(past: seq<World>, longer: seq<World>, from: int, c: Connection, projects: seq<Project>,
                         asked: seq<Project>, answer: Replies, at: map<Project, int>, did: seq<Stmt>)
    requires OnceServed(past, from, c) && past <= longer
    requires forall p :: p in projects ==> p.instance == c.instance && OnceAllowed(past, from, p)
    requires Kept(c.user, asked, answer, at, did) || CutShort(c, projects, answer, asked, did)
    requires forall p :: p in asked ==> !answer(p).Throws()
    ensures Honest(longer, from, c.user, answer, did)
  {
    hide Kept, Honest, OnceServed;
    if Kept(c.user, asked, answer, at, did) {
      KeptIsHonest(longer, from, c.user, asked, answer, at, did);
    } else {
      var p :| p in projects && answer(p).Unauthorized?;
      var j :| 0 <= j < |past| && from <= j && p in past[j].allowlist;
      assert longer[j] == past[j];
      StillServed(past, longer, from, c);
      GivingUpIsHonest(longer, from, answer, c, p, did);
    }
  }

  lemma AddUp(before: seq<Stmt>, a: seq<Stmt>, b: seq<Stmt>)
    ensures (before + a) + b == before + (a + b)
  {
  }

  /** Nothing happens but by statements. */
  ghost predicate Traced(ttl: Ttl, lag: nat, past: seq<World>, steps: seq<Turn>) {
    && |past| == |steps| + 1 && Ordered(past)
    && forall i :: 0 <= i < |steps| ==> past[i + 1] == Effect(ttl, lag, past[i], steps[i].what)
  }

  lemma TracedOn(ttl: Ttl, lag: nat, past: seq<World>, steps: seq<Turn>, s: Turn)
    requires Traced(ttl, lag, past, steps)
    ensures Traced(ttl, lag, past + [Effect(ttl, lag, past[|past| - 1], s.what)], steps + [s])
  {
    hide Effect;
    EffectMovesOn(ttl, lag, past[|past| - 1], s.what);
    var longer := past + [Effect(ttl, lag, past[|past| - 1], s.what)];
    forall i, j | 0 <= i <= j < |longer| ensures longer[i].clock <= longer[j].clock && longer[i].log <= longer[j].log {
      assert i < |past| ==> past[i].clock <= past[|past| - 1].clock && past[i].log <= past[|past| - 1].log;
    }
    forall i | 0 <= i < |steps + [s]| ensures longer[i + 1] == Effect(ttl, lag, longer[i], (steps + [s])[i].what) {
      assert i < |steps| ==> longer[i + 1] == past[i + 1] && (steps + [s])[i] == steps[i];
    }
  }

  // ----- Items -----

  /** There is a reason why a connection of the user to this instance could not be asked. */
  ghost predicate MayReject(past: seq<World>, from: int, user: string, instance: string, faults: Faults,
                            answer: Replies)
  {
    exists i, c :: 0 <= i < |past| && from <= i && c in past[i].connections && c.Serves(user, instance)
      && (c.id in faults.asking || SomeThrows(past, from, instance, answer))
  }

  ghost predicate SomeThrows(past: seq<World>, from: int, instance: string, answer: Replies) {
    exists p: Project :: p.instance == instance && OnceAllowed(past, from, p) && answer(p).Throws()
  }

  /**
   * What one item says: each part held at some moment since the request began,
   * and what GitLab shows is left out for a reason only.
   */
  ghost predicate ItemHolds(past: seq<World>, from: int, user: string, maxAge: int, faults: Faults, answer: Replies,
                            it: Item)
  {
    var k := Key(user, it.project);
    && OnceAllowed(past, from, it.project) && OnceConnected(past, from, user, it.project.instance)
    && (if it.enabled then OnceEnabled(past, from, k) else OnceDisabled(past, from, k))
    && (it.visible ==> !it.failed && (OnceBacked(past, from, k, maxAge) || OnceTrusted(past, from, k)))
    && (answer(it.project).Visible? && !it.visible ==>
          OnceDenied(past, from, k) || (it.failed && MayReject(past, from, user, it.project.instance, faults, answer)))
    && (!answer(it.project).Visible? && it.visible ==> OnceGranted(past, from, k))
  }

  lemma RejectedForAReason(past: seq<World>, longer: seq<World>, from: int, c: Connection, projects: seq<Project>,
                           faults: Faults, answer: Replies, refused: bool)
    requires OnceServed(past, from, c) && past <= longer
    requires forall p :: p in projects ==> p.instance == c.instance && OnceAllowed(past, from, p)
    requires Excused(projects, answer, c.id in faults.asking, refused)
    ensures MayReject(longer, from, c.user, c.instance, faults, answer)
  {
    var i :| 0 <= i < |past| && from <= i && c in past[i].connections;
    assert longer[i] == past[i];
    if c.id !in faults.asking {
      var p :| p in projects && answer(p).Throws();
      var j :| 0 <= j < |past| && from <= j && p in past[j].allowlist;
      assert longer[j] == past[j];
      assert OnceAllowed(longer, from, p);
      assert SomeThrows(longer, from, c.instance, answer);
    }
  }

  /** At moments of the request the project was allowlisted, connected, and shown, or taken for it. */
  ghost predicate Entitled(past: seq<World>, from: int, user: string, p: Project, maxAge: int, answer: Replies) {
    && OnceAllowed(past, from, p) && OnceConnected(past, from, user, p.instance)
    && (OnceBacked(past, from, Key(user, p), maxAge) || OnceTrusted(past, from, Key(user, p)))
    && (answer(p).Visible? || OnceGranted(past, from, Key(user, p)))
  }

  lemma StillEntitled(past: seq<World>, longer: seq<World>, from: int, user: string, p: Project, maxAge: int,
                      answer: Replies)
    requires Entitled(past, from, user, p, maxAge, answer) && past <= longer
    ensures Entitled(longer, from, user, p, maxAge, answer)
  {
    assert forall i :: 0 <= i < |past| ==> longer[i] == past[i];
  }

  lemma AllowedIsEntitled(past: seq<World>, longer: seq<World>, from: int, user: string, p: Project, maxAge: int,
                          answer: Replies)
    requires OnceAllowed(past, from, p) && OnceConnected(past, from, user, p.instance) && past <= longer
    requires VerdictHolds(longer, from, Key(user, p), maxAge, answer(p), Allowed)
    ensures Entitled(longer, from, user, p, maxAge, answer)
  {
    assert forall i :: 0 <= i < |past| ==> longer[i] == past[i];
  }

  lemma NotAllowedForAReason(past: seq<World>, from: int, k: Key, maxAge: int, answer: Probe, verdict: Visibility)
    requires VerdictHolds(past, from, k, maxAge, answer, verdict)
    ensures verdict.Allowed? || !answer.Visible? || OnceDenied(past, from, k)
  {
  }

  lemma EnabledOnce(past: seq<World>, from: int, since: int, k: Key)
    requires since <= from
    ensures OnceEnabled(past, from, k) ==> OnceEnabled(past, since, k)
  {
  }

  lemma StillMayReject(past: seq<World>, longer: seq<World>, from: int, user: string, instance: string, faults: Faults,
                       answer: Replies)
    requires MayReject(past, from, user, instance, faults, answer) && past <= longer
    ensures MayReject(longer, from, user, instance, faults, answer)
  {
    var i, c :| 0 <= i < |past| && from <= i && c in past[i].connections && c.Serves(user, instance)
             && (c.id in faults.asking || SomeThrows(past, from, instance, answer));
    assert longer[i] == past[i];
    if c.id !in faults.asking {
      var p: Project :| p.instance == instance && OnceAllowed(past, from, p) && answer(p).Throws();
      var j :| 0 <= j < |past| && from <= j && p in past[j].allowlist;
      assert longer[j] == past[j];
      assert OnceAllowed(longer, from, p);
    }
  }

  lemma ItemStillHolds(past: seq<World>, longer: seq<World>, from: int, user: string, maxAge: int, faults: Faults,
                       answer: Replies, it: Item)
    requires ItemHolds(past, from, user, maxAge, faults, answer, it) && past <= longer
    ensures ItemHolds(longer, from, user, maxAge, faults, answer, it)
  {
    hide MayReject;
    assert forall i :: 0 <= i < |past| ==> longer[i] == past[i];
    if MayReject(past, from, user, it.project.instance, faults, answer) {
      StillMayReject(past, longer, from, user, it.project.instance, faults, answer);
    }
  }

  lemma MakesItem(past: seq<World>, longer: seq<World>, from: int, user: string, maxAge: int, faults: Faults,
                  answer: Replies, it: Item, rejected: bool, verdict: Visibility)
    requires past <= longer
    requires OnceAllowed(past, from, it.project) && OnceConnected(past, from, user, it.project.instance)
    requires if it.enabled then OnceEnabled(past, from, Key(user, it.project))
             else OnceDisabled(past, from, Key(user, it.project))
    requires it.visible == verdict.Allowed? && it.failed == verdict.Unknown?
    requires if rejected then
               verdict.Unknown? && MayReject(longer, from, user, it.project.instance, faults, answer)
             else
               VerdictHolds(longer, from, Key(user, it.project), maxAge, answer(it.project), verdict)
    ensures ItemHolds(longer, from, user, maxAge, faults, answer, it)
  {
    hide MayReject;
    assert forall i :: 0 <= i < |past| ==> longer[i] == past[i];
  }

  function OnInstance(projects: seq<Project>, instance: string): (r: seq<Project>)
    ensures forall p :: p in r <==> p in projects && p.instance == instance
  {
    if projects == [] then []
    else (if projects[0].instance == instance then [projects[0]] else []) + OnInstance(projects[1..], instance)
  }

  lemma {:induction false} OnInstanceDistinct(projects: seq<Project>, instance: string)
    requires NoRepeats(projects)
    ensures NoRepeats(OnInstance(projects, instance))
  {
    if projects != [] {
      OnInstanceDistinct(projects[1..], instance);
      var rest := OnInstance(projects[1..], instance);
      assert projects[0] !in rest;
      assert forall i :: 0 <= i < |rest| ==> rest[i] in rest;
    }
  }
}
