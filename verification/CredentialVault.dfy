/**
 * Token rotation (packages/credentials/src/pat-credential-provider.ts) under
 * PostgreSQL's READ COMMITTED rules: `SELECT ... FOR UPDATE` takes a snapshot,
 * waits for row locks, and checks again; the partial unique index over active
 * rows decides between inserts.
 */
module CredentialVault {
  import opened Base

  type CredentialId = nat
  type ConnectionId = string
  type Pat = string
  type TxId = nat

  /** A sealed token opens only under the identity it was bound to. */
  datatype Sealed = Sealed(secret: Pat, connection: ConnectionId, credential: CredentialId)

  function Open(s: Sealed, connection: ConnectionId, credential: CredentialId): Option<Pat> {
    if s.connection == connection && s.credential == credential then Some(s.secret) else None
  }

  datatype Status = Active | Superseded | Revoked | Invalid

  datatype Row = Row(connection: ConnectionId, token: Sealed, status: Status)

  datatype Reason = GitlabUnauthorized | Expired | UserRevoked | UserDeleted | ConnectionDeleted

  function StatusFor(reason: Reason): Status {
    match reason
    case GitlabUnauthorized => Invalid
    case Expired => Invalid
    case _ => Revoked
  }

  datatype Kind = Store | Replace

  /** Where a rotation stands. From `Locked` on it holds the locks of `held`. */
  datatype Phase =
    | Waiting(seen: set<CredentialId>)
    | Locked(held: set<CredentialId>)
    | Superseding(held: set<CredentialId>)
    | Inserted(held: set<CredentialId>, inserted: CredentialId)

  datatype Tx =
    | Rotation(kind: Kind, connection: ConnectionId, pat: Pat, phase: Phase)
    | Invalidation(connection: ConnectionId, reason: Reason, seen: set<CredentialId>)
  {
    function Locks(): set<CredentialId> {
      if Rotation? && !phase.Waiting? then phase.held else {}
    }

    predicate Pending(id: CredentialId) {
      Rotation? && phase.Inserted? && phase.inserted == id
    }

    predicate HasInserted(c: ConnectionId) {
      Rotation? && connection == c && phase.Inserted?
    }
  }

  predicate Live(rows: map<CredentialId, Row>, id: CredentialId, c: ConnectionId) {
    id in rows && rows[id].connection == c && rows[id].status.Active?
  }

  /** Committed rows, running transactions, and what a reader should get: one token per connection, or none. */
  datatype State = State(rows: map<CredentialId, Row>, txs: map<TxId, Tx>, current: map<ConnectionId, Pat>) {
    predicate IsActive(id: CredentialId, c: ConnectionId) {
      Live(rows, id, c)
    }

    function ActiveIds(c: ConnectionId): set<CredentialId> {
      set id | id in rows && IsActive(id, c)
    }

    /** Which of these rows the re-check after waiting still finds active. */
    function StillActive(ids: set<CredentialId>, c: ConnectionId): set<CredentialId> {
      set id | id in ids && IsActive(id, c)
    }

    predicate LockedByOther(id: CredentialId, me: TxId) {
      exists t :: t in txs && t != me && id in txs[t].Locks()
    }

    /** None of these rows is locked by someone else. */
    predicate Free(ids: set<CredentialId>, me: TxId) {
      forall id :: id in ids ==> !LockedByOther(id, me)
    }

    function Without(t: TxId): State {
      this.(txs := txs - {t})
    }

    function At(t: TxId, phase: Phase): State
      requires t in txs && txs[t].Rotation?
    {
      this.(txs := txs[t := txs[t].(phase := phase)])
    }
  }

  datatype Event =
    | Begin(t: TxId, kind: Kind, connection: ConnectionId, pat: Pat)
    | Lock(t: TxId)
    | Supersede(t: TxId)
    | Insert(t: TxId, id: CredentialId)
    | Commit(t: TxId)
    | Abort(t: TxId)
    | BeginInvalidation(t: TxId, connection: ConnectionId, reason: Reason)
    | Invalidate(t: TxId)

  /** Whether the database lets the event happen now; until then the transaction waits. */
  predicate Enabled(s: State, e: Event) {
    match e
    case Begin(t, _, _, _) => t !in s.txs
    case Lock(t) => t in s.txs && s.txs[t].Rotation? && s.txs[t].phase.Waiting? && s.Free(s.txs[t].phase.seen, t)
    case Supersede(t) =>
      t in s.txs && s.txs[t].Rotation? && s.txs[t].kind.Replace? && s.txs[t].phase.Locked?
    case Insert(t, id) =>
      && t in s.txs && s.txs[t].Rotation?
      && (if s.txs[t].kind.Store? then s.txs[t].phase.Locked? else s.txs[t].phase.Superseding?)
      && id !in s.rows
      && (forall other :: other in s.txs ==> !s.txs[other].Pending(id))
      // Another uncommitted row of the connection, or an uncommitted update of its active row, must be waited for.
      && (forall other :: other in s.txs && other != t ==> !s.txs[other].HasInserted(s.txs[t].connection))
      && s.Free(s.ActiveIds(s.txs[t].connection), t)
    case Commit(t) => t in s.txs && s.txs[t].Rotation? && s.txs[t].phase.Inserted?
    case Abort(t) => t in s.txs
    case BeginInvalidation(t, _, _) => t !in s.txs
    case Invalidate(t) => t in s.txs && s.txs[t].Invalidation? && s.Free(s.txs[t].seen, t)
  }

  function Mark(rows: map<CredentialId, Row>, ids: set<CredentialId>, status: Status): map<CredentialId, Row> {
    map id | id in rows :: if id in ids && rows[id].status.Active? then rows[id].(status := status) else rows[id]
  }

  function Step(s: State, e: Event): State
    requires Enabled(s, e)
  {
    match e
    case Begin(t, kind, c, pat) =>
      s.(txs := s.txs[t := Rotation(kind, c, pat, Waiting(s.ActiveIds(c)))])
    case Lock(t) =>
      var tx := s.txs[t];
      var still := s.StillActive(tx.phase.seen, tx.connection);
      if tx.kind.Store? && still != {} then s.Without(t) else s.At(t, Locked(still))
    case Supersede(t) => s.At(t, Superseding(s.txs[t].phase.held))
    case Insert(t, id) =>
      var tx := s.txs[t];
      // An active row that this transaction did not supersede violates the unique index.
      if exists other :: other in s.rows && s.IsActive(other, tx.connection)
                      && !(tx.phase.Superseding? && other in tx.phase.held)
      then s.Without(t)
      else s.At(t, Inserted(tx.phase.held, id))
    case Commit(t) =>
      var tx := s.txs[t];
      State(Mark(s.rows, tx.phase.held, Superseded)[tx.phase.inserted :=
              Row(tx.connection, Sealed(tx.pat, tx.connection, tx.phase.inserted), Active)],
            s.txs - {t},
            s.current[tx.connection := tx.pat])
    case Abort(t) => s.Without(t)
    case BeginInvalidation(t, c, reason) =>
      s.(txs := s.txs[t := Invalidation(c, reason, s.ActiveIds(c))])
    case Invalidate(t) =>
      var tx := s.txs[t];
      State(Mark(s.rows, tx.seen, StatusFor(tx.reason)), s.txs - {t},
            if exists id :: id in tx.seen && s.IsActive(id, tx.connection) then s.current - {tx.connection}
            else s.current)
  }

  /** What a reader gets: the newest active row, opened under its own identity. */
  ghost predicate Reads(s: State, c: ConnectionId, r: Option<Pat>) {
    if s.ActiveIds(c) == {} then r == None
    else exists id :: id in s.ActiveIds(c) && r == Open(s.rows[id].token, c, id)
  }

  // ----- The invariant -----

  ghost predicate TxOk(s: State, t: TxId)
    requires t in s.txs
  {
    var tx := s.txs[t];
    && (tx.Rotation? && tx.phase.Waiting? ==>
          forall id :: id in tx.phase.seen ==> id in s.rows && s.rows[id].connection == tx.connection)
    && (tx.Invalidation? ==> forall id :: id in tx.seen ==> id in s.rows && s.rows[id].connection == tx.connection)
    && (forall id :: id in tx.Locks() ==> s.IsActive(id, tx.connection) && !s.LockedByOther(id, t))
    && (tx.Rotation? && tx.kind.Store? ==> tx.Locks() == {} && !tx.phase.Superseding?)
    && (tx.Rotation? && tx.phase.Inserted? ==>
          && tx.phase.inserted !in s.rows
          && (forall other :: other in s.txs && other != t ==> !s.txs[other].Pending(tx.phase.inserted))
          && (forall id :: id in s.rows && s.IsActive(id, tx.connection) ==> id in tx.phase.held)
          && (forall other :: other in s.txs && other != t ==> !s.txs[other].HasInserted(tx.connection)))
  }

  /** At most one active row per connection; an active row holds the current token, and a current token has its row. */
  ghost predicate RowsOk(rows: map<CredentialId, Row>, current: map<ConnectionId, Pat>) {
    && (forall c, a, b :: Live(rows, a, c) && Live(rows, b, c) ==> a == b)
    && (forall id, c :: Live(rows, id, c) ==> c in current && rows[id].token == Sealed(current[c], c, id))
    && (forall c :: c in current ==> exists id :: Live(rows, id, c))
  }

  ghost predicate TxsOk(s: State) {
    forall t :: t in s.txs ==> TxOk(s, t)
  }

  ghost predicate Inv(s: State) {
    RowsOk(s.rows, s.current) && TxsOk(s)
  }

  /** A transaction that leaves, or only looks, takes nothing from the others. */
  lemma TxsStayOk(s: State, s': State, t: TxId)
    requires Inv(s) && s'.rows == s.rows
    requires forall o :: o in s'.txs && o != t ==> o in s.txs && s'.txs[o] == s.txs[o]
    requires t in s'.txs ==>
      && s'.txs[t].Locks() <= (if t in s.txs then s.txs[t].Locks() else {})
      && !s'.txs[t].HasInserted(s'.txs[t].connection)
    ensures forall o :: o in s'.txs && o != t ==> TxOk(s', o)
  {
    forall o | o in s'.txs && o != t ensures TxOk(s', o) {
      assert TxOk(s, o);
    }
  }

  lemma LockKeepsInv(s: State, t: TxId)
    requires Inv(s) && Enabled(s, Lock(t))
    ensures Inv(Step(s, Lock(t)))
  {
    hide RowsOk;
    var s' := Step(s, Lock(t));
    assert TxOk(s, t);
    forall o | o in s'.txs ensures TxOk(s', o) {
      assert TxOk(s, o);
      if o != t {
        forall id | id in s'.txs[o].Locks() ensures !s'.LockedByOther(id, o) {
          assert id in s.txs[o].Locks();
          assert t in s'.txs && id in s'.txs[t].Locks() ==> s.LockedByOther(id, t);
        }
      } else {
        forall id | id in s'.txs[t].Locks() ensures !s'.LockedByOther(id, t) {
          assert !s.LockedByOther(id, t);
        }
      }
    }
  }

  lemma InsertKeepsInv(s: State, t: TxId, id: CredentialId)
    requires Inv(s) && Enabled(s, Insert(t, id))
    ensures Inv(Step(s, Insert(t, id)))
  {
    hide RowsOk;
    var s' := Step(s, Insert(t, id));
    if t !in s'.txs {
      TxsStayOk(s, s', t);
    } else {
      forall o | o in s'.txs && o != t ensures TxOk(s', o) {
        assert TxOk(s, o) && s'.txs[o] == s.txs[o];
        forall held | held in s.txs[o].Locks() ensures !s'.LockedByOther(held, o) {
          assert !s.LockedByOther(held, o);
        }
      }
      assert TxOk(s', t) by {
        assert TxOk(s, t);
        forall held | held in s'.txs[t].Locks()
          ensures s'.IsActive(held, s.txs[t].connection) && !s'.LockedByOther(held, t)
        {
          assert held in s.txs[t].Locks() && !s.LockedByOther(held, t);
        }
        forall other | other in s'.txs && other != t
          ensures !s'.txs[other].Pending(id) && !s'.txs[other].HasInserted(s.txs[t].connection)
        {
          assert s'.txs[other] == s.txs[other];
        }
      }
    }
  }

  lemma SupersedeKeepsInv(s: State, t: TxId)
    requires Inv(s) && Enabled(s, Supersede(t))
    ensures Inv(Step(s, Supersede(t)))
  {
    hide RowsOk;
    var s' := Step(s, Supersede(t));
    forall o | o in s'.txs ensures TxOk(s', o) {
      assert TxOk(s, o);
      assert s'.txs[o].Locks() == s.txs[o].Locks();
      assert forall held :: held in s.txs[o].Locks() ==> !s.LockedByOther(held, o);
      assert forall held :: s'.LockedByOther(held, o) ==> s.LockedByOther(held, o);
    }
  }

  lemma CommitKeepsRows(s: State, t: TxId)
    requires RowsOk(s.rows, s.current) && Enabled(s, Commit(t)) && TxOk(s, t)
    ensures var s' := Step(s, Commit(t)); RowsOk(s'.rows, s'.current)
    ensures var (s', tx) := (Step(s, Commit(t)), s.txs[t]);
            && (forall id :: Live(s'.rows, id, tx.connection) <==> id == tx.phase.inserted)
            && (forall id, d :: d != tx.connection ==> (Live(s'.rows, id, d) <==> Live(s.rows, id, d)))
  {
    hide State.LockedByOther;
    var s' := Step(s, Commit(t));
    var tx := s.txs[t];
    var c, mine := tx.connection, tx.phase.inserted;
    assert forall id :: Live(s'.rows, id, c) <==> id == mine;
    forall id, d | d != c ensures Live(s'.rows, id, d) <==> Live(s.rows, id, d) {
      assert id in tx.phase.held ==> id in tx.Locks() && s.IsActive(id, c);
    }
    forall d | d in s'.current ensures exists id :: Live(s'.rows, id, d) {
      if d == c {
        assert Live(s'.rows, mine, c);
      }
    }
  }

  /** The new row becomes the only active one; the rows it supersedes were the only ones before. */
  lemma CommitKeepsInv(s: State, t: TxId)
    requires Inv(s) && Enabled(s, Commit(t))
    ensures Inv(Step(s, Commit(t)))
  {
    hide RowsOk, TxOk;
    CommitKeepsRows(s, t);
    var s' := Step(s, Commit(t));
    forall o | o in s'.txs ensures TxOk(s', o) {
      CommitKeepsTx(s, t, o);
    }
  }

  /** What another transaction holds stays locked and active. */
  lemma CommitKeepsTx(s: State, t: TxId, o: TxId)
    requires Inv(s) && Enabled(s, Commit(t)) && o in s.txs && o != t
    ensures o in Step(s, Commit(t)).txs && TxOk(Step(s, Commit(t)), o)
  {
    hide RowsOk;
    var s' := Step(s, Commit(t));
    assert TxOk(s, t) && TxOk(s, o);
    forall id | id in s.txs[o].Locks() ensures s'.IsActive(id, s.txs[o].connection) && !s'.LockedByOther(id, o) {
      assert !s.LockedByOther(id, o);
      assert id !in s.txs[t].Locks();
    }
  }

  lemma InvalidateKeepsRows(s: State, t: TxId)
    requires RowsOk(s.rows, s.current) && Enabled(s, Invalidate(t)) && TxOk(s, t)
    ensures var s' := Step(s, Invalidate(t)); RowsOk(s'.rows, s'.current)
    ensures var (s', tx) := (Step(s, Invalidate(t)), s.txs[t]);
            forall id, d :: Live(s'.rows, id, d) <==> Live(s.rows, id, d) && id !in tx.seen
  {
    hide State.LockedByOther;
    var s' := Step(s, Invalidate(t));
    var tx := s.txs[t];
    assert forall id, d :: Live(s'.rows, id, d) <==> Live(s.rows, id, d) && id !in tx.seen;
    forall d | d in s'.current ensures exists id :: Live(s'.rows, id, d) {
      var id :| Live(s.rows, id, d);
      assert Live(s'.rows, id, d) by {
        assert id in tx.seen ==> s.IsActive(id, tx.connection);
      }
    }
  }

  /** A statement that waited for every lock it needs breaks nobody's locks. */
  lemma InvalidateKeepsInv(s: State, t: TxId)
    requires Inv(s) && Enabled(s, Invalidate(t))
    ensures Inv(Step(s, Invalidate(t)))
  {
    hide RowsOk;
    assert TxOk(s, t);
    InvalidateKeepsRows(s, t);
    var s' := Step(s, Invalidate(t));
    var tx := s.txs[t];
    forall o | o in s'.txs ensures TxOk(s', o) {
      assert TxOk(s, o) && s'.txs[o] == s.txs[o];
      forall id | id in s'.txs[o].Locks() ensures s'.IsActive(id, s'.txs[o].connection) && !s'.LockedByOther(id, o) {
        assert !s.LockedByOther(id, o);
        assert id in tx.seen ==> s.LockedByOther(id, t);
      }
    }
  }

  /** Every step of every transaction keeps at most one active row per connection, holding the current token. */
  lemma StepKeepsInv(s: State, e: Event)
    requires Inv(s) && Enabled(s, e)
    ensures Inv(Step(s, e))
  {
    hide RowsOk;
    var s' := Step(s, e);
    match e {
      case Lock(t) => LockKeepsInv(s, t);
      case Supersede(t) => SupersedeKeepsInv(s, t);
      case Insert(t, id) => InsertKeepsInv(s, t, id);
      case Commit(t) => CommitKeepsInv(s, t);
      case Invalidate(t) => InvalidateKeepsInv(s, t);
      case Begin(t, _, _, _) => TxsStayOk(s, s', t);
      case BeginInvalidation(t, _, _) => TxsStayOk(s, s', t);
      case Abort(t) => TxsStayOk(s, s', t);
    }
  }

  // ----- Whole runs -----

  const INIT := State(map[], map[], map[])

  /** The state after these events, if the database let each of them happen when it did. */
  function After(es: seq<Event>): Option<State> {
    if es == [] then Some(INIT)
    else
      var before := After(es[..|es| - 1]);
      var e := es[|es| - 1];
      if before.Some? && Enabled(before.value, e) then Some(Step(before.value, e)) else None
  }

  lemma AfterOne(es: seq<Event>, e: Event)
    ensures After(es + [e]) ==
            if After(es).Some? && Enabled(After(es).value, e) then Some(Step(After(es).value, e)) else None
  {
    assert (es + [e])[..|es|] == es;
  }

  lemma {:induction false} RunKeepsInv(es: seq<Event>)
    requires After(es).Some?
    ensures Inv(After(es).value)
  {
    if es != [] {
      RunKeepsInv(es[..|es| - 1]);
      StepKeepsInv(After(es[..|es| - 1]).value, es[|es| - 1]);
    }
  }

  /** However the transactions interleave, a connection has at most one active credential. */
  lemma OneActivePerConnection(es: seq<Event>, c: ConnectionId, a: CredentialId, b: CredentialId)
    requires After(es).Some? && After(es).value.IsActive(a, c) && After(es).value.IsActive(b, c)
    ensures a == b
  {
    RunKeepsInv(es);
  }

  /** The connection whose readers the event switches to a new token, with that token. */
  function Commits(s: State, e: Event): Option<(ConnectionId, Pat)>
    requires Enabled(s, e)
  {
    if e.Commit? then Some((s.txs[e.t].connection, s.txs[e.t].pat)) else None
  }

  /** The connection whose active row the event takes away. */
  function Revokes(s: State, e: Event): Option<ConnectionId>
    requires Enabled(s, e)
  {
    if e.Invalidate? && s.txs[e.t].seen * s.ActiveIds(s.txs[e.t].connection) != {} then Some(s.txs[e.t].connection)
    else None
  }

  /** The last token committed for `c`, unless an invalidation took it away since. */
  function LastToken(es: seq<Event>, c: ConnectionId): Option<Pat>
    requires After(es).Some?
  {
    if es == [] then None
    else
      var (before, e) := (After(es[..|es| - 1]).value, es[|es| - 1]);
      if Commits(before, e).Some? && Commits(before, e).value.0 == c then Some(Commits(before, e).value.1)
      else if Revokes(before, e) == Some(c) then None
      else LastToken(es[..|es| - 1], c)
  }

  lemma {:induction false} CurrentIsLastToken(es: seq<Event>, c: ConnectionId)
    requires After(es).Some?
    ensures LastToken(es, c) == (if c in After(es).value.current then Some(After(es).value.current[c]) else None)
  {
    if es != [] {
      var (before, e) := (After(es[..|es| - 1]).value, es[|es| - 1]);
      CurrentIsLastToken(es[..|es| - 1], c);
      if e.Invalidate? {
        var tx := before.txs[e.t];
        assert (exists id :: id in tx.seen && before.IsActive(id, tx.connection)) <==> Revokes(before, e).Some? by {
          assert forall id ::
            id in tx.seen && before.IsActive(id, tx.connection) <==> id in tx.seen * before.ActiveIds(tx.connection);
        }
      }
    }
  }

  lemma ReadsCurrent(s: State, c: ConnectionId, r: Option<Pat>)
    requires RowsOk(s.rows, s.current)
    ensures Reads(s, c, r) <==> r == (if c in s.current then Some(s.current[c]) else None)
  {
    assert forall id :: id in s.ActiveIds(c) <==> Live(s.rows, id, c);
    if c in s.current {
      var id :| Live(s.rows, id, c);
      assert id in s.ActiveIds(c);
    }
  }

  /** A reader gets the last committed token that no invalidation has taken away since, and nothing else. */
  lemma ReadersGetTheLastToken(es: seq<Event>, c: ConnectionId, r: Option<Pat>)
    requires After(es).Some?
    ensures Reads(After(es).value, c, r) <==> r == LastToken(es, c)
  {
    RunKeepsInv(es);
    CurrentIsLastToken(es, c);
    ReadsCurrent(After(es).value, c, r);
  }

  /** A row that is not active is never rewritten, revived or removed, and no row ever changes its token. */
  lemma {:induction false} RetiredRowsAreFinal(es: seq<Event>, n: nat, id: CredentialId)
    requires After(es).Some? && n <= |es|
    ensures After(es[..n]).Some?
    ensures id in After(es[..n]).value.rows ==>
              && id in After(es).value.rows
              && After(es).value.rows[id].token == After(es[..n]).value.rows[id].token
              && (!After(es[..n]).value.rows[id].status.Active? ==>
                  After(es).value.rows[id] == After(es[..n]).value.rows[id])
  {
    if n == |es| {
      assert es[..n] == es;
    } else {
      var prefix := es[..|es| - 1];
      assert prefix[..n] == es[..n];
      RetiredRowsAreFinal(prefix, n, id);
      RunKeepsInv(prefix);
      if es[|es| - 1].Commit? {
        assert TxOk(After(prefix).value, es[|es| - 1].t);
      }
    }
  }

  /** Only a commit or an invalidation changes a row: a rotation that fails anywhere leaves every token readable. */
  lemma {:induction false} FailedRotationsChangeNothing(es: seq<Event>, n: nat)
    requires After(es).Some? && n <= |es|
    requires forall i :: n <= i < |es| ==> !es[i].Commit? && !es[i].Invalidate?
    ensures After(es[..n]).Some? && After(es).value.rows == After(es[..n]).value.rows
  {
    if n == |es| {
      assert es[..n] == es;
    } else {
      var prefix := es[..|es| - 1];
      assert prefix[..n] == es[..n];
      FailedRotationsChangeNothing(prefix, n);
    }
  }

  /**
   * An invalidation leaves no token readable exactly when the active row, if
   * there is one, is among the rows its statement saw when it began: a
   * replacement that commits while the statement waits survives it.
   */
  lemma InvalidationClears(s: State, t: TxId)
    requires Inv(s) && Enabled(s, Invalidate(t))
    ensures Reads(Step(s, Invalidate(t)), s.txs[t].connection, None)
       <==> s.ActiveIds(s.txs[t].connection) <= s.txs[t].seen
  {
    var s' := Step(s, Invalidate(t));
    var tx := s.txs[t];
    InvalidateKeepsInv(s, t);
    assert TxOk(s, t);
    InvalidateKeepsRows(s, t);
    ReadsCurrent(s', tx.connection, None);
    assert forall id :: id in s'.ActiveIds(tx.connection) <==> id in s.ActiveIds(tx.connection) && id !in tx.seen;
  }

  /** A first token, stored and committed. */
  lemma StoreOne(c: ConnectionId, pat: Pat) returns (es: seq<Event>)
    ensures After(es) == Some(State(map[0 := Row(c, Sealed(pat, c, 0), Status.Active)], map[], map[c := pat]))
  {
    hide Reads, RowsOk, TxsOk;
    var script := [Begin(0, Store, c, pat), Lock(0), Insert(0, 0), Commit(0)];
    var s := INIT;
    es := [];
    for k := 0 to 4
      invariant es == script[..k] && After(es) == Some(s)
      invariant k == 0 ==> s == INIT
      invariant k == 1 ==> s == INIT.(txs := map[0 := Rotation(Store, c, pat, Waiting({}))])
      invariant k == 2 ==> s == INIT.(txs := map[0 := Rotation(Store, c, pat, Locked({}))])
      invariant k == 3 ==> s == INIT.(txs := map[0 := Rotation(Store, c, pat, Inserted({}, 0))])
      invariant k == 4 ==> s == State(map[0 := Row(c, Sealed(pat, c, 0), Status.Active)], map[], map[c := pat])
    {
      AfterOne(es, script[k]);
      assert s.ActiveIds(c) == {};
      s := Step(s, script[k]);
      es := es + [script[k]];
    }
  }

  /** A replacement about to commit, and an invalidation waiting for the row it holds. */
  lemma InvalidationWaits(c: ConnectionId, old': Pat, new': Pat) returns (es: seq<Event>)
    ensures After(es) == Some(State(map[0 := Row(c, Sealed(old', c, 0), Status.Active)],
                                    map[1 := Rotation(Replace, c, new', Inserted({0}, 1)),
                                        2 := Invalidation(c, UserRevoked, {0})],
                                    map[c := old']))
  {
    hide RowsOk, TxsOk, After, Reads;
    es := StoreOne(c, old');
    var start := es;
    var s := After(es).value;
    var late := Invalidation(c, UserRevoked, {0});
    var script := [Begin(1, Replace, c, new'), Lock(1), Supersede(1), BeginInvalidation(2, c, UserRevoked),
                   Insert(1, 1)];
    for k := 0 to 5
      invariant es == start + script[..k] && After(es) == Some(s)
      invariant s.rows == map[0 := Row(c, Sealed(old', c, 0), Status.Active)] && s.current == map[c := old']
      invariant k == 0 ==> s.txs == map[]
      invariant k == 1 ==> s.txs == map[1 := Rotation(Replace, c, new', Waiting({0}))]
      invariant k == 2 ==> s.txs == map[1 := Rotation(Replace, c, new', Locked({0}))]
      invariant k == 3 ==> s.txs == map[1 := Rotation(Replace, c, new', Superseding({0}))]
      invariant k == 4 ==> s.txs == map[1 := Rotation(Replace, c, new', Superseding({0})), 2 := late]
      invariant k == 5 ==> s.txs == map[1 := Rotation(Replace, c, new', Inserted({0}, 1)), 2 := late]
    {
      AfterOne(es, script[k]);
      assert s.ActiveIds(c) == {0} == s.StillActive({0}, c);
      s := Step(s, script[k]);
      es := es + [script[k]];
    }
  }

  /** The race in question, as a run: the replacement commits, the invalidation goes on, and the new token stays. */
  lemma ReplacementOutlivesInvalidation(c: ConnectionId, old': Pat, new': Pat) returns (es: seq<Event>)
    ensures After(es).Some? && es != [] && es[|es| - 1].Invalidate?
    ensures Reads(After(es).value, c, Some(new'))
  {
    hide RowsOk, TxsOk, After, Reads;
    es := InvalidationWaits(c, old', new');
    AfterOne(es, Commit(1));
    es := es + [Commit(1)];
    RunKeepsInv(es);
    assert !After(es).value.IsActive(0, c);
    AfterOne(es, Invalidate(2));
    es := es + [Invalidate(2)];
    RunKeepsInv(es);
    ReadsCurrent(After(es).value, c, Some(new'));
  }

  // ----- Nobody waits for ever -----

  lemma {:induction false} FreshId(ids: set<CredentialId>) returns (id: CredentialId)
    ensures forall used :: used in ids ==> used < id
  {
    if x :| x in ids {
      var above := FreshId(ids - {x});
      id := Max(above, x + 1);
      assert forall used :: used in ids ==> used == x || used in ids - {x};
    } else {
      id := 0;
    }
  }

  /** The events by which a transaction moves towards its end by itself. */
  predicate Advances(e: Event) {
    e.Lock? || e.Supersede? || e.Insert? || e.Commit? || e.Invalidate?
  }

  function StepsLeft(s: State, t: TxId): nat {
    if t !in s.txs then 0
    else match s.txs[t]
      case Invalidation(_, _, _) => 1
      case Rotation(_, _, _, phase) =>
        match phase
        case Waiting(_) => 4
        case Locked(_) => 3
        case Superseding(_) => 2
        case Inserted(_, _) => 1
  }

  lemma AdvancingShrinks(s: State, e: Event)
    requires Advances(e) && Enabled(s, e)
    ensures StepsLeft(Step(s, e), e.t) < StepsLeft(s, e.t)
  {
  }

  /**
   * The waiting has no cycle: while any transaction runs, one of them can take
   * a step, and that step brings it closer to its end.
   */
  lemma NoDeadlock(s: State, t: TxId)
    requires Inv(s) && t in s.txs
    ensures exists e :: Advances(e) && Enabled(s, e) && StepsLeft(Step(s, e), e.t) < StepsLeft(s, e.t)
  {
    hide Step, StepsLeft;
    var id := FreshId(s.rows.Keys);
    var next: Event;
    if o :| o in s.txs && s.txs[o].Rotation? && s.txs[o].phase.Inserted? {
      next := Commit(o);
    } else if o :| o in s.txs && s.txs[o].Rotation? && s.txs[o].kind.Replace? && s.txs[o].phase.Locked? {
      next := Supersede(o);
    } else if o, held :| o in s.txs && held in s.txs[o].Locks() {
      assert TxOk(s, o);
      assert Live(s.rows, held, s.txs[o].connection);
      assert forall a :: a in s.ActiveIds(s.txs[o].connection) ==> Live(s.rows, a, s.txs[o].connection) && a == held;
      next := Insert(o, id);
    } else {
      assert TxOk(s, t);
      next := if s.txs[t].Invalidation? then Invalidate(t)
              else if s.txs[t].phase.Waiting? then Lock(t)
              else Insert(t, id);
    }
    AdvancingShrinks(s, next);
  }

  function Play(s: State, es: seq<Event>): Option<State>
    decreases |es|
  {
    if es == [] then Some(s)
    else if Enabled(s, es[0]) then Play(Step(s, es[0]), es[1..])
    else None
  }

  function TotalLeft(s: State, n: nat): nat {
    if n == 0 then 0 else TotalLeft(s, n - 1) + StepsLeft(s, n - 1)
  }

  lemma {:induction false} TotalShrinks(s: State, s': State, t: TxId, n: nat)
    requires forall o :: o != t ==> StepsLeft(s', o) == StepsLeft(s, o)
    requires StepsLeft(s', t) < StepsLeft(s, t)
    ensures TotalLeft(s', n) == TotalLeft(s, n) - (if t < n then StepsLeft(s, t) - StepsLeft(s', t) else 0)
  {
    if n > 0 {
      TotalShrinks(s, s', t, n - 1);
    }
  }

  lemma AdvancingAddsNobody(s: State, e: Event, o: TxId)
    requires Advances(e) && Enabled(s, e)
    ensures e.t in s.txs && (o in Step(s, e).txs ==> o in s.txs)
    ensures o != e.t ==> StepsLeft(Step(s, e), o) == StepsLeft(s, o)
  {
  }

  /** From any state some sequence of the transactions' own steps ends them all. */
  lemma {:induction false} EveryoneCanFinish(s: State, n: nat) returns (es: seq<Event>)
    requires Inv(s) && forall t :: t in s.txs ==> t < n
    ensures forall e :: e in es ==> Advances(e)
    ensures Play(s, es).Some? && Play(s, es).value.txs == map[] && Inv(Play(s, es).value)
    decreases TotalLeft(s, n)
  {
    hide Inv, Step, Enabled, StepsLeft;
    if t :| t in s.txs {
      NoDeadlock(s, t);
      var e :| Advances(e) && Enabled(s, e) && StepsLeft(Step(s, e), e.t) < StepsLeft(s, e.t);
      var s' := Step(s, e);
      forall o
        ensures e.t in s.txs && (o in s'.txs ==> o in s.txs) && (o != e.t ==> StepsLeft(s', o) == StepsLeft(s, o))
      {
        AdvancingAddsNobody(s, e, o);
      }
      StepKeepsInv(s, e);
      TotalShrinks(s, s', e.t, n);
      var rest := EveryoneCanFinish(s', n);
      es := [e] + rest;
      assert es[1..] == rest;
    } else {
      es := [];
    }
  }

  // ----- A token read earlier -----

  lemma {:induction false} PrefixRuns(es: seq<Event>, n: nat)
    requires After(es).Some? && n <= |es|
    ensures After(es[..n]).Some? && (n < |es| ==> Enabled(After(es[..n]).value, es[n]))
  {
    if n == |es| {
      assert es[..n] == es;
    } else {
      var prefix := es[..|es| - 1];
      if n < |prefix| {
        assert prefix[..n] == es[..n];
        PrefixRuns(prefix, n);
      } else {
        assert es[..n] == prefix;
      }
    }
  }

  /** Event `i` commits a token for `c`. */
  predicate CommitsTo(es: seq<Event>, i: nat, c: ConnectionId) {
    && i < |es| && es[i].Commit? && After(es[..i]).Some?
    && es[i].t in After(es[..i]).value.txs && After(es[..i]).value.txs[es[i].t].connection == c
  }

  ghost predicate NoCommitSince(es: seq<Event>, n: nat, c: ConnectionId) {
    forall i :: n <= i < |es| ==> !CommitsTo(es, i, c)
  }

  lemma StepMovesActive(s: State, e: Event, c: ConnectionId)
    requires Inv(s) && Enabled(s, e)
    ensures s.rows.Keys <= Step(s, e).rows.Keys
    ensures if e.Commit? && s.txs[e.t].connection == c then Step(s, e).ActiveIds(c) !! s.rows.Keys
            else Step(s, e).ActiveIds(c) <= s.ActiveIds(c)
  {
    if e.Commit? {
      assert TxOk(s, e.t);
      CommitKeepsRows(s, e.t);
    }
  }

  /** Since moment `n`, a connection's active row has gone, stayed, or been replaced by one that was not there then. */
  lemma {:induction false} ActiveSince(es: seq<Event>, n: nat, c: ConnectionId)
    requires After(es).Some? && n <= |es|
    ensures After(es[..n]).Some? && After(es[..n]).value.rows.Keys <= After(es).value.rows.Keys
    ensures if NoCommitSince(es, n, c) then After(es).value.ActiveIds(c) <= After(es[..n]).value.ActiveIds(c)
            else After(es).value.ActiveIds(c) !! After(es[..n]).value.rows.Keys
  {
    hide Step, Enabled, Inv;
    if n == |es| {
      assert es[..n] == es;
    } else {
      var m := |es| - 1;
      var prefix := es[..m];
      assert prefix[..n] == es[..n];
      ActiveSince(prefix, n, c);
      RunKeepsInv(prefix);
      PrefixRuns(es, m);
      StepMovesActive(After(prefix).value, es[m], c);
      assert forall i :: n <= i < m ==> (CommitsTo(es, i, c) <==> CommitsTo(prefix, i, c)) by {
        forall i | n <= i < m ensures CommitsTo(es, i, c) <==> CommitsTo(prefix, i, c) {
          assert prefix[..i] == es[..i];
        }
      }
      LastCommitsTo(es, c);
    }
  }

  lemma LastCommitsTo(es: seq<Event>, c: ConnectionId)
    requires es != [] && After(es).Some?
    ensures var (s, e) := (After(es[..|es| - 1]).value, es[|es| - 1]);
            CommitsTo(es, |es| - 1, c) <==> e.Commit? && s.txs[e.t].connection == c
  {
  }

  /**
   * What a refusal takes away that comes later than the token it was meant for:
   * if there is an active row, it is the one that was read if and only if no
   * token was committed for the connection in between.
   */
  lemma ActiveIsTheOneRead(es: seq<Event>, n: nat, c: ConnectionId)
    requires After(es).Some? && n <= |es| && After(es).value.ActiveIds(c) != {}
    ensures After(es[..n]).Some?
    ensures After(es).value.ActiveIds(c) == After(es[..n]).value.ActiveIds(c) <==> NoCommitSince(es, n, c)
  {
    ActiveSince(es, n, c);
    PrefixRuns(es, n);
    RunKeepsInv(es[..n]);
    var s := After(es[..n]).value;
    assert forall a, b :: a in s.ActiveIds(c) && b in s.ActiveIds(c) ==>
      Live(s.rows, a, c) && Live(s.rows, b, c) && a == b;
    assert s.ActiveIds(c) <= s.rows.Keys;
  }

  // ----- The provider -----

  datatype Token = Token(pat: Pat) | NoActiveCredential | CredentialUnreadable

  datatype Stored = Stored(id: CredentialId) | InvalidPat | ActiveCredentialExists | ConcurrentReplace | StoreFailed

  lemma StepLeavesOthers(s: State, e: Event, me: TxId)
    requires Enabled(s, e) && e.t != me
    ensures me in Step(s, e).txs <==> me in s.txs
    ensures me in s.txs ==> Step(s, e).txs[me] == s.txs[me]
  {
  }

  /** Nobody but its owner moves a transaction. */
  lemma {:induction false} OthersLeaveMine(es: seq<Event>, n: nat, me: TxId)
    requires After(es).Some? && n <= |es|
    requires forall i :: n <= i < |es| ==> es[i].t != me
    ensures After(es[..n]).Some?
    ensures me in After(es).value.txs <==> me in After(es[..n]).value.txs
    ensures me in After(es).value.txs ==> After(es).value.txs[me] == After(es[..n]).value.txs[me]
  {
    hide Step, Enabled;
    if n == |es| {
      assert es[..n] == es;
    } else {
      var prefix := es[..|es| - 1];
      assert prefix[..n] == es[..n];
      OthersLeaveMine(prefix, n, me);
      StepLeavesOthers(After(prefix).value, es[|es| - 1], me);
    }
  }

  lemma HoldsTheActiveRow(s: State, t: TxId)
    requires Inv(s) && t in s.txs && s.txs[t].HasInserted(s.txs[t].connection)
    ensures s.ActiveIds(s.txs[t].connection) == s.txs[t].phase.held
    ensures s.txs[t].kind.Store? ==> s.txs[t].phase.held == {}
  {
    assert TxOk(s, t);
    assert s.txs[t].Locks() == s.txs[t].phase.held;
    forall id ensures id in s.ActiveIds(s.txs[t].connection) <==> id in s.txs[t].Locks() {
      assert id in s.ActiveIds(s.txs[t].connection) <==> s.IsActive(id, s.txs[t].connection);
    }
  }

  /** Marking rows seen active earlier marks those of them that still are. */
  lemma MarkOnlyActive(s: State, seen: set<CredentialId>, c: ConnectionId, status: Status)
    requires forall id :: id in seen && id in s.rows ==> s.rows[id].connection == c
    ensures Mark(s.rows, seen, status) == Mark(s.rows, seen * s.ActiveIds(c), status)
  {
  }

  lemma OnlyOneActive(s: State, c: ConnectionId, some: set<CredentialId>)
    requires Inv(s) && some <= s.ActiveIds(c) && some != {}
    ensures some == s.ActiveIds(c)
  {
    assert forall a, b :: a in s.ActiveIds(c) && b in s.ActiveIds(c) ==>
      Live(s.rows, a, c) && Live(s.rows, b, c) && a == b;
  }

  lemma TakenIsTheOneRead(es: seq<Event>, n: nat, c: ConnectionId, taken: set<CredentialId>)
    requires After(es).Some? && n <= |es| && taken <= After(es).value.ActiveIds(c) && taken != {}
    ensures After(es[..n]).Some?
    ensures taken == After(es[..n]).value.ActiveIds(c) <==> NoCommitSince(es, n, c)
  {
    RunKeepsInv(es);
    OnlyOneActive(After(es).value, c, taken);
    ActiveIsTheOneRead(es, n, c);
  }

  // ----- Why an answer is given -----

  /** Another rotation of the connection is past its locking read, or the id is taken or about to be. */
  ghost predicate Hindered(s: State, me: TxId, c: ConnectionId, id: Option<CredentialId>) {
    || (id.Some? && id.value in s.rows)
    || exists o :: o in s.txs && o != me
               && ((s.txs[o].Rotation? && s.txs[o].connection == c && !s.txs[o].phase.Waiting?)
                   || (id.Some? && s.txs[o].Pending(id.value)))
  }

  /** So it was at some moment since `from`, before this transaction committed anything. */
  ghost predicate HeldUp(es: seq<Event>, from: nat, me: TxId, c: ConnectionId, id: Option<CredentialId>) {
    exists i :: from <= i <= |es| && HeldUpAt(es, from, i, me, c, id)
  }

  ghost predicate HeldUpAt(es: seq<Event>, from: nat, i: nat, me: TxId, c: ConnectionId, id: Option<CredentialId>)
    requires i <= |es|
  {
    && After(es[..i]).Some? && Hindered(After(es[..i]).value, me, c, id)
    && forall j :: from <= j < i ==> es[j] != Commit(me)
  }

  /** Event `i` is this transaction's locking read, and one of the rows it saw when it began was still active. */
  ghost predicate FoundActive(es: seq<Event>, i: nat, me: TxId, seen: set<CredentialId>, c: ConnectionId) {
    && i < |es| && es[i] == Lock(me) && After(es[..i]).Some?
    && exists k :: k in seen && After(es[..i]).value.IsActive(k, c)
  }

  /** Event `i` is this transaction's insert, and met an active row that this transaction does not hold. */
  ghost predicate MetIndex(es: seq<Event>, i: nat, me: TxId, id: CredentialId, c: ConnectionId) {
    && i < |es| && es[i] == Insert(me, id) && After(es[..i]).Some?
    && var s := After(es[..i]).value;
       me in s.txs && exists k :: s.IsActive(k, c) && k !in s.txs[me].Locks()
  }

  lemma LockWaitsForOthers(s: State, me: TxId, id: Option<CredentialId>)
    requires Inv(s) && me in s.txs && s.txs[me].Rotation? && s.txs[me].phase.Waiting?
    ensures Enabled(s, Lock(me)) || Hindered(s, me, s.txs[me].connection, id)
  {
    assert TxOk(s, me);
    forall k, o | k in s.txs[me].phase.seen && o in s.txs && o != me && k in s.txs[o].Locks()
      ensures s.txs[o].Rotation? && s.txs[o].connection == s.txs[me].connection && !s.txs[o].phase.Waiting?
    {
      assert TxOk(s, o);
    }
  }

  lemma UpdateWaitsForOthers(s: State, me: TxId)
    requires Inv(s) && me in s.txs && s.txs[me].Invalidation?
    ensures Enabled(s, Invalidate(me)) || Hindered(s, me, s.txs[me].connection, None)
  {
    assert TxOk(s, me);
    forall k, o | k in s.txs[me].seen && o in s.txs && o != me && k in s.txs[o].Locks()
      ensures s.txs[o].Rotation? && s.txs[o].connection == s.txs[me].connection && !s.txs[o].phase.Waiting?
    {
      assert TxOk(s, o);
    }
  }

  lemma InsertWaitsForOthers(s: State, me: TxId, id: CredentialId)
    requires Inv(s) && me in s.txs && s.txs[me].Rotation?
    requires if s.txs[me].kind.Store? then s.txs[me].phase.Locked? else s.txs[me].phase.Superseding?
    ensures Enabled(s, Insert(me, id)) || Hindered(s, me, s.txs[me].connection, Some(id))
  {
    var c := s.txs[me].connection;
    forall k, o | k in s.ActiveIds(c) && o in s.txs && o != me && k in s.txs[o].Locks()
      ensures s.txs[o].Rotation? && s.txs[o].connection == c && !s.txs[o].phase.Waiting?
    {
      assert TxOk(s, o);
    }
  }

  /** What a locking read makes of its transaction: it goes on holding the rows that are still active, or is refused. */
  lemma LockTakes(s: State, me: TxId, id: Option<CredentialId>)
    requires Enabled(s, Lock(me))
    ensures var (tx, s') := (s.txs[me], Step(s, Lock(me)));
            && s'.rows == s.rows
            && (Hindered(s', me, tx.connection, id) ==> Hindered(s, me, tx.connection, id))
            && (me !in s'.txs ==>
                  && tx.kind.Store? && s.StillActive(tx.phase.seen, tx.connection) != {}
                  && exists k :: k in tx.phase.seen && s.IsActive(k, tx.connection))
            && (me in s'.txs ==>
                  && s'.txs[me] == tx.(phase := Locked(s.StillActive(tx.phase.seen, tx.connection)))
                  && (tx.kind.Store? ==> s'.txs[me].Locks() == {}))
  {
    var tx := s.txs[me];
    assert s.StillActive(tx.phase.seen, tx.connection) != {} ==>
      exists k :: k in s.StillActive(tx.phase.seen, tx.connection);
  }

  /** What an insert makes of its transaction. */
  lemma InsertTakes(s: State, me: TxId, id: CredentialId)
    requires Inv(s) && Enabled(s, Insert(me, id))
    ensures var (tx, s') := (s.txs[me], Step(s, Insert(me, id)));
            && s'.rows == s.rows
            && (me !in s'.txs <==> exists k :: s.IsActive(k, tx.connection) && k !in tx.Locks())
            && (me in s'.txs ==> s'.txs[me] == tx.(phase := Inserted(tx.phase.held, id)))
  {
    assert TxOk(s, me);
  }

  /** A new transaction changes nothing for the others. */
  lemma BeginsAlone(s: State, me: TxId, e: Event, c: ConnectionId, id: Option<CredentialId>)
    requires e.t == me && (e.Begin? || e.BeginInvalidation? || e.Supersede?) && Enabled(s, e)
    ensures Step(s, e).rows == s.rows && me in Step(s, e).txs
    ensures Hindered(Step(s, e), me, c, id) ==> Hindered(s, me, c, id)
    ensures e.Begin? ==> Step(s, e).txs[me] == Rotation(e.kind, e.connection, e.pat, Waiting(s.ActiveIds(e.connection)))
    ensures e.BeginInvalidation? ==>
      Step(s, e).txs[me] == Invalidation(e.connection, e.reason, s.ActiveIds(e.connection))
    ensures e.Supersede? ==> Step(s, e).txs[me] == s.txs[me].(phase := Superseding(s.txs[me].phase.held))
  {
  }

  /** The update of an invalidation retires what it saw that is still active, and clears if that was all there is. */
  lemma UpdateTakes(es: seq<Event>, s: State, me: TxId)
    requires After(es) == Some(s) && Inv(s) && Enabled(s, Invalidate(me))
    ensures var tx := s.txs[me];
            && me !in Step(s, Invalidate(me)).txs
            && Step(s, Invalidate(me)).rows == Mark(s.rows, tx.seen * s.ActiveIds(tx.connection), StatusFor(tx.reason))
            && After(es + [Invalidate(me)]).Some?
            && (LastToken(es + [Invalidate(me)], tx.connection) == None <==> s.ActiveIds(tx.connection) <= tx.seen)
  {
    var tx := s.txs[me];
    var longer := es + [Invalidate(me)];
    InvalidationClears(s, me);
    assert TxOk(s, me);
    MarkOnlyActive(s, tx.seen, tx.connection, StatusFor(tx.reason));
    AfterOne(es, Invalidate(me));
    assert longer[..|longer| - 1] == es;
    ReadersGetTheLastToken(longer, tx.connection, None);
  }

  lemma SameRowsActive(a: State, b: State, c: ConnectionId)
    ensures a.rows == b.rows ==> a.ActiveIds(c) == b.ActiveIds(c)
  {
  }

  lemma HeldUpNow(es: seq<Event>, longer: seq<Event>, from: nat, me: TxId, c: ConnectionId, id: Option<CredentialId>)
    requires from <= |es| && es <= longer && After(es).Some? && Hindered(After(es).value, me, c, id)
    requires forall j :: from <= j < |es| ==> es[j] != Commit(me)
    ensures HeldUp(longer, from, me, c, id)
  {
    assert longer[..|es|] == es;
    assert HeldUpAt(longer, from, |es|, me, c, id);
  }

  lemma HeldUpSince(es: seq<Event>, from: nat, since: nat, me: TxId, c: ConnectionId, id: Option<CredentialId>)
    requires HeldUp(es, from, me, c, id) && since <= from
    requires forall j :: since <= j < from && j < |es| ==> es[j] != Commit(me)
    ensures HeldUp(es, since, me, c, id)
  {
    var i :| from <= i <= |es| && HeldUpAt(es, from, i, me, c, id);
    assert HeldUpAt(es, since, i, me, c, id);
  }

  /** One process's provider over the shared database; `log` is every event so far, its own and the others'. */
  class PatCredentialProvider {
    const accepts: Pat -> bool
    var db: State
    ghost var log: seq<Event>

    ghost predicate Valid()
      reads this
    {
      After(log) == Some(db)
    }

    constructor (accepts: Pat -> bool)
      ensures Valid() && this.accepts == accepts && log == []
    {
      this.accepts, db, log := accepts, INIT, [];
    }

    method Act(e: Event)
      requires Valid() && Enabled(db, e)
      modifies this
      ensures Valid() && log == old(log) + [e] && db == Step(old(db), e)
    {
      AfterOne(log, e);
      db, log := Step(db, e), log + [e];
    }

    /** Other processes run any part of any of their transactions, unless there are none. */
    method Others(me: TxId, alone: bool)
      requires Valid()
      modifies this
      ensures Valid() && old(log) <= log && (forall i :: |old(log)| <= i < |log| ==> log[i].t != me)
      ensures me in db.txs <==> me in old(db).txs
      ensures me in db.txs ==> db.txs[me] == old(db).txs[me]
      ensures alone ==> log == old(log) && db == old(db)
    {
      var acts: int := *;
      if alone {
        acts := 0;
      }
      for k := 0 to Max(acts, 0)
        invariant Valid() && old(log) <= log && (forall i :: |old(log)| <= i < |log| ==> log[i].t != me)
        invariant alone ==> log == old(log) && db == old(db)
      {
        var e: Event := *;
        if e.t != me && Enabled(db, e) {
          Act(e);
        }
      }
      OthersLeaveMine(log, |old(log)|, me);
      assert log[..|old(log)|] == old(log);
    }

    /** Waits until the database lets `e` happen, or until patience ends, or the connection is lost. */
    method Await(e: Event, mayFail: bool, alone: bool) returns (ok: bool)
      requires Valid()
      modifies this
      ensures Valid() && old(log) <= log && (forall i :: |old(log)| <= i < |log| ==> log[i].t != e.t)
      ensures e.t in db.txs <==> e.t in old(db).txs
      ensures e.t in db.txs ==> db.txs[e.t] == old(db).txs[e.t]
      ensures alone ==> log == old(log) && db == old(db)
      ensures ok ==> Enabled(db, e)
      ensures !ok ==> mayFail || !Enabled(db, e)
    {
      var patience: int := *;
      for k := 0 to Max(patience, 0)
        invariant Valid() && old(log) <= log && (forall i :: |old(log)| <= i < |log| ==> log[i].t != e.t)
        invariant e.t in db.txs <==> e.t in old(db).txs
        invariant e.t in db.txs ==> db.txs[e.t] == old(db).txs[e.t]
        invariant alone ==> log == old(log) && db == old(db)
      {
        Others(e.t, alone);
        if Enabled(db, e) {
          return true;
        }
      }
      var lost: bool := *;
      ok := !(mayFail && lost) && Enabled(db, e);
    }

    /** What a committed rotation has done, seen from the state it committed in. */
    ghost predicate Rotated(me: TxId, id: CredentialId, c: ConnectionId, pat: Pat)
      reads this
    {
      && log != [] && log[|log| - 1] == Commit(me) && After(log[..|log| - 1]).Some?
      && var before := After(log[..|log| - 1]).value;
         && id !in before.rows
         && db.rows
            == Mark(before.rows, before.ActiveIds(c), Superseded)[id := Row(c, Sealed(pat, c, id), Status.Active)]
    }

    /** Nothing this transaction did was committed. */
    ghost predicate NotCommitted(from: nat, me: TxId)
      reads this
    {
      forall i :: from <= i < |log| ==> log[i] != Commit(me)
    }

    /**
     * The locking read of a rotation. `ok` says whether it came to it; then the
     * transaction goes on, or has found an active row where it must not.
     */
    method LockRows(me: TxId, id: CredentialId, mayFail: bool, alone: bool) returns (ok: bool)
      requires Valid() && me in db.txs && db.txs[me].Rotation? && db.txs[me].phase.Waiting?
      modifies this
      ensures Valid() && old(log) <= log && NotCommitted(|old(log)|, me)
      ensures !ok ==>
        && me !in db.txs
        && (mayFail || HeldUp(log, |old(log)|, me, old(db).txs[me].connection, Some(id)))
        && (alone && !mayFail ==> Hindered(old(db), me, old(db).txs[me].connection, Some(id)))
      ensures ok && me !in db.txs ==>
        && old(db).txs[me].kind.Store? && |old(log)| < |log|
        && FoundActive(log, |log| - 1, me, old(db).txs[me].phase.seen, old(db).txs[me].connection)
      ensures ok && me in db.txs ==>
        && db.txs[me].Rotation? && db.txs[me].phase.Locked?
        && db.txs[me] == old(db).txs[me].(phase := db.txs[me].phase)
        && (db.txs[me].kind.Store? ==> db.txs[me].Locks() == {})
      ensures ok && alone ==>
        && db.rows == old(db).rows
        && (Hindered(db, me, old(db).txs[me].connection, Some(id)) ==>
              Hindered(old(db), me, old(db).txs[me].connection, Some(id)))
        && (me in db.txs ==>
              db.txs[me].Locks() == old(db).StillActive(old(db).txs[me].phase.seen, old(db).txs[me].connection))
        && (me !in db.txs ==> old(db).StillActive(old(db).txs[me].phase.seen, old(db).txs[me].connection) != {})
    {
      hide Inv, Step, Enabled, Hindered, After, HeldUp;
      ok := Await(Lock(me), mayFail, alone);
      RunKeepsInv(log);
      ghost var waited, found := log, db;
      LockWaitsForOthers(db, me, Some(id));
      if !ok {
        Abandon(me);
        if !mayFail {
          HeldUpNow(waited, log, |old(log)|, me, old(db).txs[me].connection, Some(id));
        }
        return;
      }
      LockTakes(db, me, Some(id));
      Act(Lock(me));
      assert log[..|waited|] == waited;
      if me !in db.txs {
        assert FoundActive(log, |waited|, me, old(db).txs[me].phase.seen, old(db).txs[me].connection);
      }
    }

    method Abandon(me: TxId)
      requires Valid() && me in db.txs
      modifies this
      ensures Valid() && log == old(log) + [Abort(me)] && me !in db.txs
    {
      Act(Abort(me));
    }

    /** The insert; `r` is the answer if the rotation ends with it. */
    method TryInsert(me: TxId, id: CredentialId, mayFail: bool, alone: bool) returns (r: Option<Stored>)
      requires Valid() && me in db.txs && db.txs[me].Rotation?
      requires if db.txs[me].kind.Store? then db.txs[me].phase.Locked? else db.txs[me].phase.Superseding?
      modifies this
      ensures Valid() && old(log) <= log && NotCommitted(|old(log)|, me)
      ensures r.Some? ==> me !in db.txs && (r.value.ConcurrentReplace? || r.value.StoreFailed?)
      ensures r.Some? && r.value.ConcurrentReplace? ==>
        exists i :: |old(log)| <= i && MetIndex(log, i, me, id, old(db).txs[me].connection)
      ensures r.Some? && r.value.StoreFailed? ==>
        mayFail || HeldUp(log, |old(log)|, me, old(db).txs[me].connection, Some(id))
      ensures r.None? ==>
        me in db.txs && db.txs[me] == old(db).txs[me].(phase := Inserted(old(db).txs[me].phase.held, id))
      ensures alone && !mayFail && !Hindered(old(db), me, old(db).txs[me].connection, Some(id))
              && (forall k :: old(db).IsActive(k, old(db).txs[me].connection) ==> k in old(db).txs[me].Locks())
              ==> r.None?
    {
      hide Inv, Step, Enabled, Hindered, After, HeldUp;
      var ok := Await(Insert(me, id), mayFail, alone);
      RunKeepsInv(log);
      ghost var waited := log;
      InsertWaitsForOthers(db, me, id);
      if !ok {
        Abandon(me);
        if !mayFail {
          HeldUpNow(waited, log, |old(log)|, me, old(db).txs[me].connection, Some(id));
        }
        return Some(StoreFailed);
      }
      InsertTakes(db, me, id);
      Act(Insert(me, id));
      assert log[..|waited|] == waited;
      if me !in db.txs {
        assert MetIndex(log, |waited|, me, id, old(db).txs[me].connection);
        return Some(ConcurrentReplace);
      }
      r := None;
    }

    /** The insert of a rotation and its commit, unless the unique index, a failing call or others are in the way. */
    method InsertActive(me: TxId, id: CredentialId, mayFail: bool, alone: bool) returns (r: Stored)
      requires Valid() && me in db.txs && db.txs[me].Rotation?
      requires if db.txs[me].kind.Store? then db.txs[me].phase.Locked? else db.txs[me].phase.Superseding?
      modifies this
      ensures Valid() && old(log) <= log && me !in db.txs
      ensures r.Stored? || r.ConcurrentReplace? || r.StoreFailed?
      ensures r.ConcurrentReplace? ==>
        && NotCommitted(|old(log)|, me)
        && exists i :: |old(log)| <= i && MetIndex(log, i, me, id, old(db).txs[me].connection)
      ensures r.StoreFailed? ==> mayFail || HeldUp(log, |old(log)|, me, old(db).txs[me].connection, Some(id))
      ensures r.Stored? ==> r.id == id && !NotCommitted(|old(log)|, me)
      ensures !NotCommitted(|old(log)|, me) ==>
        && Rotated(me, id, old(db).txs[me].connection, old(db).txs[me].pat)
        && (old(db).txs[me].kind.Store? ==> After(log[..|log| - 1]).value.ActiveIds(old(db).txs[me].connection) == {})
        && LastToken(log, old(db).txs[me].connection) == Some(old(db).txs[me].pat)
      ensures alone && !mayFail && !Hindered(old(db), me, old(db).txs[me].connection, Some(id))
              && (forall k :: old(db).IsActive(k, old(db).txs[me].connection) ==> k in old(db).txs[me].Locks())
              ==> r == Stored(id)
    {
      hide Hindered, HeldUp, MetIndex;
      var early := TryInsert(me, id, mayFail, alone);
      if early.Some? {
        return early.value;
      }
      Others(me, alone);
      var lost: bool := *;
      if mayFail && lost {
        Abandon(me);
        return StoreFailed;
      }
      RunKeepsInv(log);
      HoldsTheActiveRow(db, me);
      ghost var before := log;
      Act(Commit(me));
      assert log[..|log| - 1] == before;
      assert log[|log| - 1] == Commit(me);
      var unseen: bool := *;
      r := if mayFail && unseen then StoreFailed else Stored(id);
    }

    /**
     * The first credential of a connection: refused while one is active, and
     * never replaces one. A commit that is not acknowledged reads as a failure.
     * Undisturbed, it stores the token exactly if nothing was active.
     */
    method StoreCredential(me: TxId, id: CredentialId, c: ConnectionId, pat: Pat, mayFail: bool, alone: bool)
      returns (r: Stored)
      requires Valid() && me !in db.txs
      modifies this
      ensures Valid() && old(log) <= log && me !in db.txs
      ensures r.InvalidPat? <==> !accepts(pat)
      ensures r.InvalidPat? ==> log == old(log) && db == old(db)
      ensures r.ActiveCredentialExists? ==>
        && NotCommitted(|old(log)|, me)
        && exists i :: |old(log)| <= i && FoundActive(log, i, me, old(db).ActiveIds(c), c)
      ensures r.ConcurrentReplace? ==>
        NotCommitted(|old(log)|, me) && exists i :: |old(log)| <= i && MetIndex(log, i, me, id, c)
      ensures r.StoreFailed? ==> mayFail || HeldUp(log, |old(log)|, me, c, Some(id))
      ensures r.Stored? ==> r.id == id && !NotCommitted(|old(log)|, me)
      ensures !NotCommitted(|old(log)|, me) ==>
        Rotated(me, id, c, pat) && After(log[..|log| - 1]).value.ActiveIds(c) == {} && LastToken(log, c) == Some(pat)
      ensures alone && !mayFail && accepts(pat) && !Hindered(old(db), me, c, Some(id)) ==>
        r == if old(db).ActiveIds(c) == {} then Stored(id) else ActiveCredentialExists
    {
      hide After, LastToken, Mark, HeldUp, MetIndex, FoundActive, Inv, Hindered, Rotated, Step;
      if !accepts(pat) {
        return InvalidPat;
      }
      BeginsAlone(db, me, Begin(me, Store, c, pat), c, Some(id));
      Act(Begin(me, Store, c, pat));
      ghost var first := log;
      var ok := LockRows(me, id, mayFail, alone);
      if !ok {
        if !mayFail {
          HeldUpSince(log, |first|, |old(log)|, me, c, Some(id));
        }
        return StoreFailed;
      }
      if me !in db.txs {
        return ActiveCredentialExists;
      }
      Others(me, alone);
      ghost var from := log;
      r := InsertActive(me, id, mayFail, alone);
      if r.StoreFailed? && !mayFail {
        HeldUpSince(log, |from|, |old(log)|, me, c, Some(id));
      }
    }

    /** A replacement locks whatever is active, and supersedes it. */
    method TakeOver(me: TxId, id: CredentialId, mayFail: bool, alone: bool) returns (ok: bool)
      requires Valid() && me in db.txs && db.txs[me].Rotation? && db.txs[me].kind.Replace? && db.txs[me].phase.Waiting?
      modifies this
      ensures Valid() && old(log) <= log && NotCommitted(|old(log)|, me)
      ensures !ok ==>
        && me !in db.txs
        && (mayFail || HeldUp(log, |old(log)|, me, old(db).txs[me].connection, Some(id)))
        && (alone && !mayFail ==> Hindered(old(db), me, old(db).txs[me].connection, Some(id)))
      ensures ok ==>
        && me in db.txs && db.txs[me].Rotation? && db.txs[me].phase.Superseding?
        && db.txs[me] == old(db).txs[me].(phase := db.txs[me].phase)
      ensures ok && alone ==>
        && db.rows == old(db).rows
        && (Hindered(db, me, old(db).txs[me].connection, Some(id)) ==>
              Hindered(old(db), me, old(db).txs[me].connection, Some(id)))
        && db.txs[me].Locks() == old(db).StillActive(old(db).txs[me].phase.seen, old(db).txs[me].connection)
    {
      hide After, HeldUp, FoundActive, Inv, Hindered, Step, State.StillActive;
      ok := LockRows(me, id, mayFail, alone);
      if ok {
        Others(me, alone);
        BeginsAlone(db, me, Supersede(me), db.txs[me].connection, Some(id));
        Act(Supersede(me));
        Others(me, alone);
      }
    }

    /**
     * Rotation: whatever was active is superseded in the same commit that makes
     * the new token readable. Undisturbed, it always does that.
     */
    method ReplaceCredential(me: TxId, id: CredentialId, c: ConnectionId, pat: Pat, mayFail: bool, alone: bool)
      returns (r: Stored)
      requires Valid() && me !in db.txs
      modifies this
      ensures Valid() && old(log) <= log && me !in db.txs
      ensures r.InvalidPat? <==> !accepts(pat)
      ensures r.InvalidPat? ==> log == old(log) && db == old(db)
      ensures !r.ActiveCredentialExists?
      ensures r.ConcurrentReplace? ==>
        NotCommitted(|old(log)|, me) && exists i :: |old(log)| <= i && MetIndex(log, i, me, id, c)
      ensures r.StoreFailed? ==> mayFail || HeldUp(log, |old(log)|, me, c, Some(id))
      ensures r.Stored? ==> r.id == id && !NotCommitted(|old(log)|, me)
      ensures !NotCommitted(|old(log)|, me) ==> Rotated(me, id, c, pat) && LastToken(log, c) == Some(pat)
      ensures alone && !mayFail && accepts(pat) && !Hindered(old(db), me, c, Some(id)) ==> r == Stored(id)
    {
      hide After, LastToken, Mark, HeldUp, MetIndex, FoundActive, Inv, Hindered, Rotated, Step;
      if !accepts(pat) {
        return InvalidPat;
      }
      BeginsAlone(db, me, Begin(me, Replace, c, pat), c, Some(id));
      Act(Begin(me, Replace, c, pat));
      ghost var first := log;
      var ok := TakeOver(me, id, mayFail, alone);
      if !ok {
        if !mayFail {
          HeldUpSince(log, |first|, |old(log)|, me, c, Some(id));
        }
        return StoreFailed;
      }
      ghost var from := log;
      r := InsertActive(me, id, mayFail, alone);
      if r.StoreFailed? && !mayFail {
        HeldUpSince(log, |from|, |old(log)|, me, c, Some(id));
      }
    }

    /** The last event is this invalidation's update. */
    ghost predicate Invalidated(me: TxId)
      reads this
    {
      log != [] && log[|log| - 1] == Invalidate(me) && After(log[..|log| - 1]).Some?
    }

    /** The rows among `seen` that were still active when the last event came. */
    ghost function Taken(seen: set<CredentialId>, c: ConnectionId): set<CredentialId>
      requires log != [] && After(log[..|log| - 1]).Some?
      reads this
    {
      seen * After(log[..|log| - 1]).value.ActiveIds(c)
    }

    /**
     * One UPDATE: it retires the rows it saw active when it began, if they still
     * are. It may fail, or take effect and not be acknowledged; otherwise only
     * a rotation of the connection can keep it waiting.
     */
    method InvalidateCredential(me: TxId, c: ConnectionId, reason: Reason, mayFail: bool, alone: bool)
      returns (ok: bool)
      requires Valid() && me !in db.txs
      modifies this
      ensures Valid() && old(log) <= log && me !in db.txs
      ensures ok ==> Invalidated(me)
      ensures !ok ==> mayFail || HeldUp(log, |old(log)|, me, c, None)
      ensures alone && !mayFail && !Hindered(old(db), me, c, None) ==> ok && LastToken(log, c) == None
      ensures !Invalidated(me) ==> forall i :: |old(log)| <= i < |log| ==> log[i] != Invalidate(me)
      ensures Invalidated(me) ==>
        && |old(log)| < |log| - 1
        && db.rows == Mark(After(log[..|log| - 1]).value.rows, Taken(old(db).ActiveIds(c), c), StatusFor(reason))
        && (LastToken(log, c) == None <==> After(log[..|log| - 1]).value.ActiveIds(c) <= old(db).ActiveIds(c))
    {
      hide Inv, Step, Enabled, Hindered, After, HeldUp, LastToken, Mark, State.ActiveIds;
      BeginsAlone(db, me, BeginInvalidation(me, c, reason), c, None);
      Act(BeginInvalidation(me, c, reason));
      ok := Await(Invalidate(me), mayFail, alone);
      RunKeepsInv(log);
      UpdateWaitsForOthers(db, me);
      ghost var before := log;
      if !ok {
        Abandon(me);
        if !mayFail {
          HeldUpNow(before, log, |old(log)|, me, c, None);
        }
        return;
      }
      UpdateTakes(log, db, me);
      SameRowsActive(old(db), db, c);
      Act(Invalidate(me));
      assert log[..|log| - 1] == before;
      var unseen: bool := *;
      ok := !(mayFail && unseen);
    }

    /**
     * A token is read, GitLab refuses it, and the credential is invalidated,
     * while others go on. What the invalidation takes away, if anything, is the
     * row that was read if and only if no token was committed in between.
     */
    method RefuseToken(me: TxId, c: ConnectionId, mayFail: bool, alone: bool)
      returns (token: Token, ok: bool, ghost seen: set<CredentialId>)
      requires Valid() && me !in db.txs
      modifies this
      ensures Valid() && old(log) <= log && me !in db.txs
      ensures token == match LastToken(old(log), c) case Some(pat) => Token.Token(pat) case None => NoActiveCredential
      ensures alone && !mayFail && token.Token? && !Hindered(old(db), me, c, None) ==> ok && LastToken(log, c) == None
      ensures ok ==>
        && token.Token? && Invalidated(me) && |old(log)| < |log| - 1
        && db.rows == Mark(After(log[..|log| - 1]).value.rows, Taken(seen, c), Invalid)
        && (Taken(seen, c) != {} ==>
              (Taken(seen, c) == old(db).ActiveIds(c) <==> NoCommitSince(log[..|log| - 1], |old(log)|, c)))
    {
      hide Mark, LastToken, NoCommitSince, After, State.ActiveIds;
      token := GetAccessToken(c);
      ok, seen := false, {};
      if !token.Token? {
        return;
      }
      Others(me, alone);
      seen := db.ActiveIds(c);
      ok := InvalidateCredential(me, c, GitlabUnauthorized, mayFail, alone);
      if ok && Taken(seen, c) != {} {
        assert log[..|log| - 1][..|old(log)|] == old(log);
        TakenIsTheOneRead(log[..|log| - 1], |old(log)|, c, Taken(seen, c));
      }
    }

    /** The newest active row, opened under its own identity: always the last token, and never an unreadable one. */
    method GetAccessToken(c: ConnectionId) returns (r: Token)
      requires Valid()
      ensures r == match LastToken(log, c) case Some(pat) => Token.Token(pat) case None => NoActiveCredential
    {
      RunKeepsInv(log);
      CurrentIsLastToken(log, c);
      ReadsCurrent(db, c, None);
      if id :| id in db.ActiveIds(c) {
        var opened' := Open(db.rows[id].token, c, id);
        r := if opened'.Some? then Token.Token(opened'.value) else CredentialUnreadable;
        assert Live(db.rows, id, c);
      } else {
        r := NoActiveCredential;
      }
    }
  }
}
