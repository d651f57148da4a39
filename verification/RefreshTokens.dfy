/** Refresh tokens as concurrent transactions over one table: login inserts a
    token, rotation consumes one row and inserts its successor, revocation
    consumes one row. Transactions interleave step by step, hold row locks,
    and may roll back anywhere. */
module RefreshTokens {
  import opened Wrappers

  // Token hashes and users are only ever compared. Hashing is taken as
  // injective, so a hash stands for its token.
  type Hash(==, !new)
  type UserId(==, !new)

  type Time = real

  datatype Row = Row(user: UserId, expiresAt: Time, revokedAt: Option<Time>)

  /** What a caller asks for. */
  datatype Job = Issue(user: UserId) | Rotate(token: Hash) | Revoke(token: Hash)

  /** What a finished transaction told its caller. */
  datatype Outcome =
    | IssuedToken(user: UserId, token: Hash)
    | RotatedToken(user: UserId, token: Hash, successor: Hash)
    | BurnedToken(user: UserId, token: Hash)
    | RevokedToken(user: UserId, token: Hash)
    | NoMatch
    | RolledBack

  /** A transaction by where it stands, with what it has written so far. */
  datatype Tx =
    | Issuing(user: UserId, expiresAt: Time)
    | Issued(user: UserId, expiresAt: Time, token: Hash)
    | Rotating(token: Hash, now: Time)
    | Consumed(token: Hash, now: Time, user: UserId)
    | Burning(token: Hash, now: Time, user: UserId)
    | Succeeding(token: Hash, now: Time, user: UserId, expiresAt: Time)
    | Succeeded(token: Hash, now: Time, user: UserId, expiresAt: Time, successor: Hash)
    | Revoking(token: Hash, now: Time)
    | Revoked(token: Hash, now: Time, user: UserId)
    | Failed(held: Option<Hash>)
    | Ended(outcome: Outcome)

  /** One committed transaction, as the journal of commits records it. */
  datatype Commit =
    | Login(id: nat, user: UserId, token: Hash)
    | Rotation(id: nat, user: UserId, token: Hash, successor: Hash)
    | Burn(id: nat, user: UserId, token: Hash)
    | Revocation(id: nat, user: UserId, token: Hash)

  /** The committed table, the row locks, the uncommitted entries of the unique
      index on token hashes, the transactions, and the journal of commits. */
  datatype State = State(
    clock: Time,
    users: map<UserId, bool>,
    tokens: map<Hash, Row>,
    locks: map<Hash, nat>,
    pending: map<Hash, nat>,
    txs: map<nat, Tx>,
    journal: seq<Commit>)

  datatype Action =
    | Tick(elapsed: Time)
    | SetActive(user: UserId, active: bool)
    | Begin(id: nat, job: Job)
    | Update(id: nat)
    | Lookup(id: nat)
    | Insert(id: nat, token: Hash)
    | CommitTx(id: nat)
    | Abort(id: nat)

  function Start(clock: Time, users: map<UserId, bool>): State {
    State(clock, users, map[], map[], map[], map[], [])
  }

  // ----- the steps -----

  function Opening(lifetime: Time, clock: Time, job: Job): Tx {
    match job
    case Issue(user) => Issuing(user, clock + lifetime)
    case Rotate(token) => Rotating(token, clock)
    case Revoke(token) => Revoking(token, clock)
  }

  function Put(s: State, id: nat, tx: Tx): State {
    s.(txs := s.txs[id := tx])
  }

  /** The WHERE clause of a rotation, on the committed row. */
  predicate Usable(s: State, token: Hash, now: Time) {
    token in s.tokens && s.tokens[token].revokedAt == None && s.tokens[token].expiresAt > now
  }

  /** The WHERE clause of a revocation. */
  predicate Unrevoked(s: State, token: Hash) {
    token in s.tokens && s.tokens[token].revokedAt == None
  }

  /** The guarded UPDATE. A row that does not match ends the transaction with
      nothing; a matching row that another transaction has locked makes it
      wait, and the guard is evaluated again when the step is retried. */
  function UpdateStep(s: State, id: nat, tx: Tx): State {
    match tx
    case Rotating(token, now) =>
      if !Usable(s, token, now) then Put(s, id, Ended(NoMatch))
      else if token in s.locks then s
      else Put(s.(locks := s.locks[token := id]), id, Consumed(token, now, s.tokens[token].user))
    case Revoking(token, now) =>
      if !Unrevoked(s, token) then Put(s, id, Ended(NoMatch))
      else if token in s.locks then s
      else Put(s.(locks := s.locks[token := id]), id, Revoked(token, now, s.tokens[token].user))
    case _ => s
  }

  /** The user of a consumed token is looked up: a successor needs an active one. */
  function LookupStep(lifetime: Time, s: State, id: nat, tx: Tx): State {
    match tx
    case Consumed(token, now, user) =>
      if user in s.users && s.users[user]
      then Put(s, id, Succeeding(token, now, user, s.clock + lifetime))
      else Put(s, id, Burning(token, now, user))
    case _ => s
  }

  /** The INSERT: a taken hash, or an unknown user, violates a constraint; a
      hash that another transaction is inserting makes this one wait. */
  function InsertStep(s: State, id: nat, tx: Tx, token: Hash): State {
    match tx
    case Issuing(user, expiresAt) =>
      if user !in s.users || token in s.tokens then Put(s, id, Failed(None))
      else if token in s.pending then s
      else Put(s.(pending := s.pending[token := id]), id, Issued(user, expiresAt, token))
    case Succeeding(token0, now, user, expiresAt) =>
      if user !in s.users || token in s.tokens then Put(s, id, Failed(Some(token0)))
      else if token in s.pending then s
      else Put(s.(pending := s.pending[token := id]), id, Succeeded(token0, now, user, expiresAt, token))
    case _ => s
  }

  function NotBy(owners: map<Hash, nat>, id: nat): map<Hash, nat> {
    map h | h in owners && owners[h] != id :: owners[h]
  }

  /** A transaction ends: its locks and index entries go. */
  function Finish(s: State, id: nat, outcome: Outcome): State {
    s.(locks := NotBy(s.locks, id), pending := NotBy(s.pending, id), txs := s.txs[id := Ended(outcome)])
  }

  function RevokeRow(tokens: map<Hash, Row>, token: Hash, now: Time): map<Hash, Row> {
    if token in tokens then tokens[token := tokens[token].(revokedAt := Some(now))] else tokens
  }

  /** COMMIT publishes everything the transaction wrote, at once. */
  function CommitStep(s: State, id: nat, tx: Tx): State {
    match tx
    case Issued(user, expiresAt, token) =>
      Finish(s, id, IssuedToken(user, token)).(
        tokens := s.tokens[token := Row(user, expiresAt, None)],
        journal := s.journal + [Login(id, user, token)])
    case Burning(token, now, user) =>
      Finish(s, id, BurnedToken(user, token)).(
        tokens := RevokeRow(s.tokens, token, now),
        journal := s.journal + [Burn(id, user, token)])
    case Succeeded(token, now, user, expiresAt, successor) =>
      Finish(s, id, RotatedToken(user, token, successor)).(
        tokens := RevokeRow(s.tokens, token, now)[successor := Row(user, expiresAt, None)],
        journal := s.journal + [Rotation(id, user, token, successor)])
    case Revoked(token, now, user) =>
      Finish(s, id, RevokedToken(user, token)).(
        tokens := RevokeRow(s.tokens, token, now),
        journal := s.journal + [Revocation(id, user, token)])
    case _ => s
  }

  function AbortStep(s: State, id: nat, tx: Tx): State {
    if tx.Ended? then s else Finish(s, id, RolledBack)
  }

  function TxStep(lifetime: Time, s: State, a: Action, id: nat, tx: Tx): State {
    match a
    case Update(_) => UpdateStep(s, id, tx)
    case Lookup(_) => LookupStep(lifetime, s, id, tx)
    case Insert(_, token) => InsertStep(s, id, tx, token)
    case CommitTx(_) => CommitStep(s, id, tx)
    case Abort(_) => AbortStep(s, id, tx)
    case _ => s
  }

  /** One atomic step of anybody; an action that is not possible, or has to
      wait, changes nothing. */
  function Step(lifetime: Time, s: State, a: Action): State {
    match a
    case Tick(elapsed) => if elapsed >= 0.0 then s.(clock := s.clock + elapsed) else s
    case SetActive(user, active) => if user in s.users then s.(users := s.users[user := active]) else s
    case Begin(id, job) => if id in s.txs then s else Put(s, id, Opening(lifetime, s.clock, job))
    case _ => if a.id in s.txs then TxStep(lifetime, s, a, a.id, s.txs[a.id]) else s
  }

  function Run(lifetime: Time, s: State, acts: seq<Action>): State {
    if acts == [] then s else Step(lifetime, Run(lifetime, s, acts[..|acts| - 1]), acts[|acts| - 1])
  }

  lemma RunSnoc(lifetime: Time, s: State, acts: seq<Action>, a: Action)
    ensures Run(lifetime, s, acts + [a]) == Step(lifetime, Run(lifetime, s, acts), a)
  {
    assert (acts + [a])[..|acts|] == acts;
  }

  lemma RunOne(lifetime: Time, s: State, a: Action)
    ensures Run(lifetime, s, [a]) == Step(lifetime, s, a)
  {
    assert [a][..0] == [];
  }

  lemma {:induction false} RunConcat(lifetime: Time, s: State, before: seq<Action>, acts: seq<Action>)
    ensures Run(lifetime, s, before + acts) == Run(lifetime, Run(lifetime, s, before), acts)
  {
    hide Step;
    if acts == [] {
      assert before + acts == before;
    } else {
      RunConcat(lifetime, s, before, acts[..|acts| - 1]);
      assert (before + acts)[..|before + acts| - 1] == before + acts[..|acts| - 1];
    }
  }

  // ----- reading a journal of commits -----

  function Creates(e: Commit): Option<Hash> {
    match e
    case Login(_, _, token) => Some(token)
    case Rotation(_, _, _, successor) => Some(successor)
    case _ => None
  }

  function Spends(e: Commit): Option<Hash> {
    if e.Login? then None else Some(e.token)
  }

  predicate Created(j: seq<Commit>, h: Hash) {
    j != [] && (Creates(j[|j| - 1]) == Some(h) || Created(j[..|j| - 1], h))
  }

  predicate Spent(j: seq<Commit>, h: Hash) {
    j != [] && (Spends(j[|j| - 1]) == Some(h) || Spent(j[..|j| - 1], h))
  }

  /** How many commits spent a token. */
  function TimesSpent(j: seq<Commit>, h: Hash): nat {
    if j == [] then 0
    else TimesSpent(j[..|j| - 1], h) + (if Spends(j[|j| - 1]) == Some(h) then 1 else 0)
  }

  function Owner(j: seq<Commit>, h: Hash): Option<UserId> {
    if j == [] then None
    else if Creates(j[|j| - 1]) == Some(h) then Some(j[|j| - 1].user)
    else Owner(j[..|j| - 1], h)
  }

  predicate Recorded(j: seq<Commit>, e: Commit) {
    j != [] && (j[|j| - 1] == e || Recorded(j[..|j| - 1], e))
  }

  /** Every commit creates a new token, if any, and spends an unspent token of
      its own user, if any. */
  predicate WellFormed(j: seq<Commit>) {
    j != [] ==>
      var init, e := j[..|j| - 1], j[|j| - 1];
      && (Creates(e).Some? ==> !Created(init, Creates(e).value))
      && (Spends(e).Some? ==> Created(init, e.token) && !Spent(init, e.token) && Owner(init, e.token) == Some(e.user))
      && WellFormed(init)
  }

  // ----- the invariant -----

  /** The row a transaction has updated and keeps locked. */
  function Holds(tx: Tx): Option<Hash> {
    match tx
    case Consumed(token, _, _) => Some(token)
    case Burning(token, _, _) => Some(token)
    case Succeeding(token, _, _, _) => Some(token)
    case Succeeded(token, _, _, _, _) => Some(token)
    case Revoked(token, _, _) => Some(token)
    case Failed(held) => held
    case _ => None
  }

  /** The hash a transaction has inserted but not committed. */
  function Inserts(tx: Tx): Option<Hash> {
    match tx
    case Issued(_, _, token) => Some(token)
    case Succeeded(_, _, _, _, successor) => Some(successor)
    case _ => None
  }

  predicate IsRotation(tx: Tx) {
    tx.Consumed? || tx.Burning? || tx.Succeeding? || tx.Succeeded?
  }

  predicate HeldOk(s: State, id: nat, tx: Tx) {
    Holds(tx).Some? ==>
      var h := Holds(tx).value;
      && h in s.locks && s.locks[h] == id
      && Unrevoked(s, h)
      && (!tx.Failed? ==> s.tokens[h].user == tx.user)
      && (IsRotation(tx) ==> tx.now < s.tokens[h].expiresAt)
  }

  predicate PendingOk(s: State, id: nat, tx: Tx) {
    Inserts(tx).Some? ==>
      var h := Inserts(tx).value;
      h in s.pending && s.pending[h] == id && h !in s.tokens
  }

  /** A caller is told of a commit only if the journal has it. */
  predicate OutcomeOk(j: seq<Commit>, id: nat, tx: Tx) {
    tx.Ended? ==>
      match tx.outcome
      case IssuedToken(user, token) => Recorded(j, Login(id, user, token))
      case RotatedToken(user, token, successor) => Recorded(j, Rotation(id, user, token, successor))
      case BurnedToken(user, token) => Recorded(j, Burn(id, user, token))
      case RevokedToken(user, token) => Recorded(j, Revocation(id, user, token))
      case _ => true
  }

  predicate TxOk(s: State, id: nat, tx: Tx) {
    HeldOk(s, id, tx) && PendingOk(s, id, tx) && OutcomeOk(s.journal, id, tx)
  }

  ghost predicate TxsOk(s: State) {
    forall id :: id in s.txs ==> TxOk(s, id, s.txs[id])
  }

  /** The committed table is what the journal says. */
  predicate RowOk(s: State, h: Hash) {
    && (h in s.tokens <==> Created(s.journal, h))
    && (h in s.tokens ==> Owner(s.journal, h) == Some(s.tokens[h].user))
    && (h in s.tokens ==> (s.tokens[h].revokedAt != None <==> Spent(s.journal, h)))
  }

  ghost predicate RowsOk(s: State) {
    forall h :: RowOk(s, h)
  }

  ghost predicate Invariant(s: State) {
    TxsOk(s) && RowsOk(s) && WellFormed(s.journal)
  }

  // ----- appending to a journal -----

  lemma Snoc(j: seq<Commit>, e: Commit, h: Hash, f: Commit)
    ensures Created(j + [e], h) <==> Creates(e) == Some(h) || Created(j, h)
    ensures Spent(j + [e], h) <==> Spends(e) == Some(h) || Spent(j, h)
    ensures Owner(j + [e], h) == if Creates(e) == Some(h) then Some(e.user) else Owner(j, h)
    ensures Recorded(j + [e], f) <==> e == f || Recorded(j, f)
  {
    assert (j + [e])[..|j|] == j;
  }

  lemma SnocWellFormed(j: seq<Commit>, e: Commit)
    requires WellFormed(j)
    requires Creates(e).Some? ==> !Created(j, Creates(e).value)
    requires Spends(e).Some? ==> Created(j, e.token) && !Spent(j, e.token) && Owner(j, e.token) == Some(e.user)
    ensures WellFormed(j + [e])
  {
    assert (j + [e])[..|j|] == j;
  }

  // ----- each step keeps the invariant -----

  /** A commit, seen from outside: what it publishes and under which entry. */
  ghost predicate Publishes(s: State, id: nat, e: Commit, tokens: map<Hash, Row>) {
    && (Creates(e).Some? ==> Creates(e).value !in s.tokens
                             && Creates(e).value in s.pending && s.pending[Creates(e).value] == id)
    && (Spends(e).Some? ==> Unrevoked(s, e.token) && s.tokens[e.token].user == e.user
                            && e.token in s.locks && s.locks[e.token] == id)
    && (forall h :: h in tokens <==> h in s.tokens || Creates(e) == Some(h))
    && (forall h :: h in s.tokens && Spends(e) != Some(h) ==> tokens[h] == s.tokens[h])
    && (Spends(e).Some? ==> tokens[e.token].revokedAt.Some? && tokens[e.token].user == e.user
                            && tokens[e.token].expiresAt == s.tokens[e.token].expiresAt)
    && (Creates(e).Some? ==> tokens[Creates(e).value].revokedAt == None && tokens[Creates(e).value].user == e.user)
  }

  /** The journal entry of a transaction that is ready to commit. */
  function Entry(id: nat, tx: Tx): Option<Commit> {
    match tx
    case Issued(user, _, token) => Some(Login(id, user, token))
    case Burning(token, _, user) => Some(Burn(id, user, token))
    case Succeeded(token, _, user, _, successor) => Some(Rotation(id, user, token, successor))
    case Revoked(token, _, user) => Some(Revocation(id, user, token))
    case _ => None
  }

  function Told(tx: Tx): Outcome {
    match tx
    case Issued(user, _, token) => IssuedToken(user, token)
    case Burning(token, _, user) => BurnedToken(user, token)
    case Succeeded(token, _, user, _, successor) => RotatedToken(user, token, successor)
    case Revoked(token, _, user) => RevokedToken(user, token)
    case _ => RolledBack
  }

  lemma CommitPublishes(s: State, id: nat, tx: Tx, e: Commit, t: State)
    requires TxOk(s, id, tx) && Entry(id, tx) == Some(e) && t == CommitStep(s, id, tx)
    ensures Publishes(s, id, e, t.tokens)
    ensures t == Finish(s, id, Told(tx)).(tokens := t.tokens, journal := s.journal + [e])
  {
    hide OutcomeOk;
  }

  lemma {:induction false} SpentIsCreated(j: seq<Commit>, h: Hash)
    requires WellFormed(j) && Spent(j, h)
    ensures Created(j, h)
  {
    if Spends(j[|j| - 1]) != Some(h) {
      SpentIsCreated(j[..|j| - 1], h);
    }
  }

  lemma PublishKeepsRow(s: State, id: nat, e: Commit, tokens: map<Hash, Row>, h: Hash)
    requires RowOk(s, h) && WellFormed(s.journal) && Publishes(s, id, e, tokens)
    ensures RowOk(s.(tokens := tokens, journal := s.journal + [e]), h)
  {
    hide Created, Spent, Owner, WellFormed;
    Snoc(s.journal, e, h, e);
    if Spent(s.journal, h) {
      SpentIsCreated(s.journal, h);
    }
  }

  lemma PublishKeepsJournal(s: State, id: nat, e: Commit, tokens: map<Hash, Row>)
    requires RowsOk(s) && WellFormed(s.journal) && Publishes(s, id, e, tokens)
    ensures WellFormed(s.journal + [e])
  {
    hide Created, Spent, Owner, WellFormed;
    if Creates(e).Some? {
      assert RowOk(s, Creates(e).value);
    }
    if Spends(e).Some? {
      assert RowOk(s, e.token);
    }
    SnocWellFormed(s.journal, e);
  }

  /** Another transaction is untouched by a commit: it holds other locks. */
  lemma PublishKeepsTx(s: State, id: nat, e: Commit, t: State, other: nat, tx: Tx)
    requires TxOk(s, other, tx) && other != id && Publishes(s, id, e, t.tokens)
    requires t.locks == NotBy(s.locks, id) && t.pending == NotBy(s.pending, id) && t.journal == s.journal + [e]
    ensures TxOk(t, other, tx)
  {
    hide Recorded;
    OutcomeStays(s.journal, e, other, tx);
  }

  lemma OutcomeStays(j: seq<Commit>, e: Commit, id: nat, tx: Tx)
    requires OutcomeOk(j, id, tx)
    ensures OutcomeOk(j + [e], id, tx)
  {
    assert (j + [e])[..|j|] == j;
  }

  lemma CommitKeepsInvariant(s: State, id: nat, t: State)
    requires Invariant(s) && id in s.txs && t == CommitStep(s, id, s.txs[id])
    ensures Invariant(t)
  {
    var tx := s.txs[id];
    if Entry(id, tx).Some? {
      var e := Entry(id, tx).value;
      hide TxOk, RowOk, WellFormed, Publishes, CommitStep, NotBy;
      assert TxOk(s, id, tx);
      CommitPublishes(s, id, tx, e, t);
      PublishKeepsJournal(s, id, e, t.tokens);
      forall other | other in t.txs ensures TxOk(t, other, t.txs[other]) {
        if other == id {
          JustTold(s, id, tx, e, t);
        } else {
          assert TxOk(s, other, s.txs[other]);
          PublishKeepsTx(s, id, e, t, other, s.txs[other]);
        }
      }
      forall h ensures RowOk(t, h) {
        assert RowOk(s, h);
        PublishKeepsRow(s, id, e, t.tokens, h);
        SameTable(s.(tokens := t.tokens, journal := t.journal), t, h);
      }
    }
  }

  lemma JustTold(s: State, id: nat, tx: Tx, e: Commit, t: State)
    requires Entry(id, tx) == Some(e) && t.journal == s.journal + [e]
    ensures TxOk(t, id, Ended(Told(tx)))
  {
    assert t.journal[|s.journal|] == e;
  }

  lemma SameTable(s: State, t: State, h: Hash)
    requires RowOk(s, h) && t.tokens == s.tokens && t.journal == s.journal
    ensures RowOk(t, h)
  {
  }

  /** A step that publishes nothing and leaves other transactions their locks. */
  ghost predicate Private(s: State, id: nat, t: State) {
    && t.tokens == s.tokens && t.journal == s.journal
    && (forall h :: h in s.locks && s.locks[h] != id ==> h in t.locks && t.locks[h] == s.locks[h])
    && (forall h :: h in s.pending && s.pending[h] != id ==> h in t.pending && t.pending[h] == s.pending[h])
    && (forall other :: other != id ==> (other in t.txs <==> other in s.txs))
    && (forall other :: other != id && other in s.txs ==> t.txs[other] == s.txs[other])
  }

  lemma PrivateKeepsTx(s: State, id: nat, t: State, other: nat, tx: Tx)
    requires TxOk(s, other, tx) && other != id && Private(s, id, t)
    ensures TxOk(t, other, tx)
  {
    hide OutcomeOk;
  }

  lemma PrivateKeepsInvariant(s: State, id: nat, t: State)
    requires Invariant(s) && Private(s, id, t) && (id in t.txs ==> TxOk(t, id, t.txs[id]))
    ensures Invariant(t)
  {
    hide TxOk, RowOk, WellFormed;
    forall other | other in t.txs ensures TxOk(t, other, t.txs[other]) {
      if other != id {
        PrivateKeepsTx(s, id, t, other, s.txs[other]);
      }
    }
    forall h ensures RowOk(t, h) {
      assert RowOk(s, h);
      SameTable(s, t, h);
    }
  }

  /** Taking a free row lock. */
  lemma LockIsPrivate(s: State, id: nat, h: Hash, tx: Tx, t: State)
    requires Unrevoked(s, h) && h !in s.locks && Holds(tx) == Some(h) && Inserts(tx) == None && !tx.Failed?
    requires tx.user == s.tokens[h].user && (IsRotation(tx) ==> tx.now < s.tokens[h].expiresAt)
    requires t == Put(s.(locks := s.locks[h := id]), id, tx)
    ensures Private(s, id, t) && id in t.txs && TxOk(t, id, t.txs[id])
  {
    hide Recorded;
  }

  /** Writing nothing and holding nothing new. */
  lemma PutIsPrivate(s: State, id: nat, tx: Tx, t: State)
    requires TxOk(s, id, tx) && t == Put(s, id, tx)
    ensures Private(s, id, t) && id in t.txs && TxOk(t, id, t.txs[id])
  {
    hide Recorded;
  }

  lemma UpdateIsPrivate(s: State, id: nat, tx: Tx, t: State)
    requires id in s.txs && s.txs[id] == tx && TxOk(s, id, tx) && t == UpdateStep(s, id, tx)
    ensures Private(s, id, t) && id in t.txs && TxOk(t, id, t.txs[id])
  {
    hide Recorded, Private, Put;
    PutIsPrivate(s, id, Ended(NoMatch), Put(s, id, Ended(NoMatch)));
    PutIsPrivate(s, id, tx, Put(s, id, tx));
    SamePut(s, id, tx);
    if ((tx.Rotating? && Usable(s, tx.token, tx.now)) || (tx.Revoking? && Unrevoked(s, tx.token)))
       && tx.token !in s.locks {
      var user := s.tokens[tx.token].user;
      var tx' := if tx.Rotating? then Consumed(tx.token, tx.now, user) else Revoked(tx.token, tx.now, user);
      LockIsPrivate(s, id, tx.token, tx', Put(s.(locks := s.locks[tx.token := id]), id, tx'));
    }
  }

  lemma SamePut(s: State, id: nat, tx: Tx)
    requires id in s.txs && s.txs[id] == tx
    ensures Put(s, id, tx) == s
  {
    assert s.txs[id := tx] == s.txs;
  }

  lemma LookupIsPrivate(lifetime: Time, s: State, id: nat, tx: Tx, t: State)
    requires id in s.txs && s.txs[id] == tx && TxOk(s, id, tx) && t == LookupStep(lifetime, s, id, tx)
    ensures Private(s, id, t) && id in t.txs && TxOk(t, id, t.txs[id])
  {
    hide Recorded;
  }

  /** Taking a free entry of the unique index. */
  lemma PendIsPrivate(s: State, id: nat, h: Hash, tx: Tx, tx': Tx, t: State)
    requires TxOk(s, id, tx) && h !in s.tokens && h !in s.pending
    requires Inserts(tx') == Some(h) && Holds(tx') == Holds(tx) && !tx'.Failed? && !tx'.Ended?
    requires Holds(tx).Some? ==> !tx.Failed? && tx.user == tx'.user
    requires IsRotation(tx') ==> IsRotation(tx) && tx'.now == tx.now
    requires t == Put(s.(pending := s.pending[h := id]), id, tx')
    ensures Private(s, id, t) && id in t.txs && TxOk(t, id, t.txs[id])
  {
    hide Recorded;
  }

  lemma InsertIsPrivate(s: State, id: nat, tx: Tx, token: Hash, t: State)
    requires id in s.txs && s.txs[id] == tx && TxOk(s, id, tx) && t == InsertStep(s, id, tx, token)
    ensures Private(s, id, t) && id in t.txs && TxOk(t, id, t.txs[id])
  {
    hide Recorded, Private, Put;
    PutIsPrivate(s, id, tx, Put(s, id, tx));
    SamePut(s, id, tx);
    if tx.Issuing? || tx.Succeeding? {
      PutIsPrivate(s, id, Failed(Holds(tx)), Put(s, id, Failed(Holds(tx))));
      if token !in s.tokens && token !in s.pending {
        var tx' := if tx.Issuing? then Issued(tx.user, tx.expiresAt, token)
                   else Succeeded(tx.token, tx.now, tx.user, tx.expiresAt, token);
        PendIsPrivate(s, id, token, tx, tx', Put(s.(pending := s.pending[token := id]), id, tx'));
      }
    }
  }

  lemma AbortIsPrivate(s: State, id: nat, tx: Tx, t: State)
    requires id in s.txs && s.txs[id] == tx && TxOk(s, id, tx) && t == AbortStep(s, id, tx)
    ensures Private(s, id, t) && id in t.txs && TxOk(t, id, t.txs[id])
  {
    hide Recorded;
  }

  lemma TxStepKeepsInvariant(lifetime: Time, s: State, a: Action, id: nat, t: State)
    requires Invariant(s) && id in s.txs && t == TxStep(lifetime, s, a, id, s.txs[id])
    ensures Invariant(t)
  {
    hide TxOk, RowOk, WellFormed, UpdateStep, LookupStep, InsertStep, CommitStep, AbortStep, Private;
    var tx := s.txs[id];
    assert TxOk(s, id, tx);
    match a
    case CommitTx(_) => CommitKeepsInvariant(s, id, t);
    case Update(_) =>
      UpdateIsPrivate(s, id, tx, t);
      PrivateKeepsInvariant(s, id, t);
    case Lookup(_) =>
      LookupIsPrivate(lifetime, s, id, tx, t);
      PrivateKeepsInvariant(s, id, t);
    case Insert(_, token) =>
      InsertIsPrivate(s, id, tx, token, t);
      PrivateKeepsInvariant(s, id, t);
    case Abort(_) =>
      AbortIsPrivate(s, id, tx, t);
      PrivateKeepsInvariant(s, id, t);
    case _ =>
  }

  lemma Opened(lifetime: Time, s: State, id: nat, job: Job, t: State)
    requires id !in s.txs && t == Put(s, id, Opening(lifetime, s.clock, job))
    ensures Private(s, id, t) && TxOk(t, id, t.txs[id])
  {
  }

  lemma StepKeepsInvariant(lifetime: Time, s: State, a: Action)
    requires Invariant(s)
    ensures Invariant(Step(lifetime, s, a))
  {
    hide TxOk, RowOk, WellFormed, TxStep, Private, Opening;
    var t := Step(lifetime, s, a);
    match a
    case Tick(_) => SameWorld(s, t);
    case SetActive(_, _) => SameWorld(s, t);
    case Begin(id, job) =>
      if id !in s.txs {
        Opened(lifetime, s, id, job, t);
        PrivateKeepsInvariant(s, id, t);
      }
    case _ =>
      if a.id in s.txs {
        TxStepKeepsInvariant(lifetime, s, a, a.id, t);
      }
  }

  lemma SameWorld(s: State, t: State)
    requires Invariant(s) && t == s.(clock := t.clock, users := t.users)
    ensures Invariant(t)
  {
    hide WellFormed, Recorded, Created, Spent, Owner;
    forall id | id in t.txs ensures TxOk(t, id, t.txs[id]) {
      assert TxOk(s, id, s.txs[id]);
    }
    forall h ensures RowOk(t, h) {
      assert RowOk(s, h);
    }
  }

  /** Every run from an empty token table keeps the invariant. */
  lemma {:induction false} RunKeepsInvariant(lifetime: Time, clock: Time, users: map<UserId, bool>, acts: seq<Action>)
    ensures Invariant(Run(lifetime, Start(clock, users), acts))
  {
    hide Step;
    if acts != [] {
      RunKeepsInvariant(lifetime, clock, users, acts[..|acts| - 1]);
      StepKeepsInvariant(lifetime, Run(lifetime, Start(clock, users), acts[..|acts| - 1]), acts[|acts| - 1]);
    }
  }
}
