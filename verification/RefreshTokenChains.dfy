/** The tokens that descend from one login form a chain, and the number of
    usable tokens is conserved. */
module RefreshTokenChains {
  import opened Wrappers
  import opened RefreshTokens
  import opened RefreshTokenPromises

  // ----- descent -----

  /** The login token that a token descends from. */
  function RootOf(j: seq<Commit>, h: Hash): Option<Hash> {
    if j == [] then None
    else
      var init, e := j[..|j| - 1], j[|j| - 1];
      match e
      case Login(_, _, token) => if token == h then Some(h) else RootOf(init, h)
      case Rotation(_, _, token, successor) => if successor == h then RootOf(init, token) else RootOf(init, h)
      case _ => RootOf(init, h)
  }

  /** A login's token and all its descendants, in the order they were committed. */
  function Family(j: seq<Commit>, root: Hash): seq<Hash> {
    if j == [] then []
    else
      var before, e := Family(j[..|j| - 1], root), j[|j| - 1];
      match e
      case Login(_, _, token) => if token == root then before + [token] else before
      case Rotation(_, _, token, successor) => if token in before then before + [successor] else before
      case _ => before
  }

  /** Some commit rotated a into b. */
  predicate RotatedInto(j: seq<Commit>, a: Hash, b: Hash) {
    j != [] &&
    (var e := j[|j| - 1];
     (e.Rotation? && e.token == a && e.successor == b) || RotatedInto(j[..|j| - 1], a, b))
  }

  /** Each token of f was rotated into the next one and is spent. */
  predicate Linked(j: seq<Commit>, f: seq<Hash>) {
    |f| >= 2 ==> RotatedInto(j, f[|f| - 2], f[|f| - 1]) && Spent(j, f[|f| - 2]) && Linked(j, f[..|f| - 1])
  }

  predicate NoRepeats(f: seq<Hash>) {
    f != [] ==> f[|f| - 1] !in f[..|f| - 1] && NoRepeats(f[..|f| - 1])
  }

  lemma {:induction false} RootIsCreated(j: seq<Commit>, h: Hash)
    requires WellFormed(j)
    ensures RootOf(j, h).Some? <==> Created(j, h)
  {
    if j != [] {
      var init, e := j[..|j| - 1], j[|j| - 1];
      RootIsCreated(init, h);
      if e.Rotation? {
        RootIsCreated(init, e.token);
      }
    }
  }

  lemma FamilySnoc(j: seq<Commit>, e: Commit, root: Hash, f: seq<Hash>)
    requires f == Family(j, root)
    ensures Family(j + [e], root) ==
            if e == Login(e.id, e.user, root) || (e.Rotation? && e.token in f) then f + [Creates(e).value] else f
  {
    assert (j + [e])[..|j|] == j;
  }

  lemma RootSnoc(j: seq<Commit>, e: Commit, h: Hash)
    ensures RootOf(j + [e], h) ==
            if Creates(e) == Some(h) then (if e.Login? then Some(h) else RootOf(j, e.token)) else RootOf(j, h)
  {
    assert (j + [e])[..|j|] == j;
  }

  /** A family holds exactly the tokens that descend from its root. */
  lemma {:induction false} FamilyIsDescent(j: seq<Commit>, root: Hash, h: Hash)
    requires WellFormed(j)
    ensures h in Family(j, root) <==> RootOf(j, h) == Some(root)
  {
    if j != [] {
      var init, e := j[..|j| - 1], j[|j| - 1];
      assert j == init + [e];
      FamilyIsDescent(init, root, h);
      RootIsCreated(init, h);
      FamilySnoc(init, e, root, Family(init, root));
      RootSnoc(init, e, h);
      if e.Rotation? {
        FamilyIsDescent(init, root, e.token);
      }
    }
  }

  lemma {:induction false} RotatedAreCreated(j: seq<Commit>, a: Hash, b: Hash)
    requires WellFormed(j) && RotatedInto(j, a, b)
    ensures Created(j, a) && Created(j, b)
  {
    var init, e := j[..|j| - 1], j[|j| - 1];
    if !(e.Rotation? && e.token == a && e.successor == b) {
      RotatedAreCreated(init, a, b);
    }
  }

  /** Descent follows the rotations: a token and its successor have one root, */
  lemma {:induction false} RotationKeepsRoot(j: seq<Commit>, a: Hash, b: Hash)
    requires WellFormed(j) && RotatedInto(j, a, b)
    ensures RootOf(j, b) == RootOf(j, a)
  {
    var init, e := j[..|j| - 1], j[|j| - 1];
    if !(e.Rotation? && e.token == a && e.successor == b) {
      RotationKeepsRoot(init, a, b);
      RotatedAreCreated(init, a, b);
    }
  }

  /** and a login's token is its own root. */
  lemma {:induction false} LoginIsRoot(j: seq<Commit>, id: nat, user: UserId, h: Hash)
    requires WellFormed(j) && Recorded(j, Login(id, user, h))
    ensures RootOf(j, h) == Some(h)
  {
    var init, e := j[..|j| - 1], j[|j| - 1];
    if e != Login(id, user, h) {
      LoginIsRoot(init, id, user, h);
      RootIsCreated(init, h);
    }
  }

  lemma {:induction false} LinkedGrows(j: seq<Commit>, e: Commit, f: seq<Hash>)
    requires Linked(j, f)
    ensures Linked(j + [e], f)
  {
    if |f| >= 2 {
      LinkedGrows(j, e, f[..|f| - 1]);
      assert (j + [e])[..|j|] == j;
    }
  }

  lemma {:induction false} LinkedAt(j: seq<Commit>, f: seq<Hash>, i: nat)
    requires Linked(j, f) && i + 1 < |f|
    ensures RotatedInto(j, f[i], f[i + 1]) && Spent(j, f[i])
  {
    if i + 2 < |f| {
      LinkedAt(j, f[..|f| - 1], i);
    }
  }

  /** An unspent member of a linked family is its last. */
  lemma UnspentIsLast(j: seq<Commit>, f: seq<Hash>, h: Hash)
    requires Linked(j, f) && h in f && !Spent(j, h)
    ensures f[|f| - 1] == h
  {
    var i :| 0 <= i < |f| && f[i] == h;
    if i + 1 < |f| {
      LinkedAt(j, f, i);
    }
  }

  lemma LinkedSnoc(j: seq<Commit>, e: Commit, f: seq<Hash>)
    requires Linked(j, f) && e.Rotation? && f != [] && f[|f| - 1] == e.token
    ensures Linked(j + [e], f + [e.successor])
  {
    LinkedGrows(j, e, f);
    assert (f + [e.successor])[..|f|] == f;
    assert (j + [e])[..|j|] == j;
  }

  lemma {:induction false} FamilyIsLinked(j: seq<Commit>, root: Hash)
    requires WellFormed(j)
    ensures Linked(j, Family(j, root)) && NoRepeats(Family(j, root))
    ensures Family(j, root) != [] ==> Family(j, root)[0] == root
  {
    if j != [] {
      var init, e := j[..|j| - 1], j[|j| - 1];
      var f := Family(init, root);
      assert j == init + [e];
      FamilyIsLinked(init, root);
      LinkedGrows(init, e, f);
      FamilySnoc(init, e, root, f);
      if Creates(e).Some? {
        var h := Creates(e).value;
        FamilyIsDescent(init, root, h);
        RootIsCreated(init, h);
        assert (f + [h])[..|f|] == f;
        if e.Login? && e.token == root {
          NoRootNoFamily(init, root);
        } else if e.Rotation? && e.token in f {
          UnspentIsLast(init, f, e.token);
          LinkedSnoc(init, e, f);
        }
      }
    }
  }

  /** Before its login commits, a root has no family. */
  lemma {:induction false} NoRootNoFamily(j: seq<Commit>, root: Hash)
    requires WellFormed(j) && !Created(j, root)
    ensures Family(j, root) == []
  {
    if j != [] {
      NoRootNoFamily(j[..|j| - 1], root);
    }
  }

  /** Main result: in every reachable state, the committed tokens descending
      from one login, listed as they were committed, form a simple chain: it
      starts at the login's token, no token repeats, and each one was rotated
      into the next and is revoked; only the last can be usable. */
  lemma TokensFormChains(lifetime: Time, s: State, root: Hash, i: nat)
    requires Reachable(lifetime, s) && i < |Family(s.journal, root)|
    ensures Family(s.journal, root)[0] == root && NoRepeats(Family(s.journal, root))
    ensures Family(s.journal, root)[i] in s.tokens
    ensures i + 1 < |Family(s.journal, root)| ==>
              RotatedInto(s.journal, Family(s.journal, root)[i], Family(s.journal, root)[i + 1])
              && s.tokens[Family(s.journal, root)[i]].revokedAt.Some?
  {
    var j, f := s.journal, Family(s.journal, root);
    hide Reachable, WellFormed, Linked, NoRepeats, TxsOk, Spent, Created, Family, RotatedInto, Owner, RootOf;
    ReachableKeepsInvariant(lifetime, s);
    FamilyIsLinked(j, root);
    FamilyIsDescent(j, root, f[i]);
    RootIsCreated(j, f[i]);
    assert RowOk(s, f[i]);
    if i + 1 < |f| {
      LinkedAt(j, f, i);
    }
  }

  /** Main result: every committed token belongs to exactly one family, and a
      usable token is the last of its family; so a login never has two usable
      tokens. */
  lemma AtMostOneUsable(lifetime: Time, s: State, h: Hash, g: Hash)
    requires Reachable(lifetime, s) && Unrevoked(s, h) && g in s.tokens
    ensures RootOf(s.journal, h).Some?
    ensures Family(s.journal, RootOf(s.journal, h).value) != []
    ensures var f := Family(s.journal, RootOf(s.journal, h).value); h == f[|f| - 1]
    ensures Unrevoked(s, g) && RootOf(s.journal, g) == RootOf(s.journal, h) ==> g == h
  {
    var j := s.journal;
    hide Reachable, WellFormed, Linked, NoRepeats, TxsOk, Spent, Created, Family, RotatedInto, Owner, RootOf;
    ReachableKeepsInvariant(lifetime, s);
    assert RowOk(s, h) && RowOk(s, g);
    RootIsCreated(j, h);
    var root := RootOf(j, h).value;
    FamilyIsLinked(j, root);
    FamilyIsDescent(j, root, h);
    UnspentIsLast(j, Family(j, root), h);
    if Unrevoked(s, g) && RootOf(j, g) == Some(root) {
      FamilyIsDescent(j, root, g);
      UnspentIsLast(j, Family(j, root), g);
    }
  }

  lemma {:induction false} RotatedIntoIsRecorded(j: seq<Commit>, a: Hash, b: Hash) returns (e: Commit)
    requires RotatedInto(j, a, b)
    ensures Recorded(j, e) && e.Rotation? && e.token == a && e.successor == b
  {
    e := j[|j| - 1];
    if !(e.Rotation? && e.token == a && e.successor == b) {
      e := RotatedIntoIsRecorded(j[..|j| - 1], a, b);
    }
  }

  /** No forks and no merges: a token has at most one successor and at most one
      predecessor. */
  lemma NoForks(lifetime: Time, s: State, a: Hash, b: Hash, a': Hash, b': Hash)
    requires Reachable(lifetime, s) && RotatedInto(s.journal, a, b) && RotatedInto(s.journal, a', b')
    ensures a == a' <==> b == b'
  {
    hide Reachable, WellFormed, TxsOk, RowsOk, Recorded, RotatedInto;
    ReachableKeepsInvariant(lifetime, s);
    var e := RotatedIntoIsRecorded(s.journal, a, b);
    var f := RotatedIntoIsRecorded(s.journal, a', b');
    if a == a' {
      OneSpender(s.journal, e, f);
    }
    if b == b' {
      OneCreator(s.journal, e, f);
    }
  }

  // ----- conservation -----

  function Logins(j: seq<Commit>, u: UserId): nat {
    if j == [] then 0
    else Logins(j[..|j| - 1], u) + (if j[|j| - 1].Login? && j[|j| - 1].user == u then 1 else 0)
  }

  /** Revocations, and rotations that found the user inactive. */
  function Retirements(j: seq<Commit>, u: UserId): nat {
    if j == [] then 0
    else
      var e := j[|j| - 1];
      Retirements(j[..|j| - 1], u) + (if (e.Revocation? || e.Burn?) && e.user == u then 1 else 0)
  }

  /** The unspent tokens of a user, as the journal has them. */
  function Balance(j: seq<Commit>, u: UserId): set<Hash> {
    if j == [] then {}
    else
      var before, e := Balance(j[..|j| - 1], u), j[|j| - 1];
      if e.user != u then before
      else (if Spends(e).Some? then before - {e.token} else before)
           + (if Creates(e).Some? then {Creates(e).value} else {})
  }

  lemma {:induction false} BalanceHas(j: seq<Commit>, u: UserId, h: Hash)
    requires WellFormed(j)
    ensures h in Balance(j, u) <==> Created(j, h) && !Spent(j, h) && Owner(j, h) == Some(u)
  {
    if j != [] {
      var init, e := j[..|j| - 1], j[|j| - 1];
      BalanceHas(init, u, h);
      if Spent(init, h) {
        SpentIsCreated(init, h);
      }
    }
  }

  lemma {:induction false} BalanceAddsUp(j: seq<Commit>, u: UserId)
    requires WellFormed(j)
    ensures |Balance(j, u)| + Retirements(j, u) == Logins(j, u)
  {
    if j != [] {
      var init, e := j[..|j| - 1], j[|j| - 1];
      BalanceAddsUp(init, u);
      if e.user == u {
        if Spends(e).Some? {
          BalanceHas(init, u, e.token);
        }
        if Creates(e).Some? {
          BalanceHas(init, u, Creates(e).value);
        }
      }
    }
  }

  /** The user's committed tokens that are not revoked. */
  function UsableTokens(s: State, u: UserId): set<Hash> {
    set h | h in s.tokens && s.tokens[h].revokedAt == None && s.tokens[h].user == u
  }

  /** Main result: each user's unrevoked tokens number exactly the tokens issued
      at login less the revocations and the consumptions that found the user
      inactive; a successful rotation is count-neutral. */
  lemma TokensAreConserved(lifetime: Time, s: State, u: UserId)
    requires Reachable(lifetime, s)
    ensures |UsableTokens(s, u)| + Retirements(s.journal, u) == Logins(s.journal, u)
  {
    var j := s.journal;
    var usable, balance := UsableTokens(s, u), Balance(j, u);
    hide Reachable, WellFormed, TxsOk, Spent, Created, Owner, Balance, Retirements, Logins;
    ReachableKeepsInvariant(lifetime, s);
    forall h ensures h in usable <==> h in balance {
      assert RowOk(s, h);
      BalanceHas(j, u, h);
    }
    assert usable == balance;
    BalanceAddsUp(j, u);
  }
}
