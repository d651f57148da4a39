/** Scopes on their way from storage and request, through an access token, to
    the check at an endpoint. */
module AccessScopes {
  import opened Wrappers
  import opened Text
  import opened Scopes

  // ----- the requested scopes -----

  /** Python's str.split() without a separator. */
  function Words(s: string): (words: seq<string>)
    ensures s != "" && !IsSpace(s[|s| - 1]) ==> words != []
  {
    if s == "" then []
    else
      var init, c := s[..|s| - 1], s[|s| - 1];
      if IsSpace(c) then Words(init)
      else if init == "" || IsSpace(init[|init| - 1]) then Words(init) + [[c]]
      else Extend(Words(init), [c])
  }

  /** A word: not empty, and without whitespace. */
  predicate Solid(w: string) {
    w != "" && !IsSpace(w[|w| - 1]) && (|w| > 1 ==> Solid(w[..|w| - 1]))
  }

  predicate AllSolid(ws: seq<string>) {
    ws != [] ==> Solid(ws[|ws| - 1]) && AllSolid(ws[..|ws| - 1])
  }

  lemma {:induction false} WordsAreSolid(s: string)
    ensures AllSolid(Words(s))
  {
    if s != "" {
      var init, c := s[..|s| - 1], s[|s| - 1];
      WordsAreSolid(init);
      var ws := Words(init);
      if !IsSpace(c) {
        if init == "" || IsSpace(init[|init| - 1]) {
          assert (ws + [[c]])[..|ws|] == ws;
        } else {
          var w := ws[|ws| - 1];
          assert Extend(ws, [c])[..|ws| - 1] == ws[..|ws| - 1];
          assert (w + [c])[..|w|] == w;
        }
      }
    }
  }

  /** A word after a gap, or at the start, is a word of its own. */
  lemma {:induction false} WordsAppend(s: string, w: string)
    requires Solid(w) && (s == "" || IsSpace(s[|s| - 1]))
    ensures Words(s + w) == Words(s) + [w]
  {
    var init, c := w[..|w| - 1], w[|w| - 1];
    assert (s + w)[..|s + w| - 1] == s + init;
    if init == "" {
      assert s + init == s && w == [c];
    } else {
      WordsAppend(s, init);
      assert init + [c] == w;
      assert Words(s + w) == Extend(Words(s) + [init], [c]);
    }
  }

  lemma NoWords()
    ensures Words("") == []
  {
  }

  lemma WordsBlank(s: string)
    ensures Words(s + " ") == Words(s)
    ensures IsSpace((s + " ")[|s + " "| - 1])
  {
    assert (s + " ")[..|s|] == s;
  }

  predicate EndsInGap(s: string) {
    s == "" || IsSpace(s[|s| - 1])
  }

  lemma WordsSnoc(s: string, x: char)
    ensures !EndsInGap(s) ==> Words(s) != []
    ensures Words(s + [x]) ==
            if IsSpace(x) then Words(s)
            else if EndsInGap(s) then Words(s) + [[x]]
            else Extend(Words(s), [x])
  {
    assert (s + [x])[..|s|] == s;
  }

  lemma GapInFront(s: string, c: char, t: string)
    requires IsSpace(c)
    ensures EndsInGap(s + [c] + t) <==> EndsInGap(t)
  {
  }

  /** Words come out of the text on either side of a gap independently. */
  lemma {:induction false} WordsConcat(s: string, c: char, t: string)
    requires IsSpace(c)
    ensures Words(s + [c] + t) == Words(s) + Words(t)
  {
    hide Words, IsSpace, EndsInGap;
    if t == "" {
      assert s + [c] + t == s + [c];
      WordsSnoc(s, c);
      NoWords();
    } else {
      var init, x := t[..|t| - 1], t[|t| - 1];
      WordsConcat(s, c, init);
      GapInFront(s, c, init);
      assert s + [c] + t == (s + [c] + init) + [x] && t == init + [x];
      WordsSnoc(s + [c] + init, x);
      WordsSnoc(init, x);
      if !EndsInGap(init) {
        ExtendConcat(Words(s), Words(init), [x]);
      }
    }
  }

  lemma ExtendConcat(a: seq<string>, b: seq<string>, t: string)
    requires b != []
    ensures Extend(a + b, t) == a + Extend(b, t)
  {
    assert (a + b)[..|a + b| - 1] == a + b[..|b| - 1];
  }

  lemma {:induction false} JoinReadsBack(ws: seq<string>)
    requires AllSolid(ws)
    ensures Words(Join(ws, ' ')) == ws
  {
    hide Words, Solid, IsSpace;
    if ws == [] {
      NoWords();
    } else {
      var init, last := ws[..|ws| - 1], ws[|ws| - 1];
      JoinReadsBack(init);
      if init == [] {
        WordsAppend("", last);
        assert "" + last == last;
      } else {
        WordsBlank(Join(init, ' '));
        WordsAppend(Join(init, ' ') + " ", last);
      }
    }
  }

  /** Joined by blanks, a list reads back as itself exactly when each of its
      elements is a word; so these are the lists that can be requested. */
  lemma WordsOfJoin(ws: seq<string>)
    ensures Words(Join(ws, ' ')) == ws <==> AllSolid(ws)
  {
    hide Words, Join, AllSolid;
    if AllSolid(ws) {
      JoinReadsBack(ws);
    }
    WordsAreSolid(Join(ws, ' '));
  }

  // ----- sets as sorted lists -----

  /** sorted({...}) */
  function SortUnique(xs: seq<string>): seq<string> {
    if xs == [] then [] else Insert(SortUnique(xs[..|xs| - 1]), xs[|xs| - 1])
  }

  lemma {:induction false} SortUniqueIs(xs: seq<string>)
    ensures Increasing(SortUnique(xs)) && SetOf(SortUnique(xs)) == SetOf(xs)
  {
    if xs != [] {
      hide Insert, Less;
      SortUniqueIs(xs[..|xs| - 1]);
      InsertIs(SortUnique(xs[..|xs| - 1]), xs[|xs| - 1]);
    }
  }

  /** The elements of xs that are not in ys, in order. */
  function Missing(xs: seq<string>, ys: seq<string>): seq<string> {
    if xs == [] then []
    else
      var before, x := Missing(xs[..|xs| - 1], ys), xs[|xs| - 1];
      if x in SetOf(ys) then before else before + [x]
  }

  lemma {:induction false} MissingIs(xs: seq<string>, ys: seq<string>)
    ensures SetOf(Missing(xs, ys)) == SetOf(xs) - SetOf(ys)
    ensures Missing(xs, ys) == [] <==> SetOf(xs) <= SetOf(ys)
  {
    if xs != [] {
      var before, x := Missing(xs[..|xs| - 1], ys), xs[|xs| - 1];
      MissingIs(xs[..|xs| - 1], ys);
      assert (before + [x])[..|before|] == before;
      assert SetOf(xs) == SetOf(xs[..|xs| - 1]) + {x};
    }
  }

  lemma {:induction false} MissingConcat(xs: seq<string>, zs: seq<string>, ys: seq<string>)
    ensures Missing(xs + zs, ys) == Missing(xs, ys) + Missing(zs, ys)
  {
    if zs == [] {
      assert xs + zs == xs;
    } else {
      MissingConcat(xs, zs[..|zs| - 1], ys);
      assert (xs + zs)[..|xs + zs| - 1] == xs + zs[..|zs| - 1];
    }
  }

  /** One by one, in order: what is not there is missing. */
  lemma MissingInOrder(xs: seq<string>, x: string, zs: seq<string>, ys: seq<string>)
    ensures Missing([], ys) == []
    ensures Missing(xs + [x] + zs, ys) ==
            if x in ys then Missing(xs, ys) + Missing(zs, ys) else Missing(xs, ys) + [x] + Missing(zs, ys)
  {
    MissingConcat(xs + [x], zs, ys);
    MissingConcat(xs, [x], ys);
    SetOfHas(ys, x);
    assert [x][..0] == [];
  }

  // ----- issuing -----

  /** The settings that issuing and checking read. Signing is abstract: a token
      is its claims with the secret that signed them. */
  datatype Settings = Settings(
    enabled: bool,
    secret: string,
    moreSecrets: seq<string>,
    issuer: string,
    audience: string,
    minutes: int,
    adminScopes: seq<string>)

  datatype Claims = Claims(
    subject: string, username: string, scopes: seq<string>, kind: string,
    issuer: string, audience: string, issuedAt: int, expiresAt: int)

  datatype Token = Signed(claims: Claims, secret: string)

  datatype Principal = Principal(username: string, subject: string, scopes: seq<string>)

  datatype Grant = Refused(status: int, missing: seq<string>) | Granted(token: Token, scopes: seq<string>)

  function CreateAccessToken(s: Settings, now: real, username: string, scopes: seq<string>, subject: string): Token {
    Signed(Claims(if subject == "" then username else subject, username, scopes, "access", s.issuer, s.audience,
                  now.Floor, (now + 60.0 * s.minutes as real).Floor),
           s.secret)
  }

  /** An absent grant type is the empty string. */
  predicate IsPasswordGrant(grantType: string) {
    grantType == "" || grantType == "password"
  }

  /** The password grant, once the caller is authenticated or not. */
  function IssueAccessToken(s: Settings, now: real, grantType: string, who: Option<Principal>, scope: string): Grant {
    if !s.enabled then Refused(400, [])
    else if !IsPasswordGrant(grantType) then Refused(400, [])
    else if who == None then Refused(401, [])
    else
      var requested, allowed := Words(scope), who.value.scopes;
      if requested != [] && !(SetOf(requested) <= SetOf(allowed))
      then Refused(400, SortUnique(Missing(requested, allowed)))
      else
        var scopes := if requested != [] then SortUnique(requested) else SortUnique(allowed);
        Granted(CreateAccessToken(s, now, who.value.username, scopes, who.value.subject), scopes)
  }

  /** A user of the database, as the principal of a grant. */
  function DatabasePrincipal(id: string, username: string, scopesCsv: string): Principal {
    Principal(username, "user:" + id, FromCsv(scopesCsv))
  }

  /** The access token of a refresh carries the stored scopes. */
  function RefreshAccessToken(s: Settings, now: real, p: Principal): Token {
    CreateAccessToken(s, now, p.username, p.scopes, p.subject)
  }

  /** What the password grant answers, and what its token claims. */
  lemma GrantVerdict(s: Settings, now: real, grantType: string, who: Option<Principal>, scope: string, g: Grant)
    requires g == IssueAccessToken(s, now, grantType, who, scope)
    ensures !s.enabled || (grantType != "" && grantType != "password") ==> g == Refused(400, [])
    ensures s.enabled && (grantType == "" || grantType == "password") && who.None? ==> g == Refused(401, [])
    ensures g.Granted? <==>
            s.enabled && (grantType == "" || grantType == "password") && who.Some?
            && forall x :: x in Words(scope) ==> x in who.value.scopes
    ensures g.Refused? ==> Increasing(g.missing)
    ensures g.Granted? ==>
              Increasing(g.scopes)
              && SetOf(g.scopes) == SetOf(if Words(scope) == [] then who.value.scopes else Words(scope))
    ensures g.Granted? ==>
              && g.token.secret == s.secret && g.token.claims.scopes == g.scopes
              && g.token.claims.username == who.value.username
              && g.token.claims.subject == (if who.value.subject == "" then who.value.username else who.value.subject)
              && g.token.claims.kind == "access"
              && g.token.claims.issuer == s.issuer && g.token.claims.audience == s.audience
              && g.token.claims.issuedAt == now.Floor
              && g.token.claims.expiresAt == (now + 60.0 * s.minutes as real).Floor
  {
    if who.Some? {
      var requested, allowed := Words(scope), who.value.scopes;
      hide Words, SetOf, SortUnique, Missing, Increasing;
      SortUniqueIs(requested);
      SortUniqueIs(allowed);
      SortUniqueIs(Missing(requested, allowed));
      WithinIs(requested, allowed);
      NothingIsWithin(requested, allowed);
    }
    assert Increasing([]);
  }

  lemma WithinIs(xs: seq<string>, ys: seq<string>)
    ensures SetOf(xs) <= SetOf(ys) <==> forall x :: x in xs ==> x in ys
  {
    hide SetOf;
    forall x ensures (x in SetOf(xs) <==> x in xs) && (x in SetOf(ys) <==> x in ys) {
      SetOfHas(xs, x);
      SetOfHas(ys, x);
    }
  }

  lemma NothingIsWithin(xs: seq<string>, ys: seq<string>)
    ensures xs == [] ==> SetOf(xs) <= SetOf(ys)
  {
  }

  // ----- checking -----

  predicate Verifies(s: Settings, token: Token, secret: string, now: real) {
    && token.secret == secret
    && token.claims.issuer == s.issuer && token.claims.audience == s.audience
    && token.claims.issuedAt as real <= now < token.claims.expiresAt as real
  }

  function TrySecrets(s: Settings, token: Token, secrets: seq<string>, now: real): Option<Claims> {
    if secrets == [] then None
    else if Verifies(s, token, secrets[0], now) then Some(token.claims)
    else TrySecrets(s, token, secrets[1..], now)
  }

  function DecodeAccessToken(s: Settings, token: Token, now: real): Option<Claims> {
    TrySecrets(s, token, [s.secret] + s.moreSecrets, now)
  }

  datatype Verdict = Rejected(status: int, missing: seq<string>) | Accepted(username: string, scopes: seq<string>)

  function GetCurrentPrincipal(s: Settings, required: seq<string>, token: Option<Token>, now: real): Verdict {
    if !s.enabled then Accepted("local-dev", s.adminScopes)
    else if token == None then Rejected(401, [])
    else
      var payload := DecodeAccessToken(s, token.value, now);
      if payload == None then Rejected(401, [])
      else if payload.value.kind != "" && payload.value.kind != "access" then Rejected(401, [])
      else if Missing(required, payload.value.scopes) != [] then Rejected(403, Missing(required, payload.value.scopes))
      else if payload.value.username == "" then Rejected(401, [])
      else Accepted(payload.value.username, payload.value.scopes)
  }

  lemma {:induction false} SomeSecretVerifies(s: Settings, token: Token, secrets: seq<string>, now: real)
    ensures TrySecrets(s, token, secrets, now) ==
            if token.secret in secrets && Verifies(s, token, token.secret, now) then Some(token.claims) else None
  {
    if secrets != [] {
      SomeSecretVerifies(s, token, secrets[1..], now);
    }
  }

  /** Key rotation: a token decodes exactly when its secret is the current one
      or still among the additional ones, wherever it stands, and its claims are
      in order. */
  lemma DecodesUnderAnySecret(s: Settings, token: Token, now: real)
    ensures DecodeAccessToken(s, token, now) ==
            if (token.secret == s.secret || token.secret in s.moreSecrets) && Verifies(s, token, token.secret, now)
            then Some(token.claims) else None
  {
    SomeSecretVerifies(s, token, [s.secret] + s.moreSecrets, now);
  }

  /** Signed by the current secret or an additional one, by this issuer, for this
      audience, and within its life. */
  predicate Genuine(s: Settings, t: Token, now: real) {
    && (t.secret == s.secret || t.secret in s.moreSecrets)
    && t.claims.issuer == s.issuer && t.claims.audience == s.audience
    && t.claims.issuedAt as real <= now < t.claims.expiresAt as real
  }

  /** Main result: whatever the token and whenever it comes, the check accepts it
      exactly when it is genuine, an access token, and carries every required
      scope and a name; without a genuine token the answer is 401, and 403 is
      for missing scopes alone, listed as they are required. */
  lemma EndpointVerdict(s: Settings, required: seq<string>, token: Option<Token>, now: real, v: Verdict)
    requires v == GetCurrentPrincipal(s, required, token, now)
    ensures !s.enabled ==> v == Accepted("local-dev", s.adminScopes)
    ensures s.enabled ==>
              (v.Accepted? <==>
               && token.Some? && Genuine(s, token.value, now)
               && (token.value.claims.kind == "" || token.value.claims.kind == "access")
               && (forall x :: x in required ==> x in token.value.claims.scopes)
               && token.value.claims.username != "")
    ensures s.enabled && v.Accepted? ==> v == Accepted(token.value.claims.username, token.value.claims.scopes)
    ensures s.enabled && (token.None? || !Genuine(s, token.value, now)) ==> v == Rejected(401, [])
    ensures s.enabled && v.Rejected? && v.status != 401 ==>
              v == Rejected(403, Missing(required, token.value.claims.scopes)) && v.missing != []
  {
    if s.enabled && token.Some? {
      hide Missing, DecodeAccessToken, SetOf;
      DecodesUnderAnySecret(s, token.value, now);
      MissingIs(required, token.value.claims.scopes);
      WithinIs(required, token.value.claims.scopes);
    }
  }

  /** The settings under which a token is checked still honour those under which
      it was issued, and its life has not passed. */
  predicate Honours(at: Settings, issued: Settings, grantedAt: real, now: real) {
    && at.enabled
    && at.issuer == issued.issuer && at.audience == issued.audience
    && (issued.secret == at.secret || issued.secret in at.moreSecrets)
    && grantedAt <= now < (grantedAt + 60.0 * issued.minutes as real).Floor as real
  }

  lemma FreshTokenDecodes(
      at: Settings, issued: Settings, grantedAt: real, now: real, username: string, scopes: seq<string>,
      subject: string)
    requires Honours(at, issued, grantedAt, now)
    ensures DecodeAccessToken(at, CreateAccessToken(issued, grantedAt, username, scopes, subject), now)
            == Some(CreateAccessToken(issued, grantedAt, username, scopes, subject).claims)
  {
    DecodesUnderAnySecret(at, CreateAccessToken(issued, grantedAt, username, scopes, subject), now);
  }

  /** A live token is accepted exactly when it carries every required scope and
      names a user; what is missing is reported in the order required. */
  lemma LiveTokenVerdict(
      at: Settings, issued: Settings, grantedAt: real, now: real, p: Principal, scopes: seq<string>,
      required: seq<string>, v: Verdict)
    requires Honours(at, issued, grantedAt, now)
    requires v == GetCurrentPrincipal(
                    at, required, Some(CreateAccessToken(issued, grantedAt, p.username, scopes, p.subject)), now)
    ensures v.Accepted? <==> SetOf(required) <= SetOf(scopes) && p.username != ""
    ensures v.Accepted? ==> v.username == p.username && v.scopes == scopes
    ensures !(SetOf(required) <= SetOf(scopes)) ==>
              v.Rejected? && v.status == 403 && SetOf(v.missing) == SetOf(required) - SetOf(scopes)
  {
    hide Missing, SetOf, DecodeAccessToken;
    FreshTokenDecodes(at, issued, grantedAt, now, p.username, scopes, p.subject);
    MissingIs(required, scopes);
  }

  /** The scopes that a grant is about: the requested ones, or all. */
  function Effective(scope: string, stored: seq<string>): seq<string> {
    if Words(scope) != [] then Words(scope) else stored
  }

  /** Main result: with P the stored scopes and R the requested ones, a password
      grant succeeds exactly when R is within P, and otherwise names what R has
      beyond P; the token it issues passes a requirement S exactly when S is
      within R, or within P when nothing was requested. */
  lemma ScopesEndToEnd(
      issued: Settings, grantedAt: real, grantType: string, id: string, username: string, scopesCsv: string,
      scope: string, at: Settings, now: real, required: seq<string>, g: Grant)
    requires issued.enabled && Honours(at, issued, grantedAt, now)
    requires g == IssueAccessToken(
                    issued, grantedAt, grantType, Some(DatabasePrincipal(id, username, scopesCsv)), scope)
    ensures g.Granted? <==> IsPasswordGrant(grantType) && SetOf(Words(scope)) <= SetOf(FromCsv(scopesCsv))
    ensures g.Refused? ==> g.status == 400
    ensures g.Refused? && IsPasswordGrant(grantType) ==>
              SetOf(g.missing) == SetOf(Words(scope)) - SetOf(FromCsv(scopesCsv))
    ensures g.Granted? ==>
              (GetCurrentPrincipal(at, required, Some(g.token), now).Accepted?
               <==> SetOf(required) <= SetOf(Effective(scope, FromCsv(scopesCsv))) && username != "")
  {
    var p := DatabasePrincipal(id, username, scopesCsv);
    hide Words, FromCsv, SetOf, SortUnique, Missing, GetCurrentPrincipal, CreateAccessToken, Honours;
    NothingIsWithin(Words(scope), p.scopes);
    if g.Granted? {
      SortUniqueIs(Effective(scope, p.scopes));
      LiveTokenVerdict(at, issued, grantedAt, now, p, g.scopes, required,
                       GetCurrentPrincipal(at, required, Some(g.token), now));
    } else {
      SortUniqueIs(Missing(Words(scope), p.scopes));
      MissingIs(Words(scope), p.scopes);
    }
  }

  /** Main result: a granted token is accepted for exactly its life, by exactly the
      settings that know its secret, issuer and audience. */
  lemma GrantedTokenLives(
      issued: Settings, grantedAt: real, p: Principal, scope: string, at: Settings, now: real, required: seq<string>,
      g: Grant)
    requires g == IssueAccessToken(issued, grantedAt, "password", Some(p), scope) && g.Granted? && at.enabled
    ensures GetCurrentPrincipal(at, required, Some(g.token), now).Accepted? <==>
            && (issued.secret == at.secret || issued.secret in at.moreSecrets)
            && issued.issuer == at.issuer && issued.audience == at.audience
            && grantedAt.Floor as real <= now < (grantedAt + 60.0 * issued.minutes as real).Floor as real
            && SetOf(required) <= SetOf(Effective(scope, p.scopes))
            && p.username != ""
  {
    hide Words, SetOf, GetCurrentPrincipal, IssueAccessToken, Increasing;
    GrantVerdict(issued, grantedAt, "password", Some(p), scope, g);
    EndpointVerdict(at, required, Some(g.token), now, GetCurrentPrincipal(at, required, Some(g.token), now));
    WithinIs(required, g.scopes);
  }

  /** A user's tokens carry the user's identity. */
  lemma TokensNameTheUser(
      issued: Settings, now: real, grantType: string, id: string, username: string, scopesCsv: string, scope: string,
      g: Grant)
    requires g == IssueAccessToken(issued, now, grantType, Some(DatabasePrincipal(id, username, scopesCsv)), scope)
    ensures g.Granted? ==> g.token.claims.subject == "user:" + id && g.token.claims.username == username
    ensures RefreshAccessToken(issued, now, DatabasePrincipal(id, username, scopesCsv)) ==
            Signed(Claims("user:" + id, username, FromCsv(scopesCsv), "access", issued.issuer, issued.audience,
                          now.Floor, (now + 60.0 * issued.minutes as real).Floor), issued.secret)
  {
    hide Words, FromCsv, IssueAccessToken;
    GrantVerdict(issued, now, grantType, Some(DatabasePrincipal(id, username, scopesCsv)), scope, g);
    assert "user:" + id != "";
  }

  /** Two tokens that pass the same requirements. */
  ghost predicate PassAlike(at: Settings, t: Token, u: Token, now: real) {
    forall required :: GetCurrentPrincipal(at, required, Some(t), now).Accepted?
                       <==> GetCurrentPrincipal(at, required, Some(u), now).Accepted?
  }

  lemma RefreshedTokenPasses(
      at: Settings, issued: Settings, grantedAt: real, now: real, p: Principal, required: seq<string>)
    requires Honours(at, issued, grantedAt, now) && p.username != ""
    ensures GetCurrentPrincipal(at, required, Some(RefreshAccessToken(issued, grantedAt, p)), now).Accepted?
            <==> SetOf(required) <= SetOf(p.scopes)
  {
    hide SetOf, GetCurrentPrincipal, CreateAccessToken, Honours;
    LiveTokenVerdict(at, issued, grantedAt, now, p, p.scopes, required,
                     GetCurrentPrincipal(at, required, Some(RefreshAccessToken(issued, grantedAt, p)), now));
  }

  /** Main result: a refreshed token passes exactly the requirements within the
      stored scopes, whatever was requested at login. It passes what the login's
      token passed if and only if nothing less than the stored scopes was
      requested. */
  lemma RefreshRestoresStoredScopes(
      issued: Settings, loginAt: real, grantType: string, id: string, username: string, scopesCsv: string,
      scope: string, refreshAt: real, at: Settings, now: real, required: seq<string>, g: Grant, t: Token)
    requires issued.enabled && Honours(at, issued, loginAt, now) && Honours(at, issued, refreshAt, now)
    requires g == IssueAccessToken(
                    issued, loginAt, grantType, Some(DatabasePrincipal(id, username, scopesCsv)), scope)
    requires t == RefreshAccessToken(issued, refreshAt, DatabasePrincipal(id, username, scopesCsv))
    requires g.Granted? && username != ""
    ensures GetCurrentPrincipal(at, required, Some(t), now).Accepted? <==> SetOf(required) <= SetOf(FromCsv(scopesCsv))
    ensures PassAlike(at, g.token, t, now) <==> Words(scope) == [] || SetOf(Words(scope)) == SetOf(FromCsv(scopesCsv))
  {
    var p, asked := DatabasePrincipal(id, username, scopesCsv), Effective(scope, FromCsv(scopesCsv));
    hide Words, FromCsv, SetOf, GetCurrentPrincipal, IssueAccessToken, RefreshAccessToken, Honours;
    forall s ensures GetCurrentPrincipal(at, s, Some(t), now).Accepted? <==> SetOf(s) <= SetOf(p.scopes) {
      RefreshedTokenPasses(at, issued, refreshAt, now, p, s);
    }
    forall s ensures GetCurrentPrincipal(at, s, Some(g.token), now).Accepted? <==> SetOf(s) <= SetOf(asked) {
      ScopesEndToEnd(issued, loginAt, grantType, id, username, scopesCsv, scope, at, now, s, g);
    }
    ScopesEndToEnd(issued, loginAt, grantType, id, username, scopesCsv, scope, at, now, required, g);
    if PassAlike(at, g.token, t, now) {
      assert GetCurrentPrincipal(at, p.scopes, Some(g.token), now).Accepted?;
    }
  }

  lemma SetOfOne(x: string)
    ensures SetOf([x]) == {x}
  {
    assert [x][..0] == [];
  }

  /** With "a,b" stored and "a" requested, the login's token does not pass a
      requirement of "b", and the refreshed one does. */
  lemma RefreshWidens(
      issued: Settings, loginAt: real, id: string, username: string, refreshAt: real, at: Settings, now: real)
    requires issued.enabled && Honours(at, issued, loginAt, now) && Honours(at, issued, refreshAt, now)
    requires username != ""
    ensures var p := DatabasePrincipal(id, username, "a,b");
            var g := IssueAccessToken(issued, loginAt, "password", Some(p), "a");
            g.Granted? && !GetCurrentPrincipal(at, ["b"], Some(g.token), now).Accepted?
    ensures var p := DatabasePrincipal(id, username, "a,b");
            GetCurrentPrincipal(at, ["b"], Some(RefreshAccessToken(issued, refreshAt, p)), now).Accepted?
  {
    var p := DatabasePrincipal(id, username, "a,b");
    var g := IssueAccessToken(issued, loginAt, "password", Some(p), "a");
    WordsAppend("", "a");
    NoWords();
    assert "" + "a" == "a";
    CommaExample();
    SetOfOne("a");
    SetOfOne("b");
    assert ["a", "b"][..1] == ["a"];
    assert SetOf(["a", "b"]) == {"a", "b"};
    hide Words, FromCsv, SetOf, GetCurrentPrincipal, IssueAccessToken, RefreshAccessToken, Honours;
    ScopesEndToEnd(issued, loginAt, "password", id, username, "a,b", "a", at, now, ["b"], g);
    RefreshedTokenPasses(at, issued, refreshAt, now, p, ["b"]);
  }
}
