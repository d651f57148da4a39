/** Password records: printing, parsing, and checking a password against one. */
module Passwords {
  import opened Wrappers
  import opened Text
  import opened Base64Url

  const SCHEME := "pbkdf2_sha256"
  const ITERATIONS := 390000

  /** What the other scheme's verifier does: answer, or raise one of the two
      errors that mean no, or raise anything else. */
  datatype Verification = Verified(matches: bool) | VerifyMismatch | InvalidHash | OtherError

  /** The other scheme's hasher; its salt is part of it. */
  datatype Hasher = Hasher(hash: string -> string, verify: (string, string) -> Verification)

  /** The libraries that passwords need: the key derivation, the hasher of the
      other scheme if it is installed, and int() and the base64 decoder on text
      that no record printed here contains. */
  datatype Libraries = Libraries(
    kdf: (string, seq<byte>, int) -> seq<byte>,
    argon2: Option<Hasher>,
    otherInt: string -> Option<int>,
    otherDecode: string -> Option<seq<byte>>)

  /** The answer of a check, or the error that it lets through. */
  datatype Answer = Is(matches: bool) | Raises

  function Record(iterations: nat, salt: seq<byte>, derived: seq<byte>): string {
    SCHEME + "$" + Decimal(iterations) + "$" + Encode(salt) + "$" + Encode(derived)
  }

  /** A new record for a password; the salt is drawn by the caller. */
  function HashPbkdf2(lib: Libraries, password: string, salt: seq<byte>): string {
    Record(ITERATIONS, salt, lib.kdf(password, salt, ITERATIONS))
  }

  function HashPassword(lib: Libraries, password: string, salt: seq<byte>): string {
    if lib.argon2.Some? then lib.argon2.value.hash(password) else HashPbkdf2(lib, password, salt)
  }

  function ParseInt(lib: Libraries, s: string): Option<int> {
    match ParseDecimal(s)
    case Some(n) => Some(n)
    case None => lib.otherInt(s)
  }

  function ParseBytes(lib: Libraries, s: string): Option<seq<byte>> {
    if Decode(s).Some? then Decode(s) else lib.otherDecode(s)
  }

  function VerifyPbkdf2(lib: Libraries, password: string, hash: string): Answer {
    var parts := Split(hash, '$');
    if |parts| != 4 || parts[0] != SCHEME then Is(false)
    else
      var iterations, salt, expected := ParseInt(lib, parts[1]), ParseBytes(lib, parts[2]), ParseBytes(lib, parts[3]);
      if iterations == None || salt == None || expected == None then Is(false)
      else if iterations.value < 1 then Raises // the derivation refuses such a count
      else Is(lib.kdf(password, salt.value, iterations.value) == expected.value)
  }

  predicate StartsWith(s: string, prefix: string) {
    |prefix| <= |s| && s[..|prefix|] == prefix
  }

  function VerifyPassword(lib: Libraries, password: string, hash: string): Answer {
    if StartsWith(hash, SCHEME + "$") then VerifyPbkdf2(lib, password, hash)
    else if lib.argon2.None? then Is(false)
    else
      match lib.argon2.value.verify(hash, password)
      case Verified(matches) => Is(matches)
      case VerifyMismatch => Is(false)
      case InvalidHash => Is(false)
      case OtherError => Raises
  }

  lemma SchemeHasNoDollar()
    ensures !Occurs('$', SCHEME)
  {
    if Occurs('$', SCHEME) {
      var i := OccursSomewhere('$', SCHEME);
    }
  }

  lemma {:induction false} OccursSomewhere(c: char, s: string) returns (i: nat)
    requires Occurs(c, s)
    ensures i < |s| && s[i] == c
  {
    i := |s| - 1;
    if s[i] != c {
      i := OccursSomewhere(c, s[..|s| - 1]);
    }
  }

  function Fields(iterations: nat, salt: seq<byte>, derived: seq<byte>): seq<string> {
    [SCHEME, Decimal(iterations), Encode(salt), Encode(derived)]
  }

  lemma JoinFour(a: string, b: string, c: string, d: string, sep: char)
    ensures Join([a, b, c, d], sep) == a + [sep] + b + [sep] + c + [sep] + d
  {
    assert [a, b, c, d][..3] == [a, b, c] && [a, b, c][..2] == [a, b] && [a, b][..1] == [a];
    assert Join([a, b], sep) == a + [sep] + b;
    assert Join([a, b, c], sep) == a + [sep] + b + [sep] + c;
  }

  lemma FreeOfSnoc(parts: seq<string>, x: string, sep: char)
    requires FreeOf(parts, sep) && !Occurs(sep, x)
    ensures FreeOf(parts + [x], sep)
  {
    hide Occurs;
    assert (parts + [x])[..|parts|] == parts;
  }

  lemma FourFree(a: string, b: string, c: string, d: string, sep: char)
    requires !Occurs(sep, a) && !Occurs(sep, b) && !Occurs(sep, c) && !Occurs(sep, d)
    ensures FreeOf([a, b, c, d], sep)
  {
    assert FreeOf([], sep);
    hide Occurs, FreeOf;
    var one, two, three := [a], [a, b], [a, b, c];
    FreeOfSnoc([], a, sep);
    assert [] + [a] == one;
    FreeOfSnoc(one, b, sep);
    assert one + [b] == two;
    FreeOfSnoc(two, c, sep);
    assert two + [c] == three;
    FreeOfSnoc(three, d, sep);
    assert three + [d] == [a, b, c, d];
  }

  /** A record splits into exactly its four fields. */
  lemma RecordSplits(iterations: nat, salt: seq<byte>, derived: seq<byte>)
    ensures Split(Record(iterations, salt, derived), '$') == Fields(iterations, salt, derived)
  {
    hide Occurs, FreeOf, Split, Join, Decimal, Encode;
    SchemeHasNoDollar();
    DecimalHas('$', iterations);
    EncodeAvoids('$', salt);
    EncodeAvoids('$', derived);
    FourFree(SCHEME, Decimal(iterations), Encode(salt), Encode(derived), '$');
    JoinFour(SCHEME, Decimal(iterations), Encode(salt), Encode(derived), '$');
    SplitOfJoin(Fields(iterations, salt, derived), '$');
  }

  /** Main result: a printed record reads back as what it was made of, field by
      field; so no two different records print alike. */
  lemma RecordRoundTrip(lib: Libraries, iterations: nat, salt: seq<byte>, derived: seq<byte>, parts: seq<string>)
    requires parts == Split(Record(iterations, salt, derived), '$')
    ensures |parts| == 4 && parts[0] == SCHEME
    ensures ParseInt(lib, parts[1]) == Some(iterations)
    ensures ParseBytes(lib, parts[2]) == Some(salt)
    ensures ParseBytes(lib, parts[3]) == Some(derived)
  {
    hide Split, Record, Decimal, Encode, Decode, ParseDecimal;
    RecordSplits(iterations, salt, derived);
    ParseOfDecimal(iterations);
    RoundTrip(salt);
    RoundTrip(derived);
  }

  lemma RecordIsRouted(iterations: nat, salt: seq<byte>, derived: seq<byte>)
    ensures StartsWith(Record(iterations, salt, derived), SCHEME + "$")
  {
  }

  /** Main result: a record made from one password accepts another exactly when
      the key derivation gives the same output for both. */
  lemma VerifyAccepts(lib: Libraries, made: string, tried: string, iterations: nat, salt: seq<byte>, hash: string)
    requires iterations >= 1 && hash == Record(iterations, salt, lib.kdf(made, salt, iterations))
    ensures VerifyPassword(lib, tried, hash) == Is(lib.kdf(tried, salt, iterations) == lib.kdf(made, salt, iterations))
  {
    hide Record, Split, ParseInt, ParseBytes, StartsWith;
    RecordRoundTrip(lib, iterations, salt, lib.kdf(made, salt, iterations), Split(hash, '$'));
    RecordIsRouted(iterations, salt, lib.kdf(made, salt, iterations));
  }

  /** In particular a new record accepts its own password, with or without the
      other library. */
  lemma NewRecordAccepts(lib: Libraries, password: string, tried: string, salt: seq<byte>)
    ensures VerifyPassword(lib, password, HashPbkdf2(lib, password, salt)) == Is(true)
    ensures VerifyPassword(lib, tried, HashPbkdf2(lib, password, salt)) ==
            Is(lib.kdf(tried, salt, 390000) == lib.kdf(password, salt, 390000))
  {
    hide Record, VerifyPassword;
    VerifyAccepts(lib, password, password, ITERATIONS, salt, HashPbkdf2(lib, password, salt));
    VerifyAccepts(lib, password, tried, ITERATIONS, salt, HashPbkdf2(lib, password, salt));
  }

  /** The record as it stands in the database. */
  lemma NewRecordText(lib: Libraries, password: string, salt: seq<byte>)
    ensures HashPbkdf2(lib, password, salt) ==
            "pbkdf2_sha256$390000$" + Encode(salt) + "$" + Encode(lib.kdf(password, salt, 390000))
  {
    hide Encode;
    assert Decimal(390000) == "390000" by {
      assert Decimal(39) == "39" && Decimal(390) == "390" && Decimal(3900) == "3900" && Decimal(39000) == "39000";
    }
    assert "pbkdf2_sha256" + "$" + "390000" + "$" == "pbkdf2_sha256$390000$";
  }

  /** Main result: a hash that does not begin with the scheme is the other
      library's to judge, and is refused when that is not installed; two of its
      errors mean no, and any other is raised. */
  lemma OtherSchemeVerdict(lib: Libraries, password: string, hash: string)
    requires !("pbkdf2_sha256$" <= hash)
    ensures VerifyPassword(lib, password, hash) == Is(true) <==>
            lib.argon2.Some? && lib.argon2.value.verify(hash, password) == Verified(true)
    ensures VerifyPassword(lib, password, hash) == Raises <==>
            lib.argon2.Some? && lib.argon2.value.verify(hash, password) == OtherError
    ensures lib.argon2.None? ==> VerifyPassword(lib, password, hash) == Is(false)
  {
    assert SCHEME + "$" == "pbkdf2_sha256$";
    assert !StartsWith(hash, "pbkdf2_sha256$");
  }

  /** So what a password is hashed to verifies by whichever library hashed it. */
  lemma HashThenVerify(lib: Libraries, password: string, tried: string, salt: seq<byte>)
    requires lib.argon2.Some? ==> !("pbkdf2_sha256$" <= lib.argon2.value.hash(password))
    ensures VerifyPassword(lib, tried, HashPassword(lib, password, salt)) == Is(true) <==>
            if lib.argon2.Some?
            then lib.argon2.value.verify(lib.argon2.value.hash(password), tried) == Verified(true)
            else lib.kdf(tried, salt, 390000) == lib.kdf(password, salt, 390000)
  {
    hide VerifyPassword, HashPbkdf2;
    if lib.argon2.Some? {
      OtherSchemeVerdict(lib, tried, lib.argon2.value.hash(password));
    } else {
      NewRecordAccepts(lib, password, tried, salt);
    }
  }

  /** The count, as int() reads it. */
  predicate Counts(lib: Libraries, field: string, n: int) {
    if ParseDecimal(field).Some? then n == ParseDecimal(field).value else lib.otherInt(field) == Some(n)
  }

  /** The bytes, as the decoder reads them. */
  predicate Carries(lib: Libraries, field: string, bytes: seq<byte>) {
    if Decode(field).Some? then bytes == Decode(field).value else lib.otherDecode(field) == Some(bytes)
  }

  /** Main result: any text of this scheme is accepted exactly when it has four
      fields and the last is the derivation from the salt and a positive count in
      the other two; the derivation's refusal of a count below one is let
      through, and everything else is refused. */
  lemma SchemeVerdict(lib: Libraries, password: string, hash: string, f: seq<string>, n: int, salt: seq<byte>)
    requires "pbkdf2_sha256$" <= hash && f == Split(hash, '$')
    ensures |f| != 4 ==> VerifyPassword(lib, password, hash) == Is(false)
    ensures |f| == 4 && Counts(lib, f[1], n) && Carries(lib, f[2], salt) && n >= 1 ==>
              (VerifyPassword(lib, password, hash) == Is(true) <==> Carries(lib, f[3], lib.kdf(password, salt, n)))
              && !VerifyPassword(lib, password, hash).Raises?
    ensures |f| == 4 && Counts(lib, f[1], n) && n < 1 ==>
              (VerifyPassword(lib, password, hash) == Raises <==>
               (exists b :: Carries(lib, f[2], b)) && (exists b :: Carries(lib, f[3], b)))
              && VerifyPassword(lib, password, hash) != Is(true)
    ensures |f| == 4 && ((forall m :: !Counts(lib, f[1], m)) || (forall b :: !Carries(lib, f[2], b))) ==>
              VerifyPassword(lib, password, hash) == Is(false)
  {
    assert SCHEME + "$" == "pbkdf2_sha256$";
    assert StartsWith(hash, SCHEME + "$");
    FirstField(hash);
    hide Split, StartsWith, Decode, ParseDecimal;
    if |f| == 4 {
      CountsIsParse(lib, f[1], n);
      CarriesIsParse(lib, f[2], salt);
      CarriesIsParse(lib, f[3], lib.kdf(password, salt, n));
      if ParseInt(lib, f[1]).Some? {
        CountsIsParse(lib, f[1], ParseInt(lib, f[1]).value);
      }
      if ParseBytes(lib, f[2]).Some? {
        CarriesIsParse(lib, f[2], ParseBytes(lib, f[2]).value);
      }
      if ParseBytes(lib, f[3]).Some? {
        CarriesIsParse(lib, f[3], ParseBytes(lib, f[3]).value);
      }
      forall b ensures Carries(lib, f[2], b) ==> ParseBytes(lib, f[2]) == Some(b) {
        CarriesIsParse(lib, f[2], b);
      }
      forall b ensures Carries(lib, f[3], b) ==> ParseBytes(lib, f[3]) == Some(b) {
        CarriesIsParse(lib, f[3], b);
      }
      hide Counts, Carries, ParseInt, ParseBytes;
    }
  }

  lemma CountsIsParse(lib: Libraries, field: string, n: int)
    ensures Counts(lib, field, n) <==> ParseInt(lib, field) == Some(n)
  {
  }

  lemma CarriesIsParse(lib: Libraries, field: string, bytes: seq<byte>)
    ensures Carries(lib, field, bytes) <==> ParseBytes(lib, field) == Some(bytes)
  {
    hide Decode;
  }

  /** What begins with the scheme and a dollar sign has it as its first field. */
  lemma FirstField(hash: string)
    requires StartsWith(hash, SCHEME + "$")
    ensures Split(hash, '$')[0] == SCHEME
  {
    var rest := hash[|SCHEME| + 1..];
    assert hash == SCHEME + ['$'] + rest;
    hide Split, Occurs, StartsWith;
    SchemeHasNoDollar();
    FirstPart(SCHEME, rest, '$');
  }

  lemma {:induction false} FirstPart(a: string, rest: string, sep: char)
    requires !Occurs(sep, a)
    ensures |Split(a + [sep] + rest, sep)| >= 2 && Split(a + [sep] + rest, sep)[0] == a
  {
    hide Occurs, Split;
    if rest == "" {
      assert a + [sep] + rest == a + [sep];
      SplitSnoc(a, sep, sep);
      SplitExtends("", a, sep);
      assert "" + a == a;
      assert Split("", sep) == [""] by { SplitNothing(sep); }
    } else {
      var init, c := rest[..|rest| - 1], rest[|rest| - 1];
      FirstPart(a, init, sep);
      assert a + [sep] + rest == (a + [sep] + init) + [c];
      SplitSnoc(a + [sep] + init, c, sep);
    }
  }

  lemma SplitNothing(sep: char)
    ensures Split("", sep) == [""]
  {
  }
}
