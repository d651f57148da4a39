/** Unpadded base64url: the encoding of sections 4 and 5 of RFC 4648 with its
    trailing padding stripped, as section 3.2 allows, and restored on reading. */
module Base64Url {
  import opened Wrappers
  import opened Text

  type byte = b: int | 0 <= b < 256

  type sextet = v: int | 0 <= v < 64

  predicate InAlphabet(c: char) {
    'A' <= c <= 'Z' || 'a' <= c <= 'z' || '0' <= c <= '9' || c == '-' || c == '_'
  }

  function CharOf(v: sextet): (c: char)
    ensures InAlphabet(c)
  {
    if v < 26 then ('A' as int + v) as char
    else if v < 52 then ('a' as int + v - 26) as char
    else if v < 62 then ('0' as int + v - 52) as char
    else if v == 62 then '-'
    else '_'
  }

  function ValueOf(c: char): sextet
    requires InAlphabet(c)
  {
    if 'A' <= c <= 'Z' then c as int - 'A' as int
    else if 'a' <= c <= 'z' then c as int - 'a' as int + 26
    else if '0' <= c <= '9' then c as int - '0' as int + 52
    else if c == '-' then 62
    else 63
  }

  lemma ValueOfCharOf(v: sextet)
    ensures ValueOf(CharOf(v)) == v
  {
  }

  const UPPER := "ABCDEFGHIJKLMNOPQRSTUVWXYZ"
  const LOWER := "abcdefghijklmnopqrstuvwxyz"
  const DIGITS := "0123456789"

  /** Table 2 of section 5 of RFC 4648 */
  const ALPHABET := UPPER + LOWER + DIGITS + "-_"

  lemma UpperAt(n: nat)
    requires n < 26
    ensures |UPPER| == 26 && UPPER[n] as int == 'A' as int + n
  {
  }

  lemma LowerAt(n: nat)
    requires n < 26
    ensures |LOWER| == 26 && LOWER[n] as int == 'a' as int + n
  {
  }

  lemma DigitAt(n: nat)
    requires n < 10
    ensures |DIGITS| == 10 && DIGITS[n] as int == '0' as int + n
  {
  }

  lemma CharsAreTheAlphabet(v: sextet)
    ensures |ALPHABET| == 64 && CharOf(v) == ALPHABET[v]
  {
    UpperAt(if v < 26 then v else 0);
    LowerAt(if 26 <= v < 52 then v - 26 else 0);
    DigitAt(if 52 <= v < 62 then v - 52 else 0);
    hide UPPER, LOWER, DIGITS;
    if 26 <= v < 52 {
      assert ALPHABET[v] == LOWER[v - 26];
    } else if 52 <= v < 62 {
      assert ALPHABET[v] == DIGITS[v - 52];
    }
  }

  // ----- with padding -----

  function Quad(a: byte, b: byte, c: byte): (q: string)
    ensures |q| == 4
  {
    [CharOf(a / 4), CharOf(a % 4 * 16 + b / 16), CharOf(b % 16 * 4 + c / 64), CharOf(c % 64)]
  }

  /** base64.urlsafe_b64encode */
  function EncodePadded(bs: seq<byte>): string {
    if bs == [] then ""
    else if |bs| == 1 then Quad(bs[0], 0, 0)[..2] + "=="
    else if |bs| == 2 then Quad(bs[0], bs[1], 0)[..3] + "="
    else Quad(bs[0], bs[1], bs[2]) + EncodePadded(bs[3..])
  }

  /** The bytes of one group of four characters of the alphabet. */
  function Triple(q: string): seq<byte>
    requires |q| == 4 && forall i :: 0 <= i < 4 ==> InAlphabet(q[i])
  {
    var v0, v1, v2, v3 := ValueOf(q[0]), ValueOf(q[1]), ValueOf(q[2]), ValueOf(q[3]);
    [v0 * 4 + v1 / 16, v1 % 16 * 16 + v2 / 4, v2 % 4 * 64 + v3]
  }

  /** base64.urlsafe_b64decode on text of the form that section 4 of RFC 4648
      gives; None on any other text. */
  function DecodePadded(s: string): Option<seq<byte>> {
    if s == "" then Some([])
    else if |s| < 4 || !InAlphabet(s[0]) || !InAlphabet(s[1]) then None
    else if s[2..] == "==" then Some(Triple(s[..2] + "AA")[..1])
    else if !InAlphabet(s[2]) then None
    else if s[3..] == "=" then Some(Triple(s[..3] + "A")[..2])
    else if !InAlphabet(s[3]) then None
    else
      match DecodePadded(s[4..])
      case None => None
      case Some(rest) => Some(Triple(s[..4]) + rest)
  }

  /** Four sextets carry three bytes. */
  lemma SextetsCarryBytes(a: byte, b: byte, c: byte, v1: int, v2: int)
    requires v1 == a % 4 * 16 + b / 16 && v2 == b % 16 * 4 + c / 64
    ensures v1 / 16 == a % 4 && v1 % 16 == b / 16
    ensures v2 / 4 == b % 16 && v2 % 4 == c / 64
    ensures a / 4 * 4 + v1 / 16 == a && v1 % 16 * 16 + v2 / 4 == b && v2 % 4 * 64 + c % 64 == c
  {
  }

  /** The four characters spell, in base 64, the number that the three bytes
      spell in base 256. */
  lemma QuadSpellsBytes(a: byte, b: byte, c: byte, v0: sextet, v1: sextet, v2: sextet, v3: sextet)
    requires ((v0 * 64 + v1) * 64 + v2) * 64 + v3 == (a * 256 + b) * 256 + c
    ensures |ALPHABET| == 64 && Quad(a, b, c) == [ALPHABET[v0], ALPHABET[v1], ALPHABET[v2], ALPHABET[v3]]
  {
    SextetsOfBytes(a, b, c, v0, v1, v2, v3);
    CharsAreTheAlphabet(v0);
    CharsAreTheAlphabet(v1);
    CharsAreTheAlphabet(v2);
    CharsAreTheAlphabet(v3);
    hide CharOf, ALPHABET;
  }

  /** Read back, any four characters spell the same number in three bytes. */
  lemma TripleSpellsQuad(q: string, a: int, b: int, c: int, v0: int, v1: int, v2: int, v3: int)
    requires |q| == 4 && (forall i :: 0 <= i < 4 ==> InAlphabet(q[i])) && Triple(q) == [a, b, c]
    requires v0 == ValueOf(q[0]) && v1 == ValueOf(q[1]) && v2 == ValueOf(q[2]) && v3 == ValueOf(q[3])
    ensures (a * 256 + b) * 256 + c == ((v0 * 64 + v1) * 64 + v2) * 64 + v3
  {
    hide ValueOf, InAlphabet;
  }

  lemma SextetsOfBytes(a: byte, b: byte, c: byte, v0: sextet, v1: sextet, v2: sextet, v3: sextet)
    requires ((v0 * 64 + v1) * 64 + v2) * 64 + v3 == (a * 256 + b) * 256 + c
    ensures v0 == a / 4 && v1 == a % 4 * 16 + b / 16 && v2 == b % 16 * 4 + c / 64 && v3 == c % 64
  {
  }

  lemma TripleOfQuad(a: byte, b: byte, c: byte)
    ensures Triple(Quad(a, b, c)) == [a, b, c]
  {
    var v1, v2 := a % 4 * 16 + b / 16, b % 16 * 4 + c / 64;
    SextetsCarryBytes(a, b, c, v1, v2);
    ValueOfCharOf(a / 4);
    ValueOfCharOf(v1);
    ValueOfCharOf(v2);
    ValueOfCharOf(c % 64);
    hide CharOf, ValueOf, InAlphabet;
    assert Quad(a, b, c) == [CharOf(a / 4), CharOf(v1), CharOf(v2), CharOf(c % 64)];
  }

  /** A short last group is a full one whose zero bytes are left out. */
  lemma ShortQuads(a: byte, b: byte)
    ensures Quad(a, 0, 0) == Quad(a, 0, 0)[..2] + "AA"
    ensures Quad(a, b, 0) == Quad(a, b, 0)[..3] + "A"
  {
    assert CharOf(0) == 'A';
    hide CharOf, InAlphabet;
    assert Quad(a, 0, 0)[2] == CharOf(0) && Quad(a, 0, 0)[3] == CharOf(0) && Quad(a, b, 0)[3] == CharOf(0);
  }

  lemma DecodeOne(a: byte)
    ensures DecodePadded(Quad(a, 0, 0)[..2] + "==") == Some([a])
  {
    var q := Quad(a, 0, 0);
    var s := q[..2] + "==";
    ShortQuads(a, 0);
    TripleOfQuad(a, 0, 0);
    hide CharOf, ValueOf, Triple, Quad;
    assert s[..2] == q[..2] && s[2..] == "==";
    assert InAlphabet(s[0]) && InAlphabet(s[1]) by { QuadInAlphabet(a, 0, 0); }
    assert [a, 0, 0][..1] == [a];
  }

  lemma DecodeTwo(a: byte, b: byte)
    ensures DecodePadded(Quad(a, b, 0)[..3] + "=") == Some([a, b])
  {
    var q := Quad(a, b, 0);
    var s := q[..3] + "=";
    ShortQuads(a, b);
    TripleOfQuad(a, b, 0);
    QuadInAlphabet(a, b, 0);
    hide CharOf, ValueOf, Triple, Quad;
    assert s[..3] == q[..3] && s[3..] == "=";
    assert s[2..][0] == q[2];
    assert [a, b, 0][..2] == [a, b];
  }

  lemma DecodeGroup(a: byte, b: byte, c: byte, rest: string)
    ensures DecodePadded(Quad(a, b, c) + rest) ==
            match DecodePadded(rest) case None => None case Some(bs) => Some([a, b, c] + bs)
  {
    var q := Quad(a, b, c);
    var s := q + rest;
    TripleOfQuad(a, b, c);
    QuadInAlphabet(a, b, c);
    hide CharOf, ValueOf, Triple, Quad;
    assert s[..4] == q && s[4..] == rest;
    assert s[2..][0] == q[2] && s[3..][0] == q[3];
  }

  lemma QuadInAlphabet(a: byte, b: byte, c: byte)
    ensures forall i :: 0 <= i < 4 ==> InAlphabet(Quad(a, b, c)[i])
  {
    hide InAlphabet, CharOf;
  }

  lemma {:induction false} DecodeOfEncodePadded(bs: seq<byte>)
    ensures DecodePadded(EncodePadded(bs)) == Some(bs)
    decreases |bs|
  {
    hide Quad, DecodePadded;
    if bs == [] {
      DecodeNothing();
    } else if |bs| == 1 {
      DecodeOne(bs[0]);
      assert bs == [bs[0]];
    } else if |bs| == 2 {
      DecodeTwo(bs[0], bs[1]);
      assert bs == [bs[0], bs[1]];
    } else {
      DecodeGroup(bs[0], bs[1], bs[2], EncodePadded(bs[3..]));
      DecodeOfEncodePadded(bs[3..]);
      assert bs == [bs[0], bs[1], bs[2]] + bs[3..];
    }
  }

  lemma DecodeNothing()
    ensures DecodePadded("") == Some([])
  {
  }

  // ----- without padding -----

  /** rstrip("=") */
  function StripPadding(s: string): string {
    if s != "" && s[|s| - 1] == '=' then StripPadding(s[..|s| - 1]) else s
  }

  function Padding(n: nat): string {
    if n == 0 then "" else Padding(n - 1) + "="
  }

  function Encode(bs: seq<byte>): string {
    StripPadding(EncodePadded(bs))
  }

  /** Python's -len(value) % 4, which is never negative, says how much to pad. */
  function Decode(value: string): Option<seq<byte>> {
    DecodePadded(value + Padding(-|value| % 4))
  }

  lemma {:induction false} StripPaddingOf(body: string, n: nat)
    requires body != "" ==> body[|body| - 1] != '='
    ensures StripPadding(body + Padding(n)) == body
    ensures |Padding(n)| == n
  {
    if n == 0 {
      assert body + "" == body;
    } else {
      StripPaddingOf(body, n - 1);
      assert (body + Padding(n))[..|body| + n - 1] == body + Padding(n - 1);
    }
  }

  /** The characters of the encoding, padding aside. */
  function Body(bs: seq<byte>): string {
    if bs == [] then ""
    else if |bs| == 1 then Quad(bs[0], 0, 0)[..2]
    else if |bs| == 2 then Quad(bs[0], bs[1], 0)[..3]
    else Quad(bs[0], bs[1], bs[2]) + Body(bs[3..])
  }

  predicate AllInAlphabet(s: string) {
    s != "" ==> InAlphabet(s[|s| - 1]) && AllInAlphabet(s[..|s| - 1])
  }

  lemma {:induction false} AllInAlphabetConcat(s: string, t: string)
    requires AllInAlphabet(s) && AllInAlphabet(t)
    ensures AllInAlphabet(s + t)
  {
    hide InAlphabet;
    if t == "" {
      assert s + t == s;
    } else {
      AllInAlphabetConcat(s, t[..|t| - 1]);
      assert (s + t)[..|s + t| - 1] == s + t[..|t| - 1];
    }
  }

  lemma {:induction false} PrefixInAlphabet(q: string, n: nat)
    requires n <= |q| && forall i :: 0 <= i < |q| ==> InAlphabet(q[i])
    ensures AllInAlphabet(q[..n])
  {
    hide InAlphabet;
    if n > 0 {
      PrefixInAlphabet(q, n - 1);
      assert q[..n][..n - 1] == q[..n - 1];
    }
  }

  lemma {:induction false} BodyInAlphabet(bs: seq<byte>)
    ensures AllInAlphabet(Body(bs))
    ensures |Body(bs)| == (4 * |bs| + 2) / 3
    decreases |bs|
  {
    hide InAlphabet, AllInAlphabet, CharOf;
    if bs == [] {
      PrefixInAlphabet("", 0);
    } else {
      var b, c := if |bs| >= 2 then bs[1] else 0, if |bs| >= 3 then bs[2] else 0;
      var q := Quad(bs[0], b, c);
      QuadInAlphabet(bs[0], b, c);
      PrefixInAlphabet(q, 2);
      PrefixInAlphabet(q, 3);
      PrefixInAlphabet(q, 4);
      assert q[..4] == q;
      if |bs| >= 3 {
        BodyInAlphabet(bs[3..]);
        AllInAlphabetConcat(q, Body(bs[3..]));
      }
    }
  }

  /** The padding that a length calls for. */
  function Pads(n: nat): nat {
    if n % 3 == 0 then 0 else 3 - n % 3
  }

  lemma {:induction false} PaddedIsBody(bs: seq<byte>)
    ensures EncodePadded(bs) == Body(bs) + Padding(Pads(|bs|))
    decreases |bs|
  {
    hide Quad;
    if |bs| == 0 {
      assert "" + Padding(0) == "";
    } else if |bs| == 1 {
      assert Padding(1) == "=" && Padding(2) == "==";
    } else if |bs| == 2 {
      assert Padding(0) + "=" == "=";
      assert Padding(1) == "=";
    } else {
      PaddedIsBody(bs[3..]);
      var q := Quad(bs[0], bs[1], bs[2]);
      assert Pads(|bs| - 3) == Pads(|bs|);
      hide Pads, Padding;
      assert q + (Body(bs[3..]) + Padding(Pads(|bs| - 3))) == (q + Body(bs[3..])) + Padding(Pads(|bs|));
    }
  }

  lemma EncodeIsBody(bs: seq<byte>)
    ensures Encode(bs) == Body(bs)
  {
    hide EncodePadded, Body;
    PaddedIsBody(bs);
    BodyInAlphabet(bs);
    StripPaddingOf(Body(bs), Pads(|bs|));
  }

  /** Main result: -len % 4 restores exactly the padding that was stripped. */
  lemma PaddingIsRestored(bs: seq<byte>)
    ensures Encode(bs) + Padding(-|Encode(bs)| % 4) == EncodePadded(bs)
    ensures |Encode(bs)| == (4 * |bs| + 2) / 3
  {
    hide Encode, EncodePadded, Body, Padding, AllInAlphabet;
    EncodeIsBody(bs);
    PaddedIsBody(bs);
    BodyInAlphabet(bs);
    PadsByLength(|bs|);
  }

  lemma PadsByLength(n: nat)
    ensures -((4 * n + 2) / 3) % 4 == Pads(n)
  {
    var q, r := n / 3, n % 3;
    assert n == 3 * q + r;
    assert (4 * n + 2) / 3 == 4 * q + (4 * r + 2) / 3;
  }

  /** Main result: decoding undoes encoding, for every byte string; so distinct
      byte strings have distinct encodings. */
  lemma RoundTrip(bs: seq<byte>)
    ensures Decode(Encode(bs)) == Some(bs)
  {
    hide Encode, EncodePadded, DecodePadded, Padding;
    PaddingIsRestored(bs);
    DecodeOfEncodePadded(bs);
  }

  lemma {:induction false} OutsideAlphabet(c: char, s: string)
    requires AllInAlphabet(s) && !InAlphabet(c)
    ensures !Occurs(c, s)
  {
    hide InAlphabet;
    if s != "" {
      OutsideAlphabet(c, s[..|s| - 1]);
    }
  }

  /** An encoding has no character outside the alphabet. */
  lemma EncodeAvoids(c: char, bs: seq<byte>)
    requires !InAlphabet(c)
    ensures !Occurs(c, Encode(bs))
  {
    hide Encode, Body, InAlphabet;
    EncodeIsBody(bs);
    BodyInAlphabet(bs);
    OutsideAlphabet(c, Body(bs));
  }

  // ----- which texts decode -----

  /** Characters of the alphabet, then at most two of padding, in fours. */
  predicate WellPadded(s: string) {
    |s| % 4 == 0 && |s| <= |StripPadding(s)| + 2 && AllInAlphabet(StripPadding(s))
  }

  lemma {:induction false} StripOfConcat(q: string, s: string)
    ensures StripPadding(s) != "" ==> StripPadding(q + s) == q + StripPadding(s)
    ensures StripPadding(s) == "" ==> |StripPadding(q + s)| <= |q|
  {
    if s == "" {
      assert q + s == q;
      StripIsShorter(q);
    } else if s[|s| - 1] == '=' {
      assert (q + s)[..|q + s| - 1] == q + s[..|s| - 1];
      StripOfConcat(q, s[..|s| - 1]);
    }
  }

  lemma {:induction false} StripIsShorter(s: string)
    ensures |StripPadding(s)| <= |s|
  {
    if s != "" && s[|s| - 1] == '=' {
      StripIsShorter(s[..|s| - 1]);
    }
  }

  lemma {:induction false} InAlphabetParts(s: string, t: string)
    ensures AllInAlphabet(s + t) <==> AllInAlphabet(s) && AllInAlphabet(t)
  {
    hide InAlphabet;
    if t == "" {
      assert s + t == s;
    } else {
      InAlphabetParts(s, t[..|t| - 1]);
      assert (s + t)[..|s + t| - 1] == s + t[..|t| - 1];
    }
  }

  lemma FourInAlphabet(q: string)
    requires |q| == 4
    ensures AllInAlphabet(q[..2]) <==> InAlphabet(q[0]) && InAlphabet(q[1])
    ensures AllInAlphabet(q[..3]) <==> AllInAlphabet(q[..2]) && InAlphabet(q[2])
    ensures AllInAlphabet(q) <==> AllInAlphabet(q[..3]) && InAlphabet(q[3])
  {
    hide InAlphabet;
    assert q[..1][..0] == "" && q[..2][..1] == q[..1] && q[..3][..2] == q[..2];
    assert AllInAlphabet(q[..1]) <==> InAlphabet(q[0]);
  }

  /** The last group: two, three or four characters and the rest padding. */
  lemma LastGroup(s: string)
    requires |s| == 4
    ensures DecodePadded(s).Some? <==> WellPadded(s)
  {
    FourInAlphabet(s);
    StripFour(s);
    hide CharOf, ValueOf, Triple, AllInAlphabet, StripPadding;
    assert s[4..] == "";
    assert s[2..] == "==" <==> s[2] == '=' && s[3] == '=';
    assert s[3..] == "=" <==> s[3] == '=';
  }

  lemma StripFour(s: string)
    requires |s| == 4
    ensures s[3] != '=' ==> StripPadding(s) == s
    ensures s[3] == '=' && s[2] != '=' ==> StripPadding(s) == s[..3]
    ensures s[3] == '=' && s[2] == '=' && s[1] != '=' ==> StripPadding(s) == s[..2]
    ensures s[3] == '=' && s[2] == '=' && s[1] == '=' ==> |StripPadding(s)| < 2
  {
    assert s[..3][..2] == s[..2] && s[..2][..1] == s[..1];
    StripIsShorter(s[..1]);
    assert s[3] == '=' ==> StripPadding(s) == StripPadding(s[..3]);
    assert s[2] == '=' ==> StripPadding(s[..3]) == StripPadding(s[..2]);
    assert s[1] == '=' ==> StripPadding(s[..2]) == StripPadding(s[..1]);
  }

  /** Any other group: four characters. */
  lemma GroupDecodes(q: string, rest: string)
    requires |q| == 4 && rest != ""
    ensures DecodePadded(q + rest).Some? <==> AllInAlphabet(q) && DecodePadded(rest).Some?
  {
    var s := q + rest;
    FourInAlphabet(q);
    hide CharOf, ValueOf, Triple, AllInAlphabet, InAlphabet;
    assert s[4..] == rest && s[..4] == q && |s[3..]| > 1 && |s[2..]| > 2;
  }

  lemma GroupIsPadded(q: string, rest: string)
    requires |q| == 4 && rest != ""
    ensures WellPadded(q + rest) <==> AllInAlphabet(q) && WellPadded(rest)
  {
    hide AllInAlphabet, StripPadding;
    StripOfConcat(q, rest);
    StripIsShorter(rest);
    InAlphabetParts(q, StripPadding(rest));
  }

  /** Main result: exactly the well-padded texts decode. */
  lemma {:induction false} DecodesExactly(s: string)
    ensures DecodePadded(s).Some? <==> WellPadded(s)
    decreases |s|
  {
    hide DecodePadded, WellPadded;
    if |s| > 4 {
      assert s == s[..4] + s[4..];
      GroupDecodes(s[..4], s[4..]);
      GroupIsPadded(s[..4], s[4..]);
      DecodesExactly(s[4..]);
    } else if |s| == 4 {
      LastGroup(s);
    } else {
      ShortTexts(s);
    }
  }

  lemma ShortTexts(s: string)
    requires |s| < 4
    ensures DecodePadded(s).Some? <==> s == ""
    ensures WellPadded(s) <==> s == ""
  {
  }
}
