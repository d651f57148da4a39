/** Printing numbers in decimal, and splitting and joining text on a character. */
module Text {
  import opened Wrappers

  // ----- decimal numbers -----

  predicate IsDigit(c: char) {
    '0' <= c <= '9'
  }

  function DigitChar(d: nat): (c: char)
    requires d < 10
    ensures IsDigit(c)
  {
    ('0' as int + d) as char
  }

  lemma DigitCharIs(d: nat)
    requires d < 10
    ensures DigitChar(d) == "0123456789"[d]
  {
  }

  function DigitValue(c: char): (d: nat)
    requires IsDigit(c)
    ensures d < 10
  {
    c as int - '0' as int
  }

  function Decimal(n: nat): string {
    if n < 10 then [DigitChar(n)] else Decimal(n / 10) + [DigitChar(n % 10)]
  }

  /** The number that a non-empty run of digits denotes. */
  function ParseDecimal(s: string): Option<nat> {
    if s == "" || !IsDigit(s[|s| - 1]) then None
    else if |s| == 1 then Some(DigitValue(s[0]))
    else
      match ParseDecimal(s[..|s| - 1])
      case None => None
      case Some(v) => Some(10 * v + DigitValue(s[|s| - 1]))
  }

  lemma {:induction false} ParseOfDecimal(n: nat)
    ensures ParseDecimal(Decimal(n)) == Some(n)
    ensures Decimal(n) != ""
  {
    if n >= 10 {
      ParseOfDecimal(n / 10);
      assert Decimal(n)[..|Decimal(n)| - 1] == Decimal(n / 10);
    }
  }

  /** Python's str() of an int. */
  function Integer(n: int): string {
    if n < 0 then "-" + Decimal(-n) else Decimal(n)
  }

  // ----- occurrence -----

  predicate Occurs(c: char, s: string) {
    s != "" && (s[|s| - 1] == c || Occurs(c, s[..|s| - 1]))
  }

  lemma {:induction false} OccursConcat(c: char, s: string, t: string)
    ensures Occurs(c, s + t) <==> Occurs(c, s) || Occurs(c, t)
  {
    if t == "" {
      assert s + t == s;
    } else {
      OccursConcat(c, s, t[..|t| - 1]);
      assert (s + t)[..|s + t| - 1] == s + t[..|t| - 1];
    }
  }

  lemma {:induction false} OccursAt(c: char, s: string, i: nat)
    requires i < |s| && s[i] == c
    ensures Occurs(c, s)
  {
    if i < |s| - 1 {
      OccursAt(c, s[..|s| - 1], i);
    }
  }

  lemma {:induction false} DecimalHas(c: char, n: nat)
    requires !IsDigit(c)
    ensures !Occurs(c, Decimal(n))
  {
    if n >= 10 {
      DecimalHas(c, n / 10);
      assert Decimal(n)[..|Decimal(n)| - 1] == Decimal(n / 10);
    }
  }

  lemma IntegerHas(c: char, n: int)
    requires !IsDigit(c) && c != '-'
    ensures !Occurs(c, Integer(n))
  {
    DecimalHas(c, if n < 0 then -n else n);
    OccursConcat(c, "-", Decimal(if n < 0 then -n else n));
  }

  lemma IntegersAreDistinct(n: int, m: int)
    requires Integer(n) == Integer(m)
    ensures n == m
  {
    var a, b := if n < 0 then -n else n, if m < 0 then -m else m;
    ParseOfDecimal(a);
    ParseOfDecimal(b);
    DecimalHas('-', a);
    DecimalHas('-', b);
    if n < 0 {
      assert Integer(n)[1..] == Decimal(a);
      OccursAt('-', Integer(n), 0);
    }
    if m < 0 {
      assert Integer(m)[1..] == Decimal(b);
      OccursAt('-', Integer(m), 0);
    }
  }

  /** Text up to the first occurrence of a character is determined. */
  lemma FirstOccurrence(c: char, a: string, b: string, x: string, y: string)
    requires !Occurs(c, a) && !Occurs(c, b)
    requires a + [c] + x == b + [c] + y
    ensures a == b && x == y
  {
    var s := a + [c] + x;
    if |a| < |b| {
      assert s[|a|] == c && (b + [c] + y)[|a|] == b[|a|];
      OccursAt(c, b, |a|);
    } else if |b| < |a| {
      assert (b + [c] + y)[|b|] == c && s[|b|] == a[|b|];
      OccursAt(c, a, |b|);
    } else {
      assert a == s[..|a|] && b == (b + [c] + y)[..|b|];
      assert x == s[|a| + 1..] && y == (b + [c] + y)[|b| + 1..];
    }
  }

  // ----- splitting and joining -----

  /** Text appended to the last part. */
  function Extend(parts: seq<string>, t: string): (r: seq<string>)
    requires parts != []
    ensures r != []
  {
    parts[..|parts| - 1] + [parts[|parts| - 1] + t]
  }

  lemma ExtendTwice(parts: seq<string>, a: string, b: string)
    requires parts != []
    ensures Extend(Extend(parts, a), b) == Extend(parts, a + b)
    ensures Extend(parts, "") == parts
  {
    var p := parts[|parts| - 1];
    assert p + a + b == p + (a + b);
    assert p + "" == p;
  }

  /** Python's str.split with a one-character separator. */
  function Split(s: string, sep: char): (parts: seq<string>)
    ensures parts != []
  {
    if s == "" then [""]
    else
      var parts, c := Split(s[..|s| - 1], sep), s[|s| - 1];
      if c == sep then parts + [""] else Extend(parts, [c])
  }

  function Join(parts: seq<string>, sep: char): string {
    if parts == [] then ""
    else if |parts| == 1 then parts[0]
    else Join(parts[..|parts| - 1], sep) + [sep] + parts[|parts| - 1]
  }

  predicate FreeOf(parts: seq<string>, sep: char) {
    parts != [] ==> !Occurs(sep, parts[|parts| - 1]) && FreeOf(parts[..|parts| - 1], sep)
  }

  lemma SplitSnoc(s: string, c: char, sep: char)
    ensures Split(s + [c], sep) ==
            if c == sep then Split(s, sep) + [""] else Extend(Split(s, sep), [c])
  {
    assert (s + [c])[..|s|] == s;
  }

  /** Appending separator-free text only extends the last part. */
  lemma {:induction false} SplitExtends(s: string, t: string, sep: char)
    requires !Occurs(sep, t)
    ensures Split(s + t, sep) == Extend(Split(s, sep), t)
  {
    hide Split, Extend;
    if t == "" {
      assert s + t == s;
      ExtendTwice(Split(s, sep), "", "");
    } else {
      var init, c := t[..|t| - 1], t[|t| - 1];
      SplitExtends(s, init, sep);
      assert s + t == (s + init) + [c];
      SplitSnoc(s + init, c, sep);
      ExtendTwice(Split(s, sep), init, [c]);
      assert init + [c] == t;
    }
  }

  lemma {:induction false} SplitOfJoin(parts: seq<string>, sep: char)
    requires parts != [] && FreeOf(parts, sep)
    ensures Split(Join(parts, sep), sep) == parts
  {
    var init, last := parts[..|parts| - 1], parts[|parts| - 1];
    if init == [] {
      SplitExtends("", last, sep);
      assert "" + last == last;
    } else {
      SplitOfJoin(init, sep);
      assert "" + last == last;
      SplitSnoc(Join(init, sep), sep, sep);
      SplitExtends(Join(init, sep) + [sep], last, sep);
    }
  }

  lemma {:induction false} SplitIsFree(s: string, sep: char)
    ensures FreeOf(Split(s, sep), sep)
  {
    if s != "" {
      var parts, c := Split(s[..|s| - 1], sep), s[|s| - 1];
      SplitIsFree(s[..|s| - 1], sep);
      if c == sep {
        assert (parts + [""])[..|parts|] == parts;
      } else {
        var p := parts[|parts| - 1];
        assert (parts[..|parts| - 1] + [p + [c]])[..|parts| - 1] == parts[..|parts| - 1];
        assert (p + [c])[..|p|] == p;
      }
    }
  }

  lemma JoinSnoc(parts: seq<string>, x: string, sep: char)
    requires parts != []
    ensures Join(parts + [x], sep) == Join(parts, sep) + [sep] + x
  {
    assert (parts + [x])[..|parts|] == parts;
  }

  lemma JoinExtend(parts: seq<string>, t: string, sep: char)
    requires parts != []
    ensures Join(Extend(parts, t), sep) == Join(parts, sep) + t
  {
    var init, p := parts[..|parts| - 1], parts[|parts| - 1];
    assert parts == init + [p];
    if init == [] {
      assert Extend(parts, t) == [p + t];
    } else {
      JoinSnoc(init, p, sep);
      JoinSnoc(init, p + t, sep);
      assert Join(init, sep) + [sep] + (p + t) == Join(init, sep) + [sep] + p + t;
    }
  }

  /** Splitting loses nothing: with SplitIsFree this says what the parts are. */
  lemma {:induction false} JoinOfSplit(s: string, sep: char)
    ensures Join(Split(s, sep), sep) == s
  {
    if s != "" {
      var init, c := s[..|s| - 1], s[|s| - 1];
      JoinOfSplit(init, sep);
      if c == sep {
        JoinSnoc(Split(init, sep), "", sep);
      } else {
        JoinExtend(Split(init, sep), [c], sep);
      }
      assert init + [c] == s;
    }
  }
}
