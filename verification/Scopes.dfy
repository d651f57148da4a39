/** Scope lists and their comma-separated form. */
module Scopes {
  import opened Text

  // ----- whitespace -----

  /** The characters that Python's str.strip() removes. */
  predicate IsSpace(c: char) {
    || '\t' <= c <= '\r' || '\U{1c}' <= c <= ' ' || c == '\U{85}' || c == '\U{a0}' || c == '\U{1680}'
    || '\U{2000}' <= c <= '\U{200a}' || c == '\U{2028}' || c == '\U{2029}' || c == '\U{202f}' || c == '\U{205f}'
    || c == '\U{3000}'
  }

  /** They are the 29 characters that str.isspace() knows. */
  lemma SpacesAre(c: char)
    ensures IsSpace(c) <==>
            c in "\t\n\U{b}\U{c}\r\U{1c}\U{1d}\U{1e}\U{1f} \U{85}\U{a0}\U{1680}"
            || c in "\U{2000}\U{2001}\U{2002}\U{2003}\U{2004}\U{2005}\U{2006}\U{2007}\U{2008}\U{2009}\U{200a}"
            || c in "\U{2028}\U{2029}\U{202f}\U{205f}\U{3000}"
  {
  }

  function StripStart(s: string): string {
    if s != "" && IsSpace(s[0]) then StripStart(s[1..]) else s
  }

  function StripEnd(s: string): string {
    if s != "" && IsSpace(s[|s| - 1]) then StripEnd(s[..|s| - 1]) else s
  }

  function Strip(s: string): string {
    StripStart(StripEnd(s))
  }

  /** Text that stripping leaves alone. */
  predicate Trim(s: string) {
    s != "" ==> !IsSpace(s[0]) && !IsSpace(s[|s| - 1])
  }

  predicate Blank(s: string) {
    s != "" ==> IsSpace(s[|s| - 1]) && Blank(s[..|s| - 1])
  }

  lemma {:induction false} BlankConcat(a: string, b: string)
    ensures Blank(a + b) <==> Blank(a) && Blank(b)
  {
    if b == "" {
      assert a + b == a;
    } else {
      BlankConcat(a, b[..|b| - 1]);
      assert (a + b)[..|a + b| - 1] == a + b[..|b| - 1];
    }
  }

  lemma {:induction false} StripEndIs(s: string)
    ensures StripEnd(s) == "" <==> Blank(s)
    ensures StripEnd(s) != "" ==> !IsSpace(StripEnd(s)[|StripEnd(s)| - 1]) && StripEnd(s)[0] == s[0]
  {
    if s != "" && IsSpace(s[|s| - 1]) {
      StripEndIs(s[..|s| - 1]);
    }
  }

  lemma {:induction false} StripStartIs(s: string)
    requires s != "" ==> !IsSpace(s[|s| - 1])
    ensures Trim(StripStart(s))
    ensures StripStart(s) == "" <==> s == ""
    decreases |s|
  {
    if s != "" && IsSpace(s[0]) {
      assert |s| >= 2;
      StripStartIs(s[1..]);
    }
  }

  lemma StripIs(s: string)
    ensures Trim(Strip(s))
    ensures Strip(s) == "" <==> Blank(s)
    ensures Trim(s) ==> Strip(s) == s
  {
    StripEndIs(s);
    StripStartIs(StripEnd(s));
  }

  lemma StripSpaceAfter(s: string, c: char)
    requires IsSpace(c)
    ensures Strip(s + [c]) == Strip(s)
  {
    assert (s + [c])[..|s|] == s;
  }

  lemma {:induction false} StripEndPrepend(c: char, s: string)
    requires IsSpace(c)
    ensures StripEnd([c] + s) == if Blank(s) then "" else [c] + StripEnd(s)
  {
    if s == "" {
      assert [c] + s == [c];
      assert [c][..0] == "";
    } else if IsSpace(s[|s| - 1]) {
      StripEndPrepend(c, s[..|s| - 1]);
      assert ([c] + s)[..|s|] == [c] + s[..|s| - 1];
    }
  }

  lemma StripSpaceBefore(c: char, s: string)
    requires IsSpace(c)
    ensures Strip([c] + s) == Strip(s)
  {
    StripEndPrepend(c, s);
    StripEndIs(s);
    if !Blank(s) {
      assert ([c] + StripEnd(s))[1..] == StripEnd(s);
    }
  }

  lemma {:induction false} OccursStripStart(c: char, s: string)
    requires !IsSpace(c)
    ensures Occurs(c, StripStart(s)) <==> Occurs(c, s)
    decreases |s|
  {
    if s != "" && IsSpace(s[0]) {
      assert s == [s[0]] + s[1..];
      OccursConcat(c, [s[0]], s[1..]);
      assert [s[0]][..0] == "";
      OccursStripStart(c, s[1..]);
    }
  }

  lemma {:induction false} OccursStripEnd(c: char, s: string)
    requires !IsSpace(c)
    ensures Occurs(c, StripEnd(s)) <==> Occurs(c, s)
  {
    if s != "" && IsSpace(s[|s| - 1]) {
      OccursStripEnd(c, s[..|s| - 1]);
    }
  }

  // ----- sorting -----

  /** Python's order on strings: by code point, a prefix first. */
  predicate Less(a: string, b: string) {
    b != "" && (a == "" || a[0] < b[0] || (a[0] == b[0] && Less(a[1..], b[1..])))
  }

  /** a and b agree before i. */
  ghost predicate AgreeUpTo(a: string, b: string, i: nat) {
    i <= |a| && i <= |b| && a[..i] == b[..i]
  }

  /** At the first difference the code points decide; without one, the length. */
  lemma {:induction false} LessIs(a: string, b: string, i: nat)
    requires AgreeUpTo(a, b, i)
    ensures i < |a| && i < |b| && a[i] < b[i] ==> Less(a, b)
    ensures i < |a| && i < |b| && a[i] > b[i] ==> !Less(a, b)
    ensures i == |a| ==> (Less(a, b) <==> |a| < |b|)
    ensures i == |b| ==> !Less(a, b)
    decreases i
  {
    if i > 0 {
      assert a[0] == a[..i][0] && b[0] == b[..i][0];
      assert a[1..][..i - 1] == a[..i][1..] && b[1..][..i - 1] == b[..i][1..];
      LessIs(a[1..], b[1..], i - 1);
    }
  }

  lemma {:induction false} LessTotal(a: string, b: string)
    ensures !Less(a, a)
    ensures a == b || Less(a, b) || Less(b, a)
    ensures !(Less(a, b) && Less(b, a))
    decreases |a|
  {
    if a != "" {
      LessTotal(a[1..], if b != "" then b[1..] else a[1..]);
      if b != "" && a[0] == b[0] && a[1..] == b[1..] {
        assert a == [a[0]] + a[1..] && b == [b[0]] + b[1..];
      }
    }
  }

  lemma {:induction false} LessTransitive(a: string, b: string, c: string)
    requires Less(a, b) && Less(b, c)
    ensures Less(a, c)
    decreases |a|
  {
    if a != "" && a[0] == b[0] && b[0] == c[0] {
      LessTransitive(a[1..], b[1..], c[1..]);
    }
  }

  predicate Increasing(xs: seq<string>) {
    |xs| >= 2 ==> Less(xs[|xs| - 2], xs[|xs| - 1]) && Increasing(xs[..|xs| - 1])
  }

  function SetOf(xs: seq<string>): set<string> {
    if xs == [] then {} else SetOf(xs[..|xs| - 1]) + {xs[|xs| - 1]}
  }

  /** Adding to an increasing list what it does not have yet. */
  function Insert(xs: seq<string>, x: string): seq<string> {
    if xs == [] then [x]
    else
      var init, last := xs[..|xs| - 1], xs[|xs| - 1];
      if x == last then xs
      else if Less(last, x) then xs + [x]
      else Insert(init, x) + [last]
  }

  lemma {:induction false} InsertIs(xs: seq<string>, x: string)
    requires Increasing(xs)
    ensures Increasing(Insert(xs, x)) && SetOf(Insert(xs, x)) == SetOf(xs) + {x}
    ensures Insert(xs, x) != []
    ensures Insert(xs, x)[|Insert(xs, x)| - 1] == if xs != [] && !Less(xs[|xs| - 1], x) then xs[|xs| - 1] else x
  {
    if xs != [] {
      var init, last := xs[..|xs| - 1], xs[|xs| - 1];
      assert (xs + [x])[..|xs|] == xs;
      if x != last && !Less(last, x) {
        InsertIs(init, x);
        LessTotal(x, last);
        assert (Insert(init, x) + [last])[..|Insert(init, x)|] == Insert(init, x);
      }
      LessTotal(last, x);
    } else {
      assert [x][..0] == [];
    }
  }

  /** The last of an increasing list is above the rest. */
  lemma {:induction false} LastIsGreatest(xs: seq<string>, x: string)
    requires Increasing(xs) && xs != [] && x in SetOf(xs[..|xs| - 1])
    ensures Less(x, xs[|xs| - 1])
  {
    var init := xs[..|xs| - 1];
    if x != init[|init| - 1] {
      LastIsGreatest(init, x);
      LessTransitive(x, init[|init| - 1], xs[|xs| - 1]);
    }
  }

  /** Two increasing lists with the same elements have the same last one. */
  lemma SameLast(xs: seq<string>, ys: seq<string>)
    requires Increasing(xs) && Increasing(ys) && SetOf(xs) == SetOf(ys) && xs != [] && ys != []
    ensures xs[|xs| - 1] == ys[|ys| - 1]
  {
    var x, y := xs[|xs| - 1], ys[|ys| - 1];
    assert x in SetOf(ys) && y in SetOf(xs);
    if x != y {
      LastIsGreatest(xs, y);
      LastIsGreatest(ys, x);
      LessTotal(x, y);
    }
  }

  lemma LastIsNew(xs: seq<string>)
    requires Increasing(xs) && xs != []
    ensures SetOf(xs[..|xs| - 1]) == SetOf(xs) - {xs[|xs| - 1]}
  {
    if xs[|xs| - 1] in SetOf(xs[..|xs| - 1]) {
      LastIsGreatest(xs, xs[|xs| - 1]);
      LessTotal(xs[|xs| - 1], xs[|xs| - 1]);
    }
  }

  lemma NoElements(xs: seq<string>)
    requires SetOf(xs) == {}
    ensures xs == []
  {
  }

  /** An increasing list is determined by its elements. */
  lemma {:induction false} SortedSetIsUnique(xs: seq<string>, ys: seq<string>)
    requires Increasing(xs) && Increasing(ys) && SetOf(xs) == SetOf(ys)
    ensures xs == ys
  {
    if xs == [] {
      NoElements(ys);
    } else {
      assert xs[|xs| - 1] in SetOf(xs);
      SameLast(xs, ys);
      LastIsNew(xs);
      LastIsNew(ys);
      SortedSetIsUnique(xs[..|xs| - 1], ys[..|ys| - 1]);
    }
  }

  // ----- normal form -----

  /** The set that _normalize_scopes sorts: the stripped, non-empty elements. */
  function Elements(scopes: seq<string>): set<string> {
    if scopes == [] then {}
    else
      var before, x := Elements(scopes[..|scopes| - 1]), Strip(scopes[|scopes| - 1]);
      if x == "" then before else before + {x}
  }

  function Normalize(scopes: seq<string>): seq<string> {
    if scopes == [] then []
    else
      var before, x := Normalize(scopes[..|scopes| - 1]), Strip(scopes[|scopes| - 1]);
      if x == "" then before else Insert(before, x)
  }

  /** Normalising sorts the set of stripped, non-empty elements. */
  lemma {:induction false} NormalizeSortsElements(scopes: seq<string>)
    ensures Increasing(Normalize(scopes)) && SetOf(Normalize(scopes)) == Elements(scopes)
  {
    if scopes != [] {
      hide Insert, Strip, Increasing;
      NormalizeSortsElements(scopes[..|scopes| - 1]);
      InsertIs(Normalize(scopes[..|scopes| - 1]), Strip(scopes[|scopes| - 1]));
    } else {
      assert Increasing([]);
    }
  }

  // ----- the comma-separated form -----

  function ToCsv(scopes: seq<string>): string {
    Join(Normalize(scopes), ',')
  }

  function FromCsv(csv: string): seq<string> {
    if Strip(csv) == "" then [] else Normalize(Split(csv, ','))
  }

  /** The list comprehension of the settings parser. */
  function KeepStripped(items: seq<string>): seq<string> {
    if items == [] then []
    else
      var before, x := KeepStripped(items[..|items| - 1]), Strip(items[|items| - 1]);
      if x == "" then before else before + [x]
  }

  function ParseCsvSettings(value: string): seq<string> {
    if Strip(value) == "" then [] else KeepStripped(Split(Strip(value), ','))
  }

  /** Every element is stripped and not empty. */
  predicate AllTrim(xs: seq<string>) {
    xs != [] ==> xs[|xs| - 1] != "" && Trim(xs[|xs| - 1]) && AllTrim(xs[..|xs| - 1])
  }

  lemma {:induction false} ElementsOfTrim(xs: seq<string>)
    requires AllTrim(xs)
    ensures Elements(xs) == SetOf(xs)
  {
    if xs != [] {
      ElementsOfTrim(xs[..|xs| - 1]);
      StripIs(xs[|xs| - 1]);
    }
  }

  lemma {:induction false} InsertKeepsTrim(xs: seq<string>, x: string)
    requires AllTrim(xs) && x != "" && Trim(x)
    ensures AllTrim(Insert(xs, x))
  {
    hide Trim, Less;
    if xs != [] {
      var init, last := xs[..|xs| - 1], xs[|xs| - 1];
      assert (xs + [x])[..|xs|] == xs;
      InsertKeepsTrim(init, x);
      assert (Insert(init, x) + [last])[..|Insert(init, x)|] == Insert(init, x);
    }
  }

  lemma {:induction false} NormalizeIsTrim(scopes: seq<string>)
    ensures AllTrim(Normalize(scopes))
  {
    hide Trim, Strip, Insert;
    if scopes != [] {
      var x := Strip(scopes[|scopes| - 1]);
      NormalizeIsTrim(scopes[..|scopes| - 1]);
      StripIs(scopes[|scopes| - 1]);
      if x != "" {
        InsertKeepsTrim(Normalize(scopes[..|scopes| - 1]), x);
      }
    }
  }

  /** Lists with the same elements have the same normal form. */
  lemma NormalizeByElements(xs: seq<string>, ys: seq<string>)
    ensures Normalize(xs) == Normalize(ys) <==> Elements(xs) == Elements(ys)
  {
    NormalizeSortsElements(xs);
    NormalizeSortsElements(ys);
    if Elements(xs) == Elements(ys) {
      SortedSetIsUnique(Normalize(xs), Normalize(ys));
    }
  }

  /** Normalising is idempotent. */
  lemma NormalizeTwice(scopes: seq<string>)
    ensures Normalize(Normalize(scopes)) == Normalize(scopes)
  {
    hide Normalize;
    NormalizeIsTrim(scopes);
    ElementsOfTrim(Normalize(scopes));
    NormalizeSortsElements(scopes);
    NormalizeByElements(Normalize(scopes), scopes);
  }

  // ----- commas -----

  lemma {:induction false} FreeOfElements(scopes: seq<string>, x: string)
    requires FreeOf(scopes, ',') && x in Elements(scopes)
    ensures !Occurs(',', x)
  {
    var last := scopes[|scopes| - 1];
    if x == Strip(last) {
      OccursStripEnd(',', last);
      OccursStripStart(',', StripEnd(last));
    } else {
      FreeOfElements(scopes[..|scopes| - 1], x);
    }
  }

  lemma {:induction false} FreeOfSet(xs: seq<string>)
    ensures FreeOf(xs, ',') <==> forall x :: x in SetOf(xs) ==> !Occurs(',', x)
  {
    if xs != [] {
      hide Occurs;
      FreeOfSet(xs[..|xs| - 1]);
      assert xs[|xs| - 1] in SetOf(xs);
      assert forall x :: x in SetOf(xs) <==> x in SetOf(xs[..|xs| - 1]) || x == xs[|xs| - 1];
    }
  }

  /** Normalising comma-free scopes gives comma-free scopes. */
  lemma NormalizeKeepsFree(scopes: seq<string>)
    requires FreeOf(scopes, ',')
    ensures FreeOf(Normalize(scopes), ',')
  {
    NormalizeSortsElements(scopes);
    forall x | x in SetOf(Normalize(scopes)) ensures !Occurs(',', x) {
      FreeOfElements(scopes, x);
    }
    FreeOfSet(Normalize(scopes));
  }

  /** A scope with a comma leaves an element with a comma. */
  lemma {:induction false} CommaElement(scopes: seq<string>) returns (x: string)
    requires !FreeOf(scopes, ',')
    ensures x in Elements(scopes) && Occurs(',', x)
  {
    var last := scopes[|scopes| - 1];
    if Occurs(',', last) {
      x := Strip(last);
      OccursStripEnd(',', last);
      OccursStripStart(',', StripEnd(last));
    } else {
      x := CommaElement(scopes[..|scopes| - 1]);
    }
  }

  lemma {:induction false} JoinIsNotBlank(xs: seq<string>, sep: char)
    requires AllTrim(xs) && xs != []
    ensures !Blank(Join(xs, sep))
  {
    var init, last := xs[..|xs| - 1], xs[|xs| - 1];
    if init != [] {
      BlankConcat(Join(init, sep) + [sep], last);
    }
  }

  /** Main result: reading back what was written gives the normal form exactly
      when no scope contains a comma. */
  lemma CsvRoundTrip(scopes: seq<string>)
    ensures FromCsv(ToCsv(scopes)) == Normalize(scopes) <==> FreeOf(scopes, ',')
  {
    var n := Normalize(scopes);
    hide Normalize, Strip, Split, Elements, Blank, Trim;
    if FreeOf(scopes, ',') {
      CsvOfNormal(scopes);
    } else {
      var x := CommaElement(scopes);
      NormalizeSortsElements(scopes);
      FromCsvIsFree(ToCsv(scopes));
      FreeOfSet(FromCsv(ToCsv(scopes)));
    }
  }

  lemma CsvOfNormal(scopes: seq<string>)
    requires FreeOf(scopes, ',')
    ensures FromCsv(ToCsv(scopes)) == Normalize(scopes)
  {
    var n := Normalize(scopes);
    hide Normalize, Strip, Split, Elements, Blank, Trim, FreeOf;
    StripIs(ToCsv(scopes));
    if n == [] {
      assert Blank("") by { EmptyIsBlank(); }
    } else {
      NormalizeIsTrim(scopes);
      JoinIsNotBlank(n, ',');
      NormalizeKeepsFree(scopes);
      SplitOfJoin(n, ',');
      NormalizeTwice(scopes);
    }
  }

  lemma EmptyIsBlank()
    ensures Blank("")
  {
  }

  lemma FromCsvIsFree(csv: string)
    ensures FreeOf(FromCsv(csv), ',')
  {
    SplitIsFree(csv, ',');
    NormalizeKeepsFree(Split(csv, ','));
  }

  /** A sorted list of stripped scopes is its own normal form. */
  lemma NormalIsNormal(xs: seq<string>)
    requires Increasing(xs) && AllTrim(xs)
    ensures Normalize(xs) == xs
  {
    hide Normalize;
    NormalizeSortsElements(xs);
    ElementsOfTrim(xs);
    SortedSetIsUnique(Normalize(xs), xs);
  }

  lemma ListsOfTwo(x: string, y: string)
    requires x != "" && Trim(x) && y != "" && Trim(y)
    ensures AllTrim([x]) && Increasing([x]) && AllTrim([x, y]) && (Less(x, y) ==> Increasing([x, y]))
    ensures FreeOf([x, y], ',') <==> !Occurs(',', x) && !Occurs(',', y)
    ensures Join([x, y], ',') == x + "," + y && Join([x], ',') == x
  {
    assert [x, y][..1] == [x] && [x][..0] == [];
    assert FreeOf([x], ',') <==> !Occurs(',', x);
  }

  lemma {:induction false} ElementsHas(scopes: seq<string>, x: string)
    ensures x in Elements(scopes) <==> x != "" && exists part :: part in scopes && Strip(part) == x
  {
    if scopes != [] {
      var init, last := scopes[..|scopes| - 1], scopes[|scopes| - 1];
      hide Strip;
      ElementsHas(init, x);
      assert forall part :: part in scopes <==> part in init || part == last by {
        assert scopes == init + [last];
      }
    }
  }

  lemma {:induction false} SetOfHas(xs: seq<string>, x: string)
    ensures x in SetOf(xs) <==> x in xs
  {
    if xs != [] {
      SetOfHas(xs[..|xs| - 1], x);
      assert xs == xs[..|xs| - 1] + [xs[|xs| - 1]];
    }
  }

  /** What a text reads as: its parts between commas, stripped, the blank ones
      left out; in increasing order. */
  lemma FromCsvHas(csv: string, x: string)
    ensures Increasing(FromCsv(csv))
    ensures x in FromCsv(csv) <==> x != "" && exists part :: part in Split(csv, ',') && Strip(part) == x
  {
    hide Normalize, Split, Elements, StripAll;
    ElementsHas(Split(csv, ','), x);
    NormalizeSortsElements(Split(csv, ','));
    SetOfHas(FromCsv(csv), x);
    if Strip(csv) == "" {
      SplitStrip(csv);
      ElementsByStripAll(Split("", ','), Split(csv, ','));
      ElementsHas(Split("", ','), x);
      assert Split("", ',') == [""] && Strip("") == "" by { NothingSplits(); }
    }
  }

  lemma NothingSplits()
    ensures Split("", ',') == [""] && Strip("") == ""
  {
  }

  /** What happens to a scope with a comma: it reads back as its two parts. */
  lemma CommaTearsScope(x: string, y: string)
    requires x != "" && Trim(x) && !Occurs(',', x) && y != "" && Trim(y) && !Occurs(',', y) && Less(x, y)
    ensures ToCsv([x + "," + y]) == ToCsv([x, y]) == x + "," + y
    ensures FromCsv(ToCsv([x + "," + y])) == [x, y]
  {
    hide Normalize, FromCsv, Less, Increasing, AllTrim, Join, FreeOf, Occurs;
    ListsOfTwo(x, y);
    ListsOfTwo(x + "," + y, x);
    NormalIsNormal([x, y]);
    NormalIsNormal([x + "," + y]);
    CsvRoundTrip([x, y]);
  }

  /** For one, "a,b" reads back as "a" and "b". */
  lemma CommaExample()
    ensures FromCsv(ToCsv(["a,b"])) == ["a", "b"]
    ensures FromCsv("a,b") == ["a", "b"]
  {
    var x, y, torn := "a", "b", "a,b";
    assert torn == x + "," + y;
    assert !Occurs(',', x[..0]) && !Occurs(',', y[..0]);
    CommaTearsScope(x, y);
  }

  /** Main result: one reading puts any text in canonical form; writing it and
      reading it again changes nothing. */
  lemma CsvIsCanonical(csv: string)
    ensures FromCsv(ToCsv(FromCsv(csv))) == FromCsv(csv)
  {
    hide Normalize, Split, ToCsv;
    FromCsvIsFree(csv);
    CsvRoundTrip(FromCsv(csv));
    if Strip(csv) == "" {
      NormalizeNothing();
    } else {
      NormalizeTwice(Split(csv, ','));
    }
  }

  lemma NormalizeNothing()
    ensures Normalize([]) == []
  {
  }

  /** Main result: comma-free lists are written alike exactly when their
      stripped, non-empty elements form the same set. */
  lemma CsvByElements(xs: seq<string>, ys: seq<string>)
    requires FreeOf(xs, ',') && FreeOf(ys, ',')
    ensures ToCsv(xs) == ToCsv(ys) <==> Elements(xs) == Elements(ys)
  {
    hide Normalize, Elements, FreeOf;
    CsvRoundTrip(xs);
    CsvRoundTrip(ys);
    NormalizeByElements(xs, ys);
  }

  // ----- through the settings parser -----

  /** The stripped parts, blank ones included. */
  function StripAll(parts: seq<string>): seq<string> {
    if parts == [] then [] else StripAll(parts[..|parts| - 1]) + [Strip(parts[|parts| - 1])]
  }

  lemma {:induction false} ElementsByStripAll(xs: seq<string>, ys: seq<string>)
    requires StripAll(xs) == StripAll(ys)
    ensures Elements(xs) == Elements(ys)
  {
    if xs != [] && ys != [] {
      StripAllLast(xs);
      StripAllLast(ys);
      ElementsByStripAll(xs[..|xs| - 1], ys[..|ys| - 1]);
    }
  }

  lemma StripAllLast(xs: seq<string>)
    requires xs != []
    ensures StripAll(xs) != [] && StripAll(xs)[|StripAll(xs)| - 1] == Strip(xs[|xs| - 1])
    ensures StripAll(xs)[..|StripAll(xs)| - 1] == StripAll(xs[..|xs| - 1])
  {
  }

  lemma StripAllExtend(parts: seq<string>, c: char)
    requires parts != [] && IsSpace(c)
    ensures StripAll(Extend(parts, [c])) == StripAll(parts)
  {
    var init, last := parts[..|parts| - 1], parts[|parts| - 1];
    StripSpaceAfter(last, c);
    assert Extend(parts, [c])[..|parts| - 1] == init;
  }

  /** Trailing whitespace does not change the stripped parts. */
  lemma {:induction false} SplitStripEnd(s: string)
    ensures StripAll(Split(StripEnd(s), ',')) == StripAll(Split(s, ','))
  {
    if s != "" && IsSpace(s[|s| - 1]) {
      SplitStripEnd(s[..|s| - 1]);
      StripAllExtend(Split(s[..|s| - 1], ','), s[|s| - 1]);
    }
  }

  /** A character before the text goes into its first part. */
  lemma {:induction false} SplitPrepend(c: char, s: string, sep: char)
    requires c != sep
    ensures Split([c] + s, sep) == [[c] + Split(s, sep)[0]] + Split(s, sep)[1..]
  {
    if s == "" {
      assert [c] + s == [] + [c];
      SplitSnoc("", c, sep);
    } else {
      var init, x := s[..|s| - 1], s[|s| - 1];
      SplitPrepend(c, init, sep);
      assert [c] + s == ([c] + init) + [x] && init + [x] == s;
      SplitSnoc([c] + init, x, sep);
      SplitSnoc(init, x, sep);
      PrependExtend(c, Split(init, sep), [x]);
    }
  }

  lemma PrependExtend(c: char, parts: seq<string>, t: string)
    requires parts != []
    ensures Extend([[c] + parts[0]] + parts[1..], t) == [[c] + Extend(parts, t)[0]] + Extend(parts, t)[1..]
    ensures [[c] + parts[0]] + parts[1..] + [""] == [[c] + (parts + [""])[0]] + (parts + [""])[1..]
  {
    if |parts| == 1 {
      assert [c] + parts[0] + t == [c] + (parts[0] + t);
    }
  }

  lemma {:induction false} StripAllFirst(p: string, q: string, rest: seq<string>)
    requires Strip(p) == Strip(q)
    ensures StripAll([p] + rest) == StripAll([q] + rest)
  {
    hide Strip;
    if rest == [] {
      assert [p] + rest == [p] && [q] + rest == [q];
      assert [p][..0] == [] && [q][..0] == [];
    } else {
      var init := rest[..|rest| - 1];
      StripAllFirst(p, q, init);
      assert ([p] + rest)[..|rest|] == [p] + init && ([q] + rest)[..|rest|] == [q] + init;
    }
  }

  /** Leading whitespace does not change the stripped parts. */
  lemma {:induction false} SplitStripStart(s: string)
    ensures StripAll(Split(StripStart(s), ',')) == StripAll(Split(s, ','))
    decreases |s|
  {
    hide Strip, Split, StripAll;
    if s != "" && IsSpace(s[0]) {
      var parts := Split(s[1..], ',');
      SplitStripStart(s[1..]);
      assert s == [s[0]] + s[1..];
      SplitPrepend(s[0], s[1..], ',');
      StripSpaceBefore(s[0], parts[0]);
      StripAllFirst([s[0]] + parts[0], parts[0], parts[1..]);
      assert [parts[0]] + parts[1..] == parts;
    }
  }

  lemma {:induction false} KeepStrippedIs(items: seq<string>)
    ensures AllTrim(KeepStripped(items)) && SetOf(KeepStripped(items)) == Elements(items)
  {
    hide Strip, Trim;
    if items != [] {
      var before, x := KeepStripped(items[..|items| - 1]), Strip(items[|items| - 1]);
      KeepStrippedIs(items[..|items| - 1]);
      StripIs(items[|items| - 1]);
      assert (before + [x])[..|before|] == before;
    }
  }

  /** Main result: scopes that reach the database through the settings parser
      are those read from the text directly. */
  lemma SettingsThenCsv(value: string)
    ensures Normalize(ParseCsvSettings(value)) == FromCsv(value)
    ensures FromCsv(ToCsv(ParseCsvSettings(value))) == FromCsv(value)
  {
    hide Normalize, Split, Elements, KeepStripped, StripAll, FreeOf, ToCsv, Strip;
    if Strip(value) == "" {
      NormalizeNothing();
      NothingToCsv();
    } else {
      var parts, all := Split(Strip(value), ','), Split(value, ',');
      SplitStrip(value);
      ElementsByStripAll(parts, all);
      KeepStrippedIs(parts);
      ElementsOfTrim(KeepStripped(parts));
      NormalizeByElements(KeepStripped(parts), all);
      KeepStrippedFree(Strip(value));
      CsvRoundTrip(KeepStripped(parts));
    }
  }

  lemma SplitStrip(value: string)
    ensures StripAll(Split(Strip(value), ',')) == StripAll(Split(value, ','))
  {
    SplitStripEnd(value);
    SplitStripStart(StripEnd(value));
  }

  lemma NothingToCsv()
    ensures FromCsv(ToCsv([])) == []
  {
    CsvRoundTrip([]);
  }

  lemma KeepStrippedFree(s: string)
    ensures FreeOf(KeepStripped(Split(s, ',')), ',')
  {
    SplitIsFree(s, ',');
    KeepStrippedIs(Split(s, ','));
    forall x | x in SetOf(KeepStripped(Split(s, ','))) ensures !Occurs(',', x) {
      FreeOfElements(Split(s, ','), x);
    }
    FreeOfSet(KeepStripped(Split(s, ',')));
  }

  lemma {:induction false} KeepsAllTrim(xs: seq<string>)
    requires AllTrim(xs)
    ensures KeepStripped(xs) == xs
  {
    hide Strip, Trim;
    if xs != [] {
      KeepsAllTrim(xs[..|xs| - 1]);
      StripIs(xs[|xs| - 1]);
    }
  }

  lemma {:induction false} JoinIsTrim(xs: seq<string>, sep: char)
    requires AllTrim(xs) && xs != []
    ensures Join(xs, sep) != "" && Trim(Join(xs, sep))
  {
    var init, last := xs[..|xs| - 1], xs[|xs| - 1];
    if init != [] {
      JoinIsTrim(init, sep);
      var s := Join(init, sep) + [sep] + last;
      assert s[0] == Join(init, sep)[0] && s[|s| - 1] == last[|last| - 1];
    }
  }

  /** The settings parser keeps the order of its items and their repetitions. */
  lemma SettingsKeepOrder(xs: seq<string>)
    requires AllTrim(xs) && FreeOf(xs, ',')
    ensures ParseCsvSettings(Join(xs, ',')) == xs
  {
    hide Split, Strip, Join, Trim, AllTrim, KeepStripped;
    if xs == [] {
      assert Join(xs, ',') == "" by { JoinNothing(); }
      NothingSplits();
    } else {
      JoinIsTrim(xs, ',');
      StripIs(Join(xs, ','));
      SplitOfJoin(xs, ',');
      KeepsAllTrim(xs);
    }
  }

  lemma JoinNothing()
    ensures Join([], ',') == ""
  {
  }
}
