/** Semantic versions (registry/semver.go): the two regular expressions, parsing, printing, order. */
module SemVers {
  import opened Basics
  import opened Int64
  import opened Decimal
  import opened ThreeWay
  import opened PreRelease
  import opened Item11

  datatype SemVer = SemVer(v: string, major: int, minor: int, patch: int, preRelease: string, buildMetadata: string)

  // ----- the regular expression as a relation -----

  /** The capture groups of SemVerRegex; an absent optional group is the empty string. */
  datatype Captures = Captures(v: string, major: string, minor: string, patch: string, pre: string, build: string)

  predicate WordChar(c: char) { IdentifierChar(c) || c == '.' }

  /** The class [0-9A-Za-z.-] of the expressions, by code point. */
  lemma WordCharExactly(c: char)
    ensures var x := c as int;
            WordChar(c) <==> x == 45 || x == 46 || 48 <= x <= 57 || 65 <= x <= 90 || 97 <= x <= 122
  {
  }

  predicate Word(s: string) { forall i :: 0 <= i < |s| ==> WordChar(s[i]) }

  predicate Number(s: string) { s != [] && AllDigits(s) }

  predicate Shape(m: Captures) {
    (m.v == "" || m.v == "v") && Number(m.major) && Number(m.minor) && Number(m.patch) && Word(m.pre) && Word(m.build)
  }

  function Suffix(mark: char, s: string): string {
    if s == [] then [] else [mark] + s
  }

  function Tail(pre: string, build: string): string {
    Suffix('-', pre) + Suffix('+', build)
  }

  /** The text a match consists of. */
  function Matched(m: Captures): string {
    m.v + (m.major + ("." + (m.minor + ("." + (m.patch + Tail(m.pre, m.build))))))
  }

  // ----- scanning -----

  /** Length of the longest prefix of characters of a class. */
  function Span(s: string, inClass: char -> bool): (n: nat)
    ensures n <= |s|
  {
    if s != [] && inClass(s[0]) then 1 + Span(s[1..], inClass) else 0
  }

  lemma {:induction false} SpanLongest(s: string, inClass: char -> bool)
    ensures forall i :: 0 <= i < Span(s, inClass) ==> inClass(s[i])
    ensures Span(s, inClass) < |s| ==> !inClass(s[Span(s, inClass)])
  {
    if s != [] && inClass(s[0]) {
      SpanLongest(s[1..], inClass);
      forall i | 0 <= i < Span(s, inClass) ensures inClass(s[i]) {
        if i > 0 { assert s[i] == s[1..][i - 1]; }
      }
    }
  }

  lemma {:induction false} SpanOfConcat(x: string, rest: string, inClass: char -> bool)
    requires forall i :: 0 <= i < |x| ==> inClass(x[i])
    requires rest != [] ==> !inClass(rest[0])
    ensures Span(x + rest, inClass) == |x|
  {
    if x == [] {
      assert x + rest == rest;
    } else {
      assert (x + rest)[1..] == x[1..] + rest;
      SpanOfConcat(x[1..], rest, inClass);
    }
  }

  function ScanNumber(s: string): Option<(string, string)> {
    var n := Span(s, IsDigit);
    if n == 0 then None else Some((s[..n], s[n..]))
  }

  /** A number and the dot after it. */
  function ScanField(s: string): Option<(string, string)> {
    var (d, rest) :- ScanNumber(s);
    if rest != [] && rest[0] == '.' then Some((d, rest[1..])) else None
  }

  function ScanBuild(s: string): Option<string> {
    if s == [] then Some("") else if s[0] == '+' && s[1..] != [] && Word(s[1..]) then Some(s[1..]) else None
  }

  function ScanTail(s: string): Option<(string, string)> {
    if s != [] && s[0] == '-' then
      var n := Span(s[1..], WordChar);
      if n == 0 then None
      else
        var build :- ScanBuild(s[1..][n..]);
        Some((s[1..][..n], build))
    else
      var build :- ScanBuild(s);
      Some(("", build))
  }

  /** The optional v and the three numbers; what follows them. */
  function ScanCore(s: string): Option<(Captures, string)> {
    var v := if s != [] && s[0] == 'v' then "v" else "";
    var (major, r1) :- ScanField(s[|v|..]);
    var (minor, r2) :- ScanField(r1);
    var (patch, rest) :- ScanNumber(r2);
    Some((Captures(v, major, minor, patch, "", ""), rest))
  }

  function WithTail(core: Option<(Captures, string)>): Option<Captures> {
    var (m, rest) :- core;
    var (pre, build) :- ScanTail(rest);
    Some(m.(pre := pre, build := build))
  }

  function WithBuild(core: Option<(Captures, string)>): Option<Captures> {
    var (m, rest) :- core;
    var build :- ScanBuild(rest);
    Some(m.(build := build))
  }

  /** SemVerRegex. */
  function Scan(s: string): Option<Captures> {
    WithTail(ScanCore(s))
  }

  /** SemVerRegexWithoutPreRelease. */
  function ScanStable(s: string): Option<Captures> {
    WithBuild(ScanCore(s))
  }

  // ----- the scanner is the relation -----

  lemma NumberExactly(s: string, d: string, rest: string)
    ensures ScanNumber(s) == Some((d, rest)) <==> s == d + rest && Number(d) && (rest != [] ==> !IsDigit(rest[0]))
  {
    SpanLongest(s, IsDigit);
    if s == d + rest && Number(d) && (rest != [] ==> !IsDigit(rest[0])) {
      SpanOfConcat(d, rest, IsDigit);
    }
  }

  lemma BuildExactly(s: string, build: string)
    ensures ScanBuild(s) == Some(build) <==> s == Suffix('+', build) && Word(build)
  {
    if s != [] { assert s == [s[0]] + s[1..]; }
    if build != [] { assert Suffix('+', build)[1..] == build; }
  }

  lemma SuffixStops(build: string)
    ensures Suffix('+', build) != [] ==> !WordChar(Suffix('+', build)[0])
  {
  }

  /** After a hyphen: the pre-release is the longest run of word characters. */
  lemma DashTailExactly(t: string, pre: string, build: string)
    requires pre != []
    ensures ScanTail(['-'] + t) == Some((pre, build)) <==> t == pre + Suffix('+', build) && Word(pre) && Word(build)
  {
    var s := ['-'] + t;
    assert s[1..] == t;
    SpanLongest(t, WordChar);
    var n := Span(t, WordChar);
    assert t == t[..n] + t[n..];
    BuildExactly(t[n..], build);
    if t == pre + Suffix('+', build) && Word(pre) && Word(build) {
      SuffixStops(build);
      SpanOfConcat(pre, Suffix('+', build), WordChar);
      assert t[..n] == pre && t[n..] == Suffix('+', build);
    }
  }

  lemma DashTailNonEmpty(s: string)
    requires s != [] && s[0] == '-' && ScanTail(s).Some?
    ensures ScanTail(s).value.0 != []
  {
  }

  lemma PlainTailExactly(s: string, pre: string, build: string)
    requires s == [] || s[0] != '-'
    ensures ScanTail(s) == Some((pre, build)) <==> pre == [] && s == Suffix('+', build) && Word(build)
  {
    BuildExactly(s, build);
  }

  lemma TailText(pre: string, build: string)
    ensures pre == [] ==> Tail(pre, build) == Suffix('+', build)
    ensures pre == [] && build != [] ==> Tail(pre, build)[0] == '+'
    ensures pre != [] ==> Tail(pre, build) == ['-'] + (pre + Suffix('+', build))
    ensures pre != [] ==> Tail(pre, build)[0] == '-' && Tail(pre, build)[1..] == pre + Suffix('+', build)
  {
  }

  lemma TailExactly(s: string, pre: string, build: string)
    ensures ScanTail(s) == Some((pre, build)) <==> s == Tail(pre, build) && Word(pre) && Word(build)
  {
    TailText(pre, build);
    if s == [] || s[0] != '-' {
      PlainTailExactly(s, pre, build);
    } else if pre == [] {
      if ScanTail(s).Some? { DashTailNonEmpty(s); }
    } else {
      var t := s[1..];
      assert s == ['-'] + t;
      DashTailExactly(t, pre, build);
    }
  }

  lemma FieldExactly(s: string, d: string, rest: string)
    ensures ScanField(s) == Some((d, rest)) <==> s == d + ("." + rest) && Number(d)
  {
    if ScanField(s) == Some((d, rest)) {
      NumberExactly(s, d, ScanNumber(s).value.1);
      assert ScanNumber(s).value.1 == "." + rest;
    }
    if s == d + ("." + rest) && Number(d) {
      NumberExactly(s, d, "." + rest);
      assert ("." + rest)[1..] == rest;
    }
  }

  lemma DropV(v: string, rest: string)
    requires (v == "" || v == "v") && rest != [] && IsDigit(rest[0])
    ensures (v + rest)[|v|..] == rest && (if v + rest != [] && (v + rest)[0] == 'v' then "v" else "") == v
  {
  }

  /** The scanning steps of the core, run forwards on a text of the right shape. */
  lemma CoreComplete(m: Captures, rest: string)
    requires Shape(m) && (rest != [] ==> !IsDigit(rest[0]))
    ensures ScanCore(m.v + (m.major + ("." + (m.minor + ("." + (m.patch + rest)))))) ==
            Some((Captures(m.v, m.major, m.minor, m.patch, "", ""), rest))
  {
    var r4 := m.patch + rest;
    var r2 := m.minor + ("." + r4);
    var r0 := m.major + ("." + r2);
    assert r0[0] == m.major[0];
    DropV(m.v, r0);
    FieldExactly(r0, m.major, r2);
    FieldExactly(r2, m.minor, r4);
    NumberExactly(r4, m.patch, rest);
  }

  lemma CoreSound(s: string)
    requires ScanCore(s).Some?
    ensures var (m, rest) := ScanCore(s).value;
            && Shape(m) && m.pre == "" && m.build == ""
            && s == m.v + (m.major + ("." + (m.minor + ("." + (m.patch + rest)))))
            && (rest != [] ==> !IsDigit(rest[0]))
  {
    var (m, rest) := ScanCore(s).value;
    var r0 := s[|m.v|..];
    var r1 := ScanField(r0).value.1;
    var r2 := ScanField(r1).value.1;
    FieldExactly(r0, m.major, r1);
    FieldExactly(r1, m.minor, r2);
    NumberExactly(r2, m.patch, rest);
    assert s == m.v + r0;
  }

  lemma TailStartsNoDigit(pre: string, build: string)
    ensures Tail(pre, build) != [] ==> !IsDigit(Tail(pre, build)[0])
  {
  }

  lemma TailSound(core: Option<(Captures, string)>)
    requires WithTail(core).Some?
    ensures var (m, x) := (WithTail(core).value, core.value);
            m == x.0.(pre := m.pre, build := m.build) && x.1 == Tail(m.pre, m.build) && Word(m.pre) && Word(m.build)
  {
    var m := WithTail(core).value;
    TailExactly(core.value.1, m.pre, m.build);
  }

  lemma ScanSound(s: string)
    requires Scan(s).Some?
    ensures Shape(Scan(s).value) && s == Matched(Scan(s).value)
  {
    CoreSound(s);
    TailSound(ScanCore(s));
  }

  lemma ScanComplete(m: Captures)
    requires Shape(m)
    ensures Scan(Matched(m)) == Some(m)
  {
    var tail := Tail(m.pre, m.build);
    TailStartsNoDigit(m.pre, m.build);
    CoreComplete(m, tail);
    TailExactly(tail, m.pre, m.build);
  }

  /** Scan finds the captures m exactly when m has the shape of the expression and s is its text:
      a string matches in at most one way. */
  lemma ScanExactly(s: string, m: Captures)
    ensures Scan(s) == Some(m) <==> Shape(m) && s == Matched(m)
  {
    if Scan(s) == Some(m) { ScanSound(s); }
    if Shape(m) { ScanComplete(m); }
  }

  lemma BuildIsTail(core: Option<(Captures, string)>, m: Captures)
    requires core.Some? ==> core.value.0.pre == ""
    ensures WithBuild(core) == Some(m) <==> WithTail(core) == Some(m) && m.pre == ""
  {
    if core.Some? {
      TailExactly(core.value.1, m.pre, m.build);
      BuildExactly(core.value.1, m.build);
      assert m.pre == "" ==> Tail(m.pre, m.build) == Suffix('+', m.build);
    }
  }

  /** The stable-only expression accepts exactly the strings that SemVerRegex matches without a
      pre-release, with the same captures. */
  lemma StableExactly(s: string, m: Captures)
    ensures ScanStable(s) == Some(m) <==> Scan(s) == Some(m) && m.pre == ""
  {
    if ScanCore(s).Some? { CoreSound(s); }
    BuildIsTail(ScanCore(s), m);
  }

  // ----- ParseSemVer and String -----

  /** Errors of Atoi are ignored: numbers out of range saturate. */
  function VersionOf(m: Captures): SemVer {
    SemVer(m.v, Atoi(m.major).value, Atoi(m.minor).value, Atoi(m.patch).value, m.pre, m.build)
  }

  function ParseSemVer(s: string): Option<SemVer> {
    var m :- Scan(s);
    Some(VersionOf(m))
  }

  function String(x: SemVer): string {
    x.v + (PrintInt(x.major) + ("." + (PrintInt(x.minor) + ("." + (PrintInt(x.patch) + Tail(x.preRelease, x.buildMetadata))))))
  }

  predicate InRange(x: SemVer) {
    0 <= x.major <= INT64_MAX && 0 <= x.minor <= INT64_MAX && 0 <= x.patch <= INT64_MAX
  }

  predicate WellFormed(x: SemVer) {
    (x.v == "" || x.v == "v") && InRange(x) && Word(x.preRelease) && Word(x.buildMetadata)
  }

  lemma PrintedNumber(n: nat)
    requires n <= INT64_MAX
    ensures Number(PrintInt(n)) && Atoi(PrintInt(n)).value == n
  {
    ItoaCanonical(n);
    AtoiDigits(PrintInt(n));
  }

  /** Parsing undoes printing on every well-formed version. */
  lemma ParseUndoesString(x: SemVer)
    requires WellFormed(x)
    ensures ParseSemVer(String(x)) == Some(x)
  {
    var m := Captures(x.v, PrintInt(x.major), PrintInt(x.minor), PrintInt(x.patch), x.preRelease, x.buildMetadata);
    PrintedNumber(x.major);
    PrintedNumber(x.minor);
    PrintedNumber(x.patch);
    ScanExactly(String(x), m);
  }

  /** What is parsed is well-formed: numbers too large for int64 saturate. */
  lemma ParsedIsWellFormed(s: string)
    requires ParseSemVer(s).Some?
    ensures WellFormed(ParseSemVer(s).value)
  {
    var m := Scan(s).value;
    ScanExactly(s, m);
    AtoiDigits(m.major);
    AtoiDigits(m.minor);
    AtoiDigits(m.patch);
  }

  predicate Reprintable(d: string) {
    Canonical(d) && Value(d) <= INT64_MAX
  }

  /** Printing undoes parsing exactly when the three numbers have no leading zeros and fit int64. */
  lemma StringUndoesParseExactly(s: string)
    requires Scan(s).Some?
    ensures var m := Scan(s).value;
            String(ParseSemVer(s).value) == s <==>
            Reprintable(m.major) && Reprintable(m.minor) && Reprintable(m.patch)
  {
    var m, x := Scan(s).value, ParseSemVer(s).value;
    ScanExactly(s, m);
    ReprintExactly(m.major);
    ReprintExactly(m.minor);
    ReprintExactly(m.patch);
    ParsedIsWellFormed(s);
    PrintedNumber(x.major);
    PrintedNumber(x.minor);
    PrintedNumber(x.patch);
    var m' := Captures(x.v, PrintInt(x.major), PrintInt(x.minor), PrintInt(x.patch), x.preRelease, x.buildMetadata);
    ScanExactly(String(x), m');
    assert String(x) == s ==> m' == m;
  }

  // ----- Compare -----

  function Compare(x: SemVer, y: SemVer): int {
    if x.major != y.major then Wrap64(x.major - y.major)
    else if x.minor != y.minor then Wrap64(x.minor - y.minor)
    else if x.patch != y.patch then Wrap64(x.patch - y.patch)
    else ComparePre(x.preRelease, y.preRelease)
  }

  /** The end of Compare: a release is above its pre-releases. */
  function ComparePre(a: string, b: string): int {
    if a == "" && b != "" then 1 else if a != "" && b == "" then -1 else ComparePreRelease(a, b)
  }

  function StableFirst(a: string, b: string): int {
    if a == "" && b != "" then 1 else if a != "" && b == "" then -1 else KeyOrder(a, b)
  }

  function CoreNumbers(x: SemVer): seq<int> {
    [x.major, x.minor, x.patch]
  }

  function IntCmp(a: int, b: int): int { a - b }

  lemma IntCmpTotal()
    ensures Total(IntCmp)
  {
  }

  /** The key order of versions: the three numbers, then a pre-release below the release, then the
      key order of the pre-releases. */
  function Order(x: SemVer, y: SemVer): int {
    if CoreNumbers(x) != CoreNumbers(y) then Lex(IntCmp, CoreNumbers(x), CoreNumbers(y))
    else StableFirst(x.preRelease, y.preRelease)
  }

  lemma StableFirstLaws(a: string, b: string, c: string)
    ensures StableFirst(a, a) == 0
    ensures StableFirst(a, b) == -StableFirst(b, a)
    ensures StableFirst(a, b) <= 0 && StableFirst(b, c) <= 0 ==> StableFirst(a, c) <= 0
  {
    KeyOrderLaws(a, b, c);
    KeyOrderLaws(a, a, a);
  }

  lemma EqualPre(a: string, a': string, b: string)
    ensures ComparePre(a, a') == 0 <==> StableFirst(a, a') == 0
    ensures StableFirst(a, a') == 0 ==> ComparePre(a, b) == ComparePre(a', b) && ComparePre(b, a) == ComparePre(b, a')
  {
    EqualKeys(a, a', b);
  }

  predicate PreOverflows(a: string, b: string) {
    a != "" && b != "" && DecisionOverflows(Split(a), Split(b))
  }

  lemma PreSign(a: string, b: string)
    ensures Sign(ComparePre(a, b)) == StableFirst(a, b) <==> !PreOverflows(a, b)
  {
    ComparesByKeys(a, b);
    if a == "" && b == "" { NoOverflowOnSelf(Split("")); }
  }

  /** The key order of versions is a total preorder. */
  lemma OrderLaws(x: SemVer, y: SemVer, z: SemVer)
    ensures Order(x, x) == 0
    ensures Order(x, y) == -Order(y, x)
    ensures Order(x, y) <= 0 && Order(y, z) <= 0 ==> Order(x, z) <= 0
  {
    IntCmpTotal();
    var a, b, c := CoreNumbers(x), CoreNumbers(y), CoreNumbers(z);
    LexZero(IntCmp, a, b);
    LexZero(IntCmp, b, c);
    LexZero(IntCmp, a, c);
    LexFlip(IntCmp, a, b);
    LexFlip(IntCmp, b, c);
    LexFlip(IntCmp, a, c);
    StableFirstLaws(x.preRelease, y.preRelease, z.preRelease);
    if Lex(IntCmp, a, b) <= 0 && Lex(IntCmp, b, c) <= 0 {
      LexTransitive(IntCmp, a, b, c);
      if a == c && a != b { LexFlip(IntCmp, b, a); }
    }
  }

  lemma Lex3(a: seq<int>, b: seq<int>)
    requires |a| == 3 && |b| == 3
    ensures Lex(IntCmp, a, b) ==
            if a[0] != b[0] then Sign(a[0] - b[0]) else if a[1] != b[1] then Sign(a[1] - b[1]) else Sign(a[2] - b[2])
  {
    assert a[1..][1..][1..] == [] && b[1..][1..][1..] == [];
    assert Lex(IntCmp, a[1..][1..], b[1..][1..]) == Sign(a[2] - b[2]);
    assert Lex(IntCmp, a[1..], b[1..]) == if a[1] != b[1] then Sign(a[1] - b[1]) else Sign(a[2] - b[2]);
  }

  /** The comparison comes down to the pre-releases, and their deciding difference overflows. */
  predicate Overflows(x: SemVer, y: SemVer) {
    CoreNumbers(x) == CoreNumbers(y) && PreOverflows(x.preRelease, y.preRelease)
  }

  /** On parsed versions Compare has the sign of the order exactly when its deciding pre-release
      difference, if it comes to that, does not overflow. */
  lemma ComparesInOrder(x: SemVer, y: SemVer)
    requires InRange(x) && InRange(y)
    ensures Sign(Compare(x, y)) == Order(x, y) <==> !Overflows(x, y)
  {
    if CoreNumbers(x) != CoreNumbers(y) {
      Lex3(CoreNumbers(x), CoreNumbers(y));
    } else {
      PreSign(x.preRelease, y.preRelease);
    }
  }

  lemma StableFirstIsSign(a: string, b: string)
    ensures Sign(StableFirst(a, b)) == StableFirst(a, b)
  {
    LexIsSign(KeyCmp, Keys(Split(a)), Keys(Split(b)));
  }

  lemma OrderIsSign(x: SemVer, y: SemVer)
    ensures Sign(Order(x, y)) == Order(x, y)
  {
    LexIsSign(IntCmp, CoreNumbers(x), CoreNumbers(y));
    StableFirstIsSign(x.preRelease, y.preRelease);
  }

  lemma OrderZero(x: SemVer, y: SemVer)
    ensures Order(x, y) == 0 <==> CoreNumbers(x) == CoreNumbers(y) && StableFirst(x.preRelease, y.preRelease) == 0
  {
    IntCmpTotal();
    LexZero(IntCmp, CoreNumbers(x), CoreNumbers(y));
  }

  /** Versions of equal rank compare as 0, only those do, and they compare alike with every other. */
  lemma EqualRank(x: SemVer, x': SemVer, y: SemVer)
    requires InRange(x) && InRange(x') && InRange(y)
    ensures Compare(x, x') == 0 <==> Order(x, x') == 0
    ensures Order(x, x') == 0 ==> Compare(x, y) == Compare(x', y) && Compare(y, x) == Compare(y, x')
  {
    OrderZero(x, x');
    EqualPre(x.preRelease, x'.preRelease, y.preRelease);
    if CoreNumbers(x) == CoreNumbers(x') {
      assert CoreNumbers(x)[0] == CoreNumbers(x')[0] && CoreNumbers(x)[1] == CoreNumbers(x')[1]
        && CoreNumbers(x)[2] == CoreNumbers(x')[2];
    }
  }
}
