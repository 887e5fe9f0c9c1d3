/**
  Version names by items 10 and 11 of Semantic Versioning 2.0.0, stated on the text of a name:
  the three numbers at their full size, then the pre-release, never the build metadata.
 */
module Item11Names {
  import opened Int64
  import opened Decimal
  import opened ThreeWay
  import opened PreRelease
  import opened Item11
  import opened SemVers

  // ----- items 10 and 11 -----

  /** Item 11.2. */
  predicate CoreLess(x: Captures, y: Captures)
    requires Shape(x) && Shape(y)
  {
    || Value(x.major) < Value(y.major)
    || (Value(x.major) == Value(y.major) &&
        (Value(x.minor) < Value(y.minor) || (Value(x.minor) == Value(y.minor) && Value(x.patch) < Value(y.patch))))
  }

  predicate SameCore(x: Captures, y: Captures)
    requires Shape(x) && Shape(y)
  {
    Value(x.major) == Value(y.major) && Value(x.minor) == Value(y.minor) && Value(x.patch) == Value(y.patch)
  }

  /** Items 11.3 and 11.4; an absent pre-release is the empty string. */
  ghost predicate PreLess(p: string, q: string) {
    p != "" && (q == "" || Precedes(Split(p), Split(q)))
  }

  /** x has lower precedence than y. */
  ghost predicate NameLess(x: Captures, y: Captures) {
    Shape(x) && Shape(y) && (CoreLess(x, y) || (SameCore(x, y) && PreLess(x.pre, y.pre)))
  }

  /** The identifiers of the pre-release are those of item 9. */
  predicate ValidName(m: Captures) {
    Shape(m) && (m.pre != "" ==> AllValid(Split(m.pre)))
  }

  predicate CoreFits(m: Captures)
    requires Shape(m)
  {
    Value(m.major) <= INT64_MAX && Value(m.minor) <= INT64_MAX && Value(m.patch) <= INT64_MAX
  }

  /** A valid name that the code reads as it is: the numbers fit int64 and no identifier is misread. */
  predicate NameInScope(m: Captures) {
    ValidName(m) && CoreFits(m) && (m.pre != "" ==> AllInScope(Split(m.pre)))
  }

  // ----- in scope the key order is the item-11 order -----

  lemma CoreOfVersion(m: Captures)
    requires Shape(m)
    ensures var x := VersionOf(m);
            && InRange(x)
            && x.major == (if Value(m.major) <= INT64_MAX then Value(m.major) else INT64_MAX)
            && x.minor == (if Value(m.minor) <= INT64_MAX then Value(m.minor) else INT64_MAX)
            && x.patch == (if Value(m.patch) <= INT64_MAX then Value(m.patch) else INT64_MAX)
            && x.preRelease == m.pre && x.buildMetadata == m.build
  {
    AtoiDigits(m.major);
    AtoiDigits(m.minor);
    AtoiDigits(m.patch);
  }

  lemma PreOrderIsItem11(p: string, q: string)
    requires (p != "" ==> AllInScope(Split(p))) && (q != "" ==> AllInScope(Split(q)))
    ensures StableFirst(p, q) < 0 <==> PreLess(p, q)
  {
    if p != "" && q != "" {
      KeyOrderIsItem11(p, q);
    } else if p == "" && q == "" {
      KeyOrderLaws(p, q, q);
    }
  }

  lemma OrderIsItem11(x: Captures, y: Captures)
    requires NameInScope(x) && NameInScope(y)
    ensures Order(VersionOf(x), VersionOf(y)) < 0 <==> NameLess(x, y)
  {
    var a, b := VersionOf(x), VersionOf(y);
    CoreOfVersion(x);
    CoreOfVersion(y);
    Lex3(CoreNumbers(a), CoreNumbers(b));
    PreOrderIsItem11(x.pre, y.pre);
    assert CoreNumbers(a) == CoreNumbers(b) <==> SameCore(x, y) by {
      if CoreNumbers(a) == CoreNumbers(b) {
        assert CoreNumbers(a)[0] == CoreNumbers(b)[0] && CoreNumbers(a)[1] == CoreNumbers(b)[1] && CoreNumbers(a)[2] == CoreNumbers(b)[2];
      }
    }
  }

  lemma InScopeIsNonNegative(m: Captures)
    requires NameInScope(m)
    ensures NonNegative(Split(m.pre))
  {
    if m.pre != "" { InScopeNonNegative(Split(m.pre)); }
  }

  // ----- the precedence of names as a comparison -----

  function CoreValues(m: Captures): seq<int> {
    if Shape(m) then [Value(m.major), Value(m.minor), Value(m.patch)] else [0, 0, 0]
  }

  function PreItemOrder(p: string, q: string): int {
    if p == "" && q != "" then 1 else if p != "" && q == "" then -1 else ItemOrder(Split(p), Split(q))
  }

  function NameOrder(x: Captures, y: Captures): int {
    if CoreValues(x) != CoreValues(y) then Lex(IntCmp, CoreValues(x), CoreValues(y)) else PreItemOrder(x.pre, y.pre)
  }

  lemma PreItemOrderLaws(a: string, b: string, c: string)
    ensures PreItemOrder(a, a) == 0 && PreItemOrder(a, b) == -PreItemOrder(b, a)
    ensures PreItemOrder(a, b) <= 0 && PreItemOrder(b, c) <= 0 ==> PreItemOrder(a, c) <= 0
  {
    ItemOrderLaws(Split(a), Split(b), Split(c));
  }

  lemma NameOrderLaws(x: Captures, y: Captures, z: Captures)
    ensures NameOrder(x, y) == -NameOrder(y, x)
    ensures NameOrder(x, y) <= 0 && NameOrder(y, z) <= 0 ==> NameOrder(x, z) <= 0
  {
    IntCmpTotal();
    var a, b, c := CoreValues(x), CoreValues(y), CoreValues(z);
    LexZero(IntCmp, a, b);
    LexZero(IntCmp, b, c);
    LexZero(IntCmp, a, c);
    LexFlip(IntCmp, a, b);
    PreItemOrderLaws(x.pre, y.pre, z.pre);
    if Lex(IntCmp, a, b) <= 0 && Lex(IntCmp, b, c) <= 0 {
      LexTransitive(IntCmp, a, b, c);
      if a == c && a != b { LexFlip(IntCmp, b, a); }
    }
  }

  lemma CoreValuesDecide(x: Captures, y: Captures)
    requires Shape(x) && Shape(y)
    ensures CoreValues(x) == CoreValues(y) <==> SameCore(x, y)
    ensures CoreValues(x) != CoreValues(y) ==> (Lex(IntCmp, CoreValues(x), CoreValues(y)) < 0 <==> CoreLess(x, y))
  {
    var a, b := CoreValues(x), CoreValues(y);
    Lex3(a, b);
    if a == b { assert a[0] == b[0] && a[1] == b[1] && a[2] == b[2]; }
  }

  lemma PreItemOrderExactly(p: string, q: string)
    requires (p != "" ==> AllValid(Split(p))) && (q != "" ==> AllValid(Split(q)))
    ensures PreItemOrder(p, q) < 0 <==> PreLess(p, q)
    ensures PreItemOrder(p, q) == 0 ==> p == q
  {
    if p != "" && q != "" {
      ItemOrderExactly(Split(p), Split(q));
      if Split(p) == Split(q) { SplitInjective(p, q); }
    } else {
      ItemOrderLaws(Split(p), Split(q), Split(q));
    }
  }

  lemma CoreValuesZero(x: Captures, y: Captures)
    requires CoreValues(x) != CoreValues(y)
    ensures Lex(IntCmp, CoreValues(x), CoreValues(y)) != 0
  {
    IntCmpTotal();
    LexZero(IntCmp, CoreValues(x), CoreValues(y));
  }

  /** On valid names it is the precedence of items 10 and 11; names of equal precedence have the same
      numbers and the same pre-release. */
  lemma NameOrderExactly(x: Captures, y: Captures)
    requires ValidName(x) && ValidName(y)
    ensures NameOrder(x, y) < 0 <==> NameLess(x, y)
    ensures NameOrder(x, y) == 0 ==> SameCore(x, y) && x.pre == y.pre
  {
    CoreValuesDecide(x, y);
    PreItemOrderExactly(x.pre, y.pre);
    if CoreValues(x) != CoreValues(y) { CoreValuesZero(x, y); }
  }

  // ----- out of scope -----

  function Numbered(major: nat, minor: nat, patch: nat, pre: string, build: string): Captures {
    Captures("", Itoa(major), Itoa(minor), Itoa(patch), pre, build)
  }

  lemma NumberedShape(major: nat, minor: nat, patch: nat, pre: string, build: string)
    requires Word(pre) && Word(build)
    ensures var m := Numbered(major, minor, patch, pre, build);
            Shape(m) && Value(m.major) == major && Value(m.minor) == minor && Value(m.patch) == patch
  {
    ItoaCanonical(major);
    ItoaCanonical(minor);
    ItoaCanonical(patch);
  }

  lemma {:induction false} PartsMakeWord(s: string)
    requires forall i, j :: 0 <= i < |Split(s)| && 0 <= j < |Split(s)[i]| ==> IdentifierChar(Split(s)[i][j])
    ensures Word(s)
  {
    if s != [] {
      SplitHasNoDots(s[1..]);
      var rest := Split(s[1..]);
      if s[0] == '.' {
        assert Split(s) == [""] + rest;
        forall i, j | 0 <= i < |rest| && 0 <= j < |rest[i]| ensures IdentifierChar(rest[i][j]) {
          assert Split(s)[i + 1] == rest[i];
        }
      } else {
        assert Split(s)[0] == [s[0]] + rest[0];
        assert IdentifierChar(Split(s)[0][0]);
        forall i, j | 0 <= i < |rest| && 0 <= j < |rest[i]| ensures IdentifierChar(rest[i][j]) {
          if i == 0 { assert Split(s)[0][j + 1] == rest[0][j]; } else { assert Split(s)[i] == rest[i]; }
        }
      }
      PartsMakeWord(s[1..]);
      assert s == [s[0]] + s[1..];
    }
  }

  lemma InScopeWord(s: string)
    requires AllInScope(Split(s))
    ensures Word(s) && s != ""
  {
    forall i, j | 0 <= i < |Split(s)| && 0 <= j < |Split(s)[i]| ensures IdentifierChar(Split(s)[i][j]) {
      assert InScope(Split(s)[i]);
    }
    PartsMakeWord(s);
    assert InScope(Split(s)[0]) by { SplitHasNoDots(s); }
  }

  /** The stable version with the largest numbers the code can tell apart from n's: n's own numbers up
      to the first one out of range, and the largest int64 from there on. */
  function Ceiling(n: Captures): Captures
    requires Shape(n)
  {
    var a, b, c := Value(n.major), Value(n.minor), Value(n.patch);
    if a > INT64_MAX then Numbered(INT64_MAX, INT64_MAX, INT64_MAX, "", n.build)
    else if b > INT64_MAX then Numbered(a, INT64_MAX, INT64_MAX, "", n.build)
    else Numbered(a, b, INT64_MAX, "", n.build)
  }

  lemma CeilingShape(n: Captures)
    requires Shape(n)
    ensures var m, a, b := Ceiling(n), Value(n.major), Value(n.minor);
            && Shape(m) && m.pre == "" && m.build == n.build
            && Value(m.major) == (if a > INT64_MAX then INT64_MAX else a)
            && Value(m.minor) == (if a > INT64_MAX || b > INT64_MAX then INT64_MAX else b)
            && Value(m.patch) == INT64_MAX
  {
    var a, b := Value(n.major), Value(n.minor);
    if a > INT64_MAX {
      NumberedShape(INT64_MAX, INT64_MAX, INT64_MAX, "", n.build);
    } else if b > INT64_MAX {
      NumberedShape(a, INT64_MAX, INT64_MAX, "", n.build);
    } else {
      NumberedShape(a, b, INT64_MAX, "", n.build);
    }
  }

  lemma AtMostStable(x: SemVer, y: SemVer)
    requires InRange(x) && InRange(y) && y.preRelease == ""
    requires x.major <= y.major && x.minor <= y.minor && x.patch <= y.patch
    ensures Compare(x, y) <= 0
  {
    assert ComparePre(x.preRelease, "") <= 0;
  }

  lemma CeilingOf(n: Captures)
    requires Shape(n) && !CoreFits(n)
    ensures NameInScope(Ceiling(n)) && NameLess(Ceiling(n), n)
    ensures Compare(VersionOf(n), VersionOf(Ceiling(n))) <= 0
  {
    CeilingShape(n);
    CoreOfVersion(n);
    CoreOfVersion(Ceiling(n));
    AtMostStable(VersionOf(n), VersionOf(Ceiling(n)));
  }

  /** Every valid name out of scope is ranked against one in scope in a way item 11 does not. */
  lemma OutOfScopeWitness(n: Captures) returns (m: Captures)
    requires ValidName(n) && !NameInScope(n)
    ensures Shape(m) && NameInScope(m) && m.build == n.build && (n.pre == "" ==> m.pre == "")
    ensures var c := Compare(VersionOf(n), VersionOf(m)); (c <= 0 && NameLess(m, n)) || (c > 0 && NameLess(n, m))
  {
    if !CoreFits(n) {
      m := Ceiling(n);
      CeilingOf(n);
    } else {
      var b := MisreadWitness(n.pre);
      InScopeWord(b);
      m := Numbered(Value(n.major), Value(n.minor), Value(n.patch), b, n.build);
      NumberedShape(Value(n.major), Value(n.minor), Value(n.patch), b, n.build);
      CoreOfVersion(n);
      CoreOfVersion(m);
    }
  }
}
