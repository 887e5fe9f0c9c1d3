/**
  The pre-release order of comparePreRelease against items 9 and 11 of Semantic
  Versioning 2.0.0, stated here independently of the code.
 */
module Item11 {
  import opened Int64
  import opened Decimal
  import opened ThreeWay
  import opened PreRelease

  predicate IdentifierChar(c: char) {
    IsDigit(c) || 'A' <= c <= 'Z' || 'a' <= c <= 'z' || c == '-'
  }

  /** Item 9: non-empty, alphanumerics and hyphens, numeric ones without leading zeros. */
  predicate ValidIdentifier(s: string) {
    && s != []
    && (forall i :: 0 <= i < |s| ==> IdentifierChar(s[i]))
    && (AllDigits(s) ==> Canonical(s))
  }

  predicate HyphenDigits(s: string) {
    |s| > 1 && s[0] == '-' && AllDigits(s[1..])
  }

  /** What Atoi takes for something else than item 11 does: a hyphen and digits that fit int64, which
      it reads as a number, and a numeral that does not fit, which it does not. */
  predicate Misread(s: string) {
    || (HyphenDigits(s) && Value(s[1..]) <= INT64_MAX + 1)
    || (AllDigits(s) && Value(s) > INT64_MAX)
  }

  predicate InScope(s: string) {
    ValidIdentifier(s) && !Misread(s)
  }

  predicate AllValid(parts: seq<string>) {
    forall i :: 0 <= i < |parts| ==> ValidIdentifier(parts[i])
  }

  predicate AllInScope(parts: seq<string>) {
    forall i :: 0 <= i < |parts| ==> InScope(parts[i])
  }

  /** Lexical order in ASCII: decided at the first difference, or by being a proper prefix. */
  ghost predicate TextLess(x: string, y: string) {
    exists k: nat :: k <= |x| && k <= |y| && x[..k] == y[..k] &&
      (k == |x| < |y| || (k < |x| && k < |y| && x[k] < y[k]))
  }

  /** Item 11.4, points 1 to 3. */
  ghost predicate IdentifierLess(x: string, y: string) {
    if AllDigits(x) && AllDigits(y) then Value(x) < Value(y)
    else if AllDigits(x) || AllDigits(y) then AllDigits(x)
    else TextLess(x, y)
  }

  /** Item 11.4: decided at the first differing identifier; fewer fields come first. */
  ghost predicate Precedes(a: seq<string>, b: seq<string>) {
    exists k: nat :: k <= |a| && k <= |b| && a[..k] == b[..k] &&
      (k == |a| < |b| || (k < |a| && k < |b| && IdentifierLess(a[k], b[k])))
  }

  lemma TextLessIsCompare(x: string, y: string)
    ensures TextLess(x, y) <==> StringCompare(x, y) < 0
  {
    CharCmpTotal();
    LexFirstDifference(CharCmp, x, y);
    if TextLess(x, y) {
      var k: nat :| k <= |x| && k <= |y| && x[..k] == y[..k] &&
        (k == |x| < |y| || (k < |x| && k < |y| && x[k] < y[k]));
      assert Before(CharCmp, x, y, k);
    }
    if k: nat :| Before(CharCmp, x, y, k) {
      assert k <= |x| && k <= |y| && x[..k] == y[..k];
    }
  }

  // ----- item 11 as a lexicographic order -----

  /** What item 11 compares an identifier by. */
  function ItemKey(id: string): Key {
    if AllDigits(id) then Num(Value(id)) else Text(id)
  }

  function ItemKeys(parts: seq<string>): (keys: seq<Key>)
    ensures |keys| == |parts|
  {
    seq(|parts|, i requires 0 <= i < |parts| => ItemKey(parts[i]))
  }

  function ItemOrder(a: seq<string>, b: seq<string>): int {
    Lex(KeyCmp, ItemKeys(a), ItemKeys(b))
  }

  lemma ValidLess(x: string, y: string)
    requires ValidIdentifier(x) && ValidIdentifier(y)
    ensures IdentifierLess(x, y) <==> KeyCmp(ItemKey(x), ItemKey(y)) < 0
    ensures ItemKey(x) == ItemKey(y) <==> x == y
  {
    TextLessIsCompare(x, y);
    if AllDigits(x) && AllDigits(y) && Value(x) == Value(y) { CanonicalInjective(x, y); }
  }

  lemma ItemKeysEqual(a: seq<string>, b: seq<string>)
    requires AllValid(a) && AllValid(b)
    ensures ItemKeys(a) == ItemKeys(b) <==> a == b
  {
    if ItemKeys(a) == ItemKeys(b) {
      forall i | 0 <= i < |a| ensures a[i] == b[i] {
        assert ItemKeys(a)[i] == ItemKeys(b)[i];
        ValidLess(a[i], b[i]);
      }
    }
  }

  lemma PrecedesAt(a: seq<string>, b: seq<string>, k: nat)
    requires AllValid(a) && AllValid(b)
    ensures Before(KeyCmp, ItemKeys(a), ItemKeys(b), k) <==>
            (k <= |a| && k <= |b| && a[..k] == b[..k] &&
             (k == |a| < |b| || (k < |a| && k < |b| && IdentifierLess(a[k], b[k]))))
  {
    if k <= |a| && k <= |b| {
      assert ItemKeys(a)[..k] == ItemKeys(a[..k]) && ItemKeys(b)[..k] == ItemKeys(b[..k]);
      ItemKeysEqual(a[..k], b[..k]);
      if k < |a| && k < |b| { ValidLess(a[k], b[k]); }
    }
  }

  /** On valid identifiers item 11 is the lexicographic order of its own keys, and total. */
  lemma ItemOrderExactly(a: seq<string>, b: seq<string>)
    requires AllValid(a) && AllValid(b)
    ensures ItemOrder(a, b) < 0 <==> Precedes(a, b)
    ensures ItemOrder(a, b) == 0 <==> a == b
  {
    KeyCmpTotal();
    LexFirstDifference(KeyCmp, ItemKeys(a), ItemKeys(b));
    forall k: nat
      ensures Before(KeyCmp, ItemKeys(a), ItemKeys(b), k) <==>
              (k <= |a| && k <= |b| && a[..k] == b[..k] &&
               (k == |a| < |b| || (k < |a| && k < |b| && IdentifierLess(a[k], b[k]))))
    {
      PrecedesAt(a, b, k);
    }
    LexZero(KeyCmp, ItemKeys(a), ItemKeys(b));
    ItemKeysEqual(a, b);
  }

  lemma ItemOrderLaws(a: seq<string>, b: seq<string>, c: seq<string>)
    ensures ItemOrder(a, a) == 0 && ItemOrder(a, b) == -ItemOrder(b, a)
    ensures ItemOrder(a, b) <= 0 && ItemOrder(b, c) <= 0 ==> ItemOrder(a, c) <= 0
  {
    KeyCmpTotal();
    LexZero(KeyCmp, ItemKeys(a), ItemKeys(a));
    LexFlip(KeyCmp, ItemKeys(a), ItemKeys(b));
    if ItemOrder(a, b) <= 0 && ItemOrder(b, c) <= 0 {
      LexTransitive(KeyCmp, ItemKeys(a), ItemKeys(b), ItemKeys(c));
    }
  }

  // ----- where the code follows it -----

  /** In scope, the code compares an identifier by what item 11 compares it by. */
  lemma ScopeKey(s: string)
    requires InScope(s)
    ensures KeyOf(s) == ItemKey(s)
  {
    if AllDigits(s) { AtoiDigits(s); }
    assert IdentifierChar(s[0]);
  }

  lemma ScopeKeys(parts: seq<string>)
    requires AllInScope(parts)
    ensures Keys(parts) == ItemKeys(parts) && AllValid(parts)
  {
    forall i | 0 <= i < |parts| ensures KeyOf(parts[i]) == ItemKey(parts[i]) && ValidIdentifier(parts[i]) {
      ScopeKey(parts[i]);
    }
  }

  /** In scope, the key order is item 11. */
  lemma KeyOrderIsItem11(a: string, b: string)
    requires AllInScope(Split(a)) && AllInScope(Split(b))
    ensures KeyOrder(a, b) < 0 <==> Precedes(Split(a), Split(b))
    ensures KeyOrder(a, b) == 0 <==> a == b
  {
    ScopeKeys(Split(a));
    ScopeKeys(Split(b));
    ItemOrderExactly(Split(a), Split(b));
    if Split(a) == Split(b) { SplitInjective(a, b); }
  }

  lemma InScopeSign(a: string, b: string)
    requires AllInScope(Split(a)) && AllInScope(Split(b))
    ensures Sign(ComparePreRelease(a, b)) == KeyOrder(a, b)
  {
    InScopeNonNegative(Split(a));
    InScopeNonNegative(Split(b));
    NonNegativeNeverOverflows(Split(a), Split(b));
    ComparesByKeys(a, b);
  }

  /** The comparison of a and b is item 11's. */
  ghost predicate Agrees(a: string, b: string) {
    && (ComparePreRelease(a, b) < 0 <==> Precedes(Split(a), Split(b)))
    && (ComparePreRelease(a, b) > 0 <==> Precedes(Split(b), Split(a)))
  }

  /** On valid identifiers none of which is misread, comparePreRelease is item 11, and 0 means the
      same string. */
  lemma FollowsItem11(a: string, b: string)
    requires AllInScope(Split(a)) && AllInScope(Split(b))
    ensures Agrees(a, b) && (ComparePreRelease(a, b) == 0 <==> a == b)
  {
    InScopeSign(a, b);
    KeyOrderIsItem11(a, b);
    KeyOrderIsItem11(b, a);
    KeyOrderLaws(a, b, b);
  }

  lemma InScopeNonNegative(parts: seq<string>)
    requires AllInScope(parts)
    ensures NonNegative(parts)
  {
    forall i | 0 <= i < |parts| && Atoi(parts[i]).ok ensures Atoi(parts[i]).value >= 0 {
      ScopeKey(parts[i]);
    }
  }

  // ----- outside the scope -----

  /** A misread identifier compares the wrong way with one in scope. */
  lemma MisreadDisagrees(s: string) returns (w: string)
    requires ValidIdentifier(s) && Misread(s)
    ensures InScope(w)
    ensures (IdentifierLess(w, s) && CompareIdentifier(s, w) < 0) || (IdentifierLess(s, w) && CompareIdentifier(s, w) > 0)
  {
    if AllDigits(s) {
      w := "-a";
      assert !IsDigit(w[0]) && !IsDigit(w[1..][0]);
      AtoiDigits(s);
      assert IsDigit(s[0]);
    } else {
      w := if Value(s[1..]) == 0 then "1" else "0";
      assert w[..0] == [];
      assert Value(w) == 10 * Value(w[..0]) + DigitValue(w[0]);
      assert !IsDigit(s[0]);
    }
  }

  lemma {:induction false} SplitHasNoDots(s: string)
    ensures Split(s) != []
    ensures forall i :: 0 <= i < |Split(s)| ==> '.' !in Split(s)[i]
  {
    if s != [] { SplitHasNoDots(s[1..]); }
  }

  lemma {:induction false} SplitJoin(parts: seq<string>)
    requires parts != [] && forall i :: 0 <= i < |parts| ==> '.' !in parts[i]
    ensures Split(Join(parts)) == parts
    decreases |parts|
  {
    if |parts| == 1 {
      SplitWithoutDot(parts[0]);
    } else {
      SplitJoin(parts[1..]);
      SplitAtDot(parts[0], Join(parts[1..]));
      assert parts == [parts[0]] + parts[1..];
    }
  }

  lemma {:induction false} SplitAtDot(x: string, rest: string)
    requires '.' !in x
    ensures Split(x + "." + rest) == [x] + Split(rest)
  {
    var s := x + "." + rest;
    if x == [] {
      assert s == "." + rest && s[1..] == rest;
    } else {
      assert s[1..] == x[1..] + "." + rest;
      SplitAtDot(x[1..], rest);
      assert x == [x[0]] + x[1..];
      assert ([x[1..]] + Split(rest))[1..] == Split(rest);
    }
  }

  lemma {:induction false} SkipEqual(a: seq<string>, b: seq<string>, k: nat)
    requires k <= |a| && k <= |b| && a[..k] == b[..k]
    ensures CompareFrom(a, b, 0) == CompareFrom(a, b, k)
  {
    if k > 0 {
      assert a[..k - 1] == a[..k][..k - 1] && b[..k - 1] == b[..k][..k - 1];
      SkipEqual(a, b, k - 1);
      assert a[k - 1] == a[..k][k - 1] == b[..k][k - 1] == b[k - 1];
      IdentifierSign(a[k - 1], b[k - 1]);
    }
  }

  lemma ValidHasNoDot(s: string)
    requires ValidIdentifier(s)
    ensures '.' !in s
  {
    forall i | 0 <= i < |s| ensures s[i] != '.' {
      assert IdentifierChar(s[i]);
    }
  }

  lemma FirstMisread(parts: seq<string>) returns (k: nat)
    requires AllValid(parts) && !AllInScope(parts)
    ensures k < |parts| && Misread(parts[k]) && AllInScope(parts[..k])
  {
    k := 0;
    while InScope(parts[k])
      invariant k < |parts| && AllInScope(parts[..k])
      invariant exists j :: k <= j < |parts| && !InScope(parts[j])
      decreases |parts| - k
    {
      k := k + 1;
    }
  }

  /** A pre-release with a misread identifier is compared wrongly with one that has none. */
  lemma MisreadWitness(a: string) returns (b: string)
    requires AllValid(Split(a)) && !AllInScope(Split(a))
    ensures AllInScope(Split(b))
    ensures (ComparePreRelease(a, b) < 0 && Precedes(Split(b), Split(a))) || (ComparePreRelease(a, b) > 0 && Precedes(Split(a), Split(b)))
  {
    var pa := Split(a);
    var k := FirstMisread(pa);
    var w := MisreadDisagrees(pa[k]);
    var pb := pa[..k] + [w];
    forall i | 0 <= i < |pb| ensures '.' !in pb[i] { ValidHasNoDot(pb[i]); }
    b := Join(pb);
    SplitJoin(pb);
    ShortcutAgrees(a, b);
    assert pa[..k] == pb[..k];
    SkipEqual(pa, pb, k);
    assert CompareFrom(pa, pb, k) == CompareIdentifier(pa[k], w);
  }

  /** A valid pre-release is compared as item 11 says with every one in scope exactly when none of its
      own identifiers is misread. */
  lemma FollowsItem11Exactly(a: string)
    requires AllValid(Split(a))
    ensures (forall b :: AllInScope(Split(b)) ==> Agrees(a, b)) <==> AllInScope(Split(a))
  {
    if AllInScope(Split(a)) {
      forall b | AllInScope(Split(b)) ensures Agrees(a, b) { FollowsItem11(a, b); }
    } else {
      var b := MisreadWitness(a);
      assert !Agrees(a, b);
    }
  }

  lemma {:induction false} SplitWithoutDot(s: string)
    requires forall i :: 0 <= i < |s| ==> s[i] != '.'
    ensures Split(s) == [s]
  {
    if s != [] {
      SplitWithoutDot(s[1..]);
      assert s == [s[0]] + s[1..];
    }
  }

  /** A hyphen and digits is alphanumeric to item 11 but a negative number to the code. */
  lemma HyphenDigitsReversed()
    ensures ValidIdentifier("-1") && ValidIdentifier("-2")
    ensures Precedes(["-1"], ["-2"]) && ComparePreRelease("-1", "-2") > 0
  {
    SplitWithoutDot("-1");
    SplitWithoutDot("-2");
    SmallNegative('1');
    SmallNegative('2');
    assert "-1"[..1] == "-2"[..1];
    assert TextLess("-1", "-2");
    assert IdentifierLess(["-1"][0], ["-2"][0]);
    assert ["-1"][..0] == ["-2"][..0];
  }

  lemma SmallNegative(d: char)
    requires IsDigit(d)
    ensures Atoi(['-', d]) == Parsed(-(DigitValue(d) as int), true)
  {
    assert ['-', d][1..] == [d] && [d][..0] == [];
    assert Value([d]) == 10 * Value([]) + DigitValue(d);
  }

  lemma Numeral(n: nat) returns (s: string)
    requires n <= INT64_MAX
    ensures ValidIdentifier(s) && Atoi(s) == Parsed(n, true) && Split(s) == [s]
  {
    s := Itoa(n);
    ItoaCanonical(n);
    AtoiDigits(s);
    SplitWithoutDot(s);
  }

  lemma SingleIdentifiers(a: string, b: string)
    requires Split(a) == [a] && Split(b) == [b] && CompareIdentifier(a, b) != 0
    ensures ComparePreRelease(a, b) == CompareIdentifier(a, b)
  {
    if a == b { IdentifierSign(a, b); }
  }

  /** Three identifiers in a cycle: the largest int64 compares below -2, -2 below 0, and 0 below
      the largest int64. */
  lemma OverflowCycle() returns (big: string, zero: string)
    ensures ValidIdentifier(big) && ValidIdentifier("-2") && ValidIdentifier(zero)
    ensures ComparePreRelease(big, "-2") < 0 && ComparePreRelease("-2", zero) < 0 && ComparePreRelease(zero, big) < 0
  {
    big := Numeral(INT64_MAX);
    zero := Numeral(0);
    SplitWithoutDot("-2");
    SmallNegative('2');
    assert Wrap64(INT64_MAX + 2) < 0;
    SingleIdentifiers(big, "-2");
    SingleIdentifiers("-2", zero);
    SingleIdentifiers(zero, big);
  }
}
