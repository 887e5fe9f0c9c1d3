/**
  comparePreRelease (registry/version.go): pre-release strings are split at dots and
  compared identifier by identifier. The numeric case returns numA - numB on 64-bit ints.
 */
module PreRelease {
  import opened Int64
  import opened Decimal
  import opened ThreeWay

  /** strings.Split(s, "."). */
  function Split(s: string): seq<string> {
    if s == [] then [""]
    else
      var rest := Split(s[1..]);
      if s[0] == '.' then [""] + rest else if rest == [] then [[s[0]]] else [[s[0]] + rest[0]] + rest[1..]
  }

  /** strings.Join(parts, "."). */
  function Join(parts: seq<string>): string {
    if parts == [] then "" else if |parts| == 1 then parts[0] else parts[0] + "." + Join(parts[1..])
  }

  lemma {:induction false} JoinSplit(s: string)
    ensures Split(s) != [] && Join(Split(s)) == s
  {
    if s != [] {
      JoinSplit(s[1..]);
      var rest := Split(s[1..]);
      assert s == [s[0]] + s[1..];
      if s[0] == '.' {
        assert ([""] + rest)[1..] == rest;
      } else {
        assert ([[s[0]] + rest[0]] + rest[1..])[1..] == rest[1..];
      }
    }
  }

  lemma SplitInjective(a: string, b: string)
    requires Split(a) == Split(b)
    ensures a == b
  {
    JoinSplit(a);
    JoinSplit(b);
  }

  function CharCmp(a: char, b: char): int {
    a as int - b as int
  }

  /** strings.Compare. */
  function StringCompare(a: string, b: string): int {
    Lex(CharCmp, a, b)
  }

  /** One identifier against another, as the body of the loop decides it; 0 means "go on". */
  function CompareIdentifier(a: string, b: string): int {
    var na, nb := Atoi(a), Atoi(b);
    if na.ok && nb.ok then (if na.value != nb.value then Wrap64(na.value - nb.value) else 0)
    else if na.ok then -1
    else if nb.ok then 1
    else StringCompare(a, b)
  }

  function CompareFrom(a: seq<string>, b: seq<string>, i: nat): int
    requires i <= |a| || i <= |b|
    decreases |a| + |b| - i
  {
    if i >= |a| && i >= |b| then 0
    else if i >= |a| then -1
    else if i >= |b| then 1
    else
      var c := CompareIdentifier(a[i], b[i]);
      if c != 0 then c else CompareFrom(a, b, i + 1)
  }

  function ComparePreRelease(a: string, b: string): int {
    if a == b then 0 else CompareFrom(Split(a), Split(b), 0)
  }

  // ----- the key order, without overflow -----

  /** What an identifier is compared by: the number Atoi reads, or the text. */
  datatype Key = Num(n: int) | Text(s: string)

  function KeyOf(id: string): Key {
    if Atoi(id).ok then Num(Atoi(id).value) else Text(id)
  }

  function KeyCmp(a: Key, b: Key): int {
    match (a, b)
    case (Num(x), Num(y)) => x - y
    case (Num(_), Text(_)) => -1
    case (Text(_), Num(_)) => 1
    case (Text(s), Text(t)) => StringCompare(s, t)
  }

  lemma CharCmpTotal()
    ensures Total(CharCmp)
  {
    forall a: char, b: char ensures CharCmp(a, b) == 0 <==> a == b {
      assert a as int == b as int ==> a == b;
    }
  }

  lemma KeyCmpTotal()
    ensures Total(KeyCmp)
  {
    CharCmpTotal();
    forall a, b ensures (KeyCmp(a, b) == 0 <==> a == b) && (KeyCmp(a, b) < 0 <==> KeyCmp(b, a) > 0) {
      if a.Text? && b.Text? {
        LexZero(CharCmp, a.s, b.s);
        LexFlip(CharCmp, a.s, b.s);
      }
    }
    forall a, b, c | KeyCmp(a, b) <= 0 && KeyCmp(b, c) <= 0 ensures KeyCmp(a, c) <= 0 {
      if a.Text? && b.Text? && c.Text? { LexTransitive(CharCmp, a.s, b.s, c.s); }
    }
  }

  function Keys(parts: seq<string>): (keys: seq<Key>)
    ensures |keys| == |parts|
  {
    seq(|parts|, i requires 0 <= i < |parts| => KeyOf(parts[i]))
  }

  /** The order of the keys: what comparePreRelease computes as long as no difference overflows. It is
      not item 11 of Semantic Versioning 2.0.0; see module Item11. */
  function KeyOrder(a: string, b: string): int {
    Lex(KeyCmp, Keys(Split(a)), Keys(Split(b)))
  }

  /** The first pair of identifiers that differ, if both are numbers, is too far apart for int64. */
  predicate DecisionOverflows(a: seq<string>, b: seq<string>)
    decreases |a|
  {
    && a != [] && b != []
    && if KeyOf(a[0]) == KeyOf(b[0]) then DecisionOverflows(a[1..], b[1..])
       else KeyOf(a[0]).Num? && KeyOf(b[0]).Num? && !Fits(KeyOf(a[0]).n - KeyOf(b[0]).n)
  }

  lemma AtoiFits(s: string)
    ensures Fits(Atoi(s).value)
  {
  }

  /** One identifier: the sign is right exactly when the difference fits. */
  lemma IdentifierSign(a: string, b: string)
    ensures CompareIdentifier(a, b) == 0 <==> KeyOf(a) == KeyOf(b)
    ensures Sign(CompareIdentifier(a, b)) == Sign(KeyCmp(KeyOf(a), KeyOf(b))) <==>
            !(KeyOf(a).Num? && KeyOf(b).Num? && !Fits(KeyOf(a).n - KeyOf(b).n))
  {
    AtoiFits(a);
    AtoiFits(b);
    WrappedDifference(Atoi(a).value, Atoi(b).value);
    KeyCmpTotal();
    assert KeyCmp(KeyOf(a), KeyOf(b)) == 0 <==> KeyOf(a) == KeyOf(b);
  }

  lemma {:induction false} CompareFromTail(a: seq<string>, b: seq<string>, i: nat)
    requires i <= |a| && i <= |b|
    ensures CompareFrom(a, b, i) == CompareFrom(a[i..], b[i..], 0)
    decreases |a| - i
  {
    if i < |a| && i < |b| {
      CompareFromTail(a, b, i + 1);
      CompareFromTail(a[i..], b[i..], 1);
      assert a[i..][1..] == a[i + 1..] && b[i..][1..] == b[i + 1..];
    }
  }

  lemma {:induction false} CompareSign(a: seq<string>, b: seq<string>)
    ensures Sign(CompareFrom(a, b, 0)) == Lex(KeyCmp, Keys(a), Keys(b)) <==> !DecisionOverflows(a, b)
    decreases |a|
  {
    if a != [] && b != [] {
      IdentifierSign(a[0], b[0]);
      KeyCmpTotal();
      assert KeyCmp(KeyOf(a[0]), KeyOf(b[0])) == 0 <==> KeyOf(a[0]) == KeyOf(b[0]);
      CompareFromTail(a, b, 1);
      CompareSign(a[1..], b[1..]);
      assert Keys(a)[1..] == Keys(a[1..]) && Keys(b)[1..] == Keys(b[1..]);
    }
  }

  lemma {:induction false} NoOverflowOnSelf(a: seq<string>)
    ensures !DecisionOverflows(a, a)
    decreases |a|
  {
    if a != [] { NoOverflowOnSelf(a[1..]); }
  }

  /** comparePreRelease has the sign of the key order exactly when the deciding numeric
      difference does not overflow. */
  lemma ComparesByKeys(a: string, b: string)
    ensures Sign(ComparePreRelease(a, b)) == KeyOrder(a, b) <==> !DecisionOverflows(Split(a), Split(b))
  {
    CompareSign(Split(a), Split(b));
    if a == b {
      NoOverflowOnSelf(Split(a));
      KeyCmpTotal();
      LexZero(KeyCmp, Keys(Split(a)), Keys(Split(b)));
    }
  }

  /** The key order is a total preorder: equal up to the numbers read, sign-antisymmetric,
      transitive. */
  lemma KeyOrderLaws(a: string, b: string, c: string)
    ensures KeyOrder(a, b) == 0 <==> Keys(Split(a)) == Keys(Split(b))
    ensures KeyOrder(a, b) == -KeyOrder(b, a)
    ensures KeyOrder(a, b) <= 0 && KeyOrder(b, c) <= 0 ==> KeyOrder(a, c) <= 0
  {
    KeyCmpTotal();
    LexZero(KeyCmp, Keys(Split(a)), Keys(Split(b)));
    LexFlip(KeyCmp, Keys(Split(a)), Keys(Split(b)));
    if KeyOrder(a, b) <= 0 && KeyOrder(b, c) <= 0 {
      LexTransitive(KeyCmp, Keys(Split(a)), Keys(Split(b)), Keys(Split(c)));
    }
  }

  // ----- the comparison sees only the keys -----

  lemma KeysCons(a: seq<string>)
    requires a != []
    ensures Keys(a) == [KeyOf(a[0])] + Keys(a[1..]) && Keys(a)[0] == KeyOf(a[0]) && Keys(a)[1..] == Keys(a[1..])
  {
  }

  lemma SameKeyIdentifier(a: string, a': string, b: string)
    requires KeyOf(a) == KeyOf(a')
    ensures CompareIdentifier(a, b) == CompareIdentifier(a', b) && CompareIdentifier(b, a) == CompareIdentifier(b, a')
  {
  }

  lemma {:induction false} CompareFromZero(a: seq<string>, b: seq<string>)
    ensures CompareFrom(a, b, 0) == 0 <==> Keys(a) == Keys(b)
    decreases |a|
  {
    if a != [] && b != [] {
      IdentifierSign(a[0], b[0]);
      CompareFromTail(a, b, 1);
      CompareFromZero(a[1..], b[1..]);
      KeysCons(a);
      KeysCons(b);
    }
  }

  lemma {:induction false} SameKeysLeft(a: seq<string>, a': seq<string>, b: seq<string>, i: nat)
    requires Keys(a) == Keys(a') && |a| == |a'| && (i <= |a| || i <= |b|)
    ensures CompareFrom(a, b, i) == CompareFrom(a', b, i)
    decreases |a| + |b| - i
  {
    if i < |a| && i < |b| {
      assert KeyOf(a[i]) == Keys(a)[i] == Keys(a')[i] == KeyOf(a'[i]);
      SameKeyIdentifier(a[i], a'[i], b[i]);
      SameKeysLeft(a, a', b, i + 1);
    }
  }

  lemma {:induction false} SameKeysRight(a: seq<string>, a': seq<string>, b: seq<string>, i: nat)
    requires Keys(a) == Keys(a') && |a| == |a'| && (i <= |a| || i <= |b|)
    ensures CompareFrom(b, a, i) == CompareFrom(b, a', i)
    decreases |a| + |b| - i
  {
    if i < |a| && i < |b| {
      assert KeyOf(a[i]) == Keys(a)[i] == Keys(a')[i] == KeyOf(a'[i]);
      SameKeyIdentifier(a[i], a'[i], b[i]);
      SameKeysRight(a, a', b, i + 1);
    }
  }

  lemma ShortcutAgrees(a: string, b: string)
    ensures ComparePreRelease(a, b) == CompareFrom(Split(a), Split(b), 0)
  {
    CompareFromZero(Split(a), Split(b));
  }

  /** Pre-releases with equal keys compare as 0, only those do, and they compare alike with
      every other pre-release; this holds with overflow too. */
  lemma EqualKeys(a: string, a': string, b: string)
    ensures ComparePreRelease(a, a') == 0 <==> KeyOrder(a, a') == 0
    ensures KeyOrder(a, a') == 0 ==>
              ComparePreRelease(a, b) == ComparePreRelease(a', b) && ComparePreRelease(b, a) == ComparePreRelease(b, a')
  {
    ShortcutAgrees(a, a');
    ShortcutAgrees(a, b);
    ShortcutAgrees(a', b);
    ShortcutAgrees(b, a);
    ShortcutAgrees(b, a');
    CompareFromZero(Split(a), Split(a'));
    KeyOrderLaws(a, a', b);
    if KeyOrder(a, a') == 0 {
      assert |Split(a)| == |Keys(Split(a))| == |Split(a')|;
      SameKeysLeft(Split(a), Split(a'), Split(b), 0);
      SameKeysRight(Split(a), Split(a'), Split(b), 0);
    }
  }

  /** No identifier reads as a negative number, that is, as a hyphen followed only by digits. */
  predicate NonNegative(parts: seq<string>) {
    forall i :: 0 <= i < |parts| && Atoi(parts[i]).ok ==> Atoi(parts[i]).value >= 0
  }

  lemma {:induction false} NonNegativeNeverOverflows(a: seq<string>, b: seq<string>)
    requires NonNegative(a) && NonNegative(b)
    ensures !DecisionOverflows(a, b)
    decreases |a|
  {
    if a != [] && b != [] {
      AtoiFits(a[0]);
      AtoiFits(b[0]);
      NonNegativeNeverOverflows(a[1..], b[1..]);
    }
  }
}
