/**
  The running-maximum loop shared by FindLatestSemVerWithSlot and FindLatestCalVerWithSlot:
  keep the first candidate, replace it only by one that compares greater. The comparison may
  be wrong on some pairs; this module says exactly when the loop still finds a maximum.
 */
module FirstMaximum {
  import opened Basics

  /** The loop's answer on s. */
  function Pick<T>(ok: T -> bool, cmp: (T, T) -> int, s: seq<T>): Option<T> {
    if s == [] then None
    else
      var best := Pick(ok, cmp, s[..|s| - 1]);
      var x := s[|s| - 1];
      if ok(x) && (best.None? || cmp(x, best.value) > 0) then Some(x) else best
  }

  /** order is a total preorder of the candidates. */
  ghost predicate Preorder<T(!new)>(ok: T -> bool, order: (T, T) -> int) {
    && (forall x, y :: ok(x) && ok(y) ==> order(x, y) == -order(y, x))
    && (forall x, y, z :: ok(x) && ok(y) && ok(z) && order(x, y) <= 0 && order(y, z) <= 0 ==> order(x, z) <= 0)
  }

  /** cmp does not tell equals apart: it is zero on them, and compares them alike with all others. */
  ghost predicate Respects<T(!new)>(ok: T -> bool, cmp: (T, T) -> int, order: (T, T) -> int) {
    && (forall x, y :: ok(x) && ok(y) && order(x, y) == 0 ==> cmp(x, y) == 0)
    && (forall x, y, z :: ok(x) && ok(y) && ok(z) && order(x, y) == 0 ==> cmp(x, z) == cmp(y, z) && cmp(z, x) == cmp(z, y))
  }

  ghost predicate Right<T>(cmp: (T, T) -> int, order: (T, T) -> int, x: T, y: T) {
    cmp(x, y) > 0 <==> order(x, y) > 0
  }

  ghost predicate Maximal<T(!new)>(ok: T -> bool, order: (T, T) -> int, s: seq<T>, m: T) {
    m in s && ok(m) && forall y :: y in s && ok(y) ==> order(y, m) <= 0
  }

  /** The maxima compare correctly, both ways round, with every candidate. */
  ghost predicate Safe<T(!new)>(ok: T -> bool, cmp: (T, T) -> int, order: (T, T) -> int, s: seq<T>) {
    forall m, x :: Maximal(ok, order, s, m) && x in s && ok(x) ==> Right(cmp, order, x, m) && Right(cmp, order, m, x)
  }

  ghost predicate Any<T(!new)>(ok: T -> bool, s: seq<T>) {
    exists x :: x in s && ok(x)
  }

  /** The loop fails exactly when there is no candidate, and otherwise answers with one of the list. */
  lemma {:induction false} PickFails<T(!new)>(ok: T -> bool, cmp: (T, T) -> int, s: seq<T>)
    ensures Pick(ok, cmp, s).None? <==> !Any(ok, s)
    ensures Pick(ok, cmp, s).Some? ==> Pick(ok, cmp, s).value in s && ok(Pick(ok, cmp, s).value)
  {
    if s != [] {
      var p, x := s[..|s| - 1], s[|s| - 1];
      PickFails(ok, cmp, p);
      assert s == p + [x];
      if y :| y in s && ok(y) { assert y in p || y == x; }
      assert ok(x) ==> x in s;
    }
  }

  lemma {:induction false} HasMaximal<T(!new)>(ok: T -> bool, order: (T, T) -> int, s: seq<T>) returns (m: T)
    requires Preorder(ok, order) && Any(ok, s)
    ensures Maximal(ok, order, s, m)
  {
    var p, x := s[..|s| - 1], s[|s| - 1];
    assert s == p + [x];
    if Any(ok, p) {
      m := HasMaximal(ok, order, p);
      if ok(x) && order(x, m) > 0 {
        forall y | y in s && ok(y) ensures order(y, x) <= 0 {
          if y in p { assert order(y, m) <= 0 && order(m, x) <= 0; }
        }
        m := x;
      }
    } else {
      m := x;
      var y :| y in s && ok(y);
      assert y == x;
    }
  }

  lemma FirstIndex<T(!new)>(ok: T -> bool, order: (T, T) -> int, s: seq<T>, m: T) returns (k: nat)
    requires Maximal(ok, order, s, m)
    ensures k < |s| && Maximal(ok, order, s, s[k])
    ensures forall j :: 0 <= j < k ==> !Maximal(ok, order, s, s[j])
  {
    k := 0;
    while !Maximal(ok, order, s, s[k])
      invariant k < |s|
      invariant forall j :: 0 <= j < k ==> !Maximal(ok, order, s, s[j])
      invariant exists j :: k <= j < |s| && s[j] == m
      decreases |s| - k
    {
      k := k + 1;
    }
  }

  lemma NotMaximal<T(!new)>(ok: T -> bool, order: (T, T) -> int, s: seq<T>, m: T, y: T)
    requires Preorder(ok, order) && Maximal(ok, order, s, m) && y in s && ok(y) && !Maximal(ok, order, s, y)
    ensures order(y, m) < 0
  {
    var z :| z in s && ok(z) && order(z, y) > 0;
    assert order(z, m) <= 0;
  }

  /** s[k] is a maximum, and every candidate before it is strictly lower. */
  ghost predicate FirstMaximumAt<T(!new)>(ok: T -> bool, order: (T, T) -> int, s: seq<T>, k: nat) {
    && k < |s| && Maximal(ok, order, s, s[k])
    && forall j :: 0 <= j < k && ok(s[j]) ==> order(s[j], s[k]) < 0
  }

  lemma {:induction false} KeepsFirst<T(!new)>(ok: T -> bool, cmp: (T, T) -> int, order: (T, T) -> int, s: seq<T>, k: nat, i: nat)
    requires Safe(ok, cmp, order, s) && FirstMaximumAt(ok, order, s, k) && Preorder(ok, order) && k < i <= |s|
    ensures Pick(ok, cmp, s[..i]) == Some(s[k])
  {
    var p := s[..i - 1];
    assert s[..i][..i - 1] == p;
    if i == k + 1 {
      PickFails(ok, cmp, p);
      if Pick(ok, cmp, p).Some? {
        var y := Pick(ok, cmp, p).value;
        assert order(y, s[k]) < 0 && Right(cmp, order, s[k], y);
      }
    } else {
      KeepsFirst(ok, cmp, order, s, k, i - 1);
      assert ok(s[i - 1]) ==> Right(cmp, order, s[i - 1], s[k]);
    }
  }

  /** When the maxima compare correctly, the answer is the first of them. */
  lemma PicksFirstMaximum<T(!new)>(ok: T -> bool, cmp: (T, T) -> int, order: (T, T) -> int, s: seq<T>) returns (k: nat)
    requires Safe(ok, cmp, order, s) && Preorder(ok, order) && Any(ok, s)
    ensures FirstMaximumAt(ok, order, s, k) && Pick(ok, cmp, s) == Some(s[k])
  {
    var m := HasMaximal(ok, order, s);
    k := FirstIndex(ok, order, s, m);
    forall j | 0 <= j < k && ok(s[j]) ensures order(s[j], s[k]) < 0 {
      NotMaximal(ok, order, s, s[k], s[j]);
    }
    KeepsFirst(ok, cmp, order, s, k, |s|);
    assert s[..|s|] == s;
  }

  /** The answer depends only on which elements of the list are candidates. */
  lemma {:induction false} PickSame<T(!new)>(ok: T -> bool, ok': T -> bool, cmp: (T, T) -> int, s: seq<T>)
    requires forall x :: x in s ==> (ok(x) <==> ok'(x))
    ensures Pick(ok, cmp, s) == Pick(ok', cmp, s)
  {
    if s != [] { PickSame(ok, ok', cmp, s[..|s| - 1]); }
  }

  lemma MaximalSame<T(!new)>(ok: T -> bool, ok': T -> bool, order: (T, T) -> int, s: seq<T>)
    requires forall x :: x in s ==> (ok(x) <==> ok'(x))
    ensures forall m :: Maximal(ok, order, s, m) <==> Maximal(ok', order, s, m)
  {
  }

  // ----- rearranging the list -----

  lemma SameMembers<T(!new)>(s: seq<T>, p: seq<T>)
    requires multiset(s) == multiset(p)
    ensures forall x :: x in s <==> x in p
  {
    forall x ensures x in s <==> x in p {
      assert x in multiset(s) <==> x in multiset(p);
    }
  }

  lemma SameMaximal<T(!new)>(ok: T -> bool, order: (T, T) -> int, s: seq<T>, p: seq<T>)
    requires multiset(s) == multiset(p)
    ensures forall m :: Maximal(ok, order, s, m) <==> Maximal(ok, order, p, m)
  {
    SameMembers(s, p);
  }

  /** With maxima that compare correctly, rearranging the list changes the answer only among equals. */
  lemma OrderIndependent<T(!new)>(ok: T -> bool, cmp: (T, T) -> int, order: (T, T) -> int, s: seq<T>, p: seq<T>)
    requires Preorder(ok, order) && Safe(ok, cmp, order, s) && multiset(s) == multiset(p)
    ensures Pick(ok, cmp, s).None? <==> Pick(ok, cmp, p).None?
    ensures Pick(ok, cmp, s).Some? ==> order(Pick(ok, cmp, s).value, Pick(ok, cmp, p).value) == 0
  {
    SameMembers(s, p);
    SameMaximal(ok, order, s, p);
    PickFails(ok, cmp, s);
    PickFails(ok, cmp, p);
    if Any(ok, s) {
      var _ := PicksFirstMaximum(ok, cmp, order, s);
      var _ := PicksFirstMaximum(ok, cmp, order, p);
    }
  }

  function Filter<T>(f: T -> bool, s: seq<T>): seq<T> {
    if s == [] then [] else (if f(s[0]) then [s[0]] else []) + Filter(f, s[1..])
  }

  lemma {:induction false} FilterMembers<T(!new)>(f: T -> bool, s: seq<T>)
    ensures forall x :: x in Filter(f, s) <==> x in s && f(x)
  {
    if s != [] {
      FilterMembers(f, s[1..]);
      assert s == [s[0]] + s[1..];
    }
  }

  lemma {:induction false} FilterSplits<T(!new)>(f: T -> bool, s: seq<T>)
    ensures multiset(Filter(f, s)) + multiset(Filter(x => !f(x), s)) == multiset(s)
  {
    if s != [] {
      FilterSplits(f, s[1..]);
      assert s == [s[0]] + s[1..];
    }
  }

  /** Elements that never win against the running answer leave it alone. */
  lemma {:induction false} PickAppend<T(!new)>(ok: T -> bool, cmp: (T, T) -> int, s: seq<T>, t: seq<T>, good: T -> bool)
    requires Pick(ok, cmp, s).Some? && good(Pick(ok, cmp, s).value)
    requires forall y :: y in t && ok(y) ==> good(y)
    ensures Pick(ok, cmp, s + t).Some? && good(Pick(ok, cmp, s + t).value)
    decreases |t|
  {
    if t == [] {
      assert s + t == s;
    } else {
      var x := t[|t| - 1];
      assert (s + t)[..|s + t| - 1] == s + t[..|t| - 1];
      PickAppend(ok, cmp, s, t[..|t| - 1], good);
    }
  }

  lemma {:induction false} PickStays<T(!new)>(ok: T -> bool, cmp: (T, T) -> int, s: seq<T>, t: seq<T>)
    requires Pick(ok, cmp, s).Some?
    requires forall y :: y in t ==> cmp(y, Pick(ok, cmp, s).value) <= 0
    ensures Pick(ok, cmp, s + t) == Pick(ok, cmp, s)
    decreases |t|
  {
    if t == [] {
      assert s + t == s;
    } else {
      assert (s + t)[..|s + t| - 1] == s + t[..|t| - 1];
      PickStays(ok, cmp, s, t[..|t| - 1]);
    }
  }

  /** If some candidate x compares above a maximum m, a list with the maxima first and x next ends
      with a lower answer. */
  lemma MaximaFirst<T(!new)>(ok: T -> bool, cmp: (T, T) -> int, order: (T, T) -> int, s: seq<T>, m: T, x: T, rest: seq<T>)
    returns (p: seq<T>)
    requires Preorder(ok, order) && Respects(ok, cmp, order) && Maximal(ok, order, s, m) && x in s && ok(x)
    requires cmp(x, m) > 0 && order(x, m) < 0 && multiset(s) == multiset([x] + rest)
    ensures multiset(p) == multiset(s) && Pick(ok, cmp, p).Some? && order(Pick(ok, cmp, p).value, m) < 0
  {
    var top := y => ok(y) && order(y, m) >= 0;
    var below := y => !top(y);
    var a, b := Filter(top, rest), Filter(below, rest);
    p := a + [x] + b;
    FilterSplits(top, rest);
    FilterMembers(top, rest);
    FilterMembers(below, rest);
    SameMembers(s, [x] + rest);
    assert multiset(p) == multiset([x]) + (multiset(a) + multiset(b));
    assert m in rest;
    assert m in a;
    PickFails(ok, cmp, a);
    var best := Pick(ok, cmp, a).value;
    assert best in s && order(best, m) == 0;
    assert cmp(x, best) == cmp(x, m);
    assert (a + [x])[..|a + [x]| - 1] == a;
    PickAppend(ok, cmp, a + [x], b, y => order(y, m) < 0);
  }

  lemma TopComparesAlike<T(!new)>(ok: T -> bool, cmp: (T, T) -> int, order: (T, T) -> int, s: seq<T>, m: T, x: T, y: T)
    requires Preorder(ok, order) && Respects(ok, cmp, order) && Maximal(ok, order, s, m)
    requires ok(x) && y in s && ok(y) && order(y, m) >= 0
    ensures cmp(y, x) == cmp(m, x)
  {
    assert order(y, m) == 0;
  }

  /** x first, then elements that do not win against it, then others below. */
  lemma LowerKept<T(!new)>(ok: T -> bool, cmp: (T, T) -> int, x: T, a: seq<T>, b: seq<T>, good: T -> bool)
    requires ok(x) && good(x) && (forall y :: y in a ==> cmp(y, x) <= 0) && forall y :: y in b && ok(y) ==> good(y)
    ensures Pick(ok, cmp, [x] + a + b).Some? && good(Pick(ok, cmp, [x] + a + b).value)
  {
    assert [x][..0] == [];
    assert Pick(ok, cmp, [x]) == Some(x);
    PickStays(ok, cmp, [x], a);
    PickAppend(ok, cmp, [x] + a, b, good);
  }

  /** If a maximum m does not compare above some lower candidate x, a list with x first and the
      maxima next ends with a lower answer. */
  lemma LowerFirst<T(!new)>(ok: T -> bool, cmp: (T, T) -> int, order: (T, T) -> int, s: seq<T>, m: T, x: T, rest: seq<T>)
    returns (p: seq<T>)
    requires Preorder(ok, order) && Respects(ok, cmp, order) && Maximal(ok, order, s, m) && x in s && ok(x)
    requires cmp(m, x) <= 0 && order(x, m) < 0 && multiset(s) == multiset([x] + rest)
    ensures multiset(p) == multiset(s) && Pick(ok, cmp, p).Some? && order(Pick(ok, cmp, p).value, m) < 0
  {
    var top := y => ok(y) && order(y, m) >= 0;
    var below := y => !top(y);
    var a, b := Filter(top, rest), Filter(below, rest);
    p := [x] + a + b;
    FilterSplits(top, rest);
    FilterMembers(top, rest);
    FilterMembers(below, rest);
    SameMembers(s, [x] + rest);
    assert multiset(p) == multiset([x]) + (multiset(a) + multiset(b));
    forall y | y in a ensures cmp(y, x) <= 0 {
      TopComparesAlike(ok, cmp, order, s, m, x, y);
    }
    LowerKept(ok, cmp, x, a, b, y => order(y, m) < 0);
  }

  lemma PullOut<T>(s: seq<T>, x: T) returns (rest: seq<T>)
    requires x in s
    ensures multiset(s) == multiset([x] + rest)
  {
    var i :| 0 <= i < |s| && s[i] == x;
    rest := s[..i] + s[i + 1..];
    assert s == s[..i] + [x] + s[i + 1..];
  }

  ghost predicate AlwaysMaximal<T(!new)>(ok: T -> bool, cmp: (T, T) -> int, order: (T, T) -> int, s: seq<T>) {
    forall p: seq<T> :: multiset(p) == multiset(s) ==>
      Pick(ok, cmp, p).Some? && Maximal(ok, order, s, Pick(ok, cmp, p).value)
  }

  /** The loop finds a maximum in whatever order the names are listed exactly when the maxima
      compare correctly with every candidate. */
  lemma AlwaysMaximalExactly<T(!new)>(ok: T -> bool, cmp: (T, T) -> int, order: (T, T) -> int, s: seq<T>)
    requires Preorder(ok, order) && Respects(ok, cmp, order) && Any(ok, s)
    ensures AlwaysMaximal(ok, cmp, order, s) <==> Safe(ok, cmp, order, s)
  {
    if Safe(ok, cmp, order, s) {
      forall p | multiset(p) == multiset(s)
        ensures Pick(ok, cmp, p).Some? && Maximal(ok, order, s, Pick(ok, cmp, p).value)
      {
        SameMembers(s, p);
        SameMaximal(ok, order, s, p);
        var _ := PicksFirstMaximum(ok, cmp, order, p);
      }
    }
    if !Safe(ok, cmp, order, s) {
      var p := Misled(ok, cmp, order, s);
      assert !Maximal(ok, order, s, Pick(ok, cmp, p).value);
    }
  }

  lemma Misled<T(!new)>(ok: T -> bool, cmp: (T, T) -> int, order: (T, T) -> int, s: seq<T>) returns (p: seq<T>)
    requires Preorder(ok, order) && Respects(ok, cmp, order) && !Safe(ok, cmp, order, s)
    ensures multiset(p) == multiset(s) && Pick(ok, cmp, p).Some? && !Maximal(ok, order, s, Pick(ok, cmp, p).value)
  {
    var m, x :| Maximal(ok, order, s, m) && x in s && ok(x) && !(Right(cmp, order, x, m) && Right(cmp, order, m, x));
    assert order(x, m) < 0;
    var rest := PullOut(s, x);
    if Right(cmp, order, x, m) {
      p := LowerFirst(ok, cmp, order, s, m, x, rest);
    } else {
      p := MaximaFirst(ok, cmp, order, s, m, x, rest);
    }
    assert m in s && ok(m);
  }
}
