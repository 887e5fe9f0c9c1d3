/** Three-way comparisons: the laws of a total order and the lexicographic order they induce. */
module ThreeWay {

  function Sign(x: int): int {
    if x < 0 then -1 else if x > 0 then 1 else 0
  }

  /** cmp is a total order given by the sign of a comparison. */
  ghost predicate Total<T(!new)>(cmp: (T, T) -> int) {
    && (forall a, b :: cmp(a, b) == 0 <==> a == b)
    && (forall a, b :: cmp(a, b) < 0 <==> cmp(b, a) > 0)
    && (forall a, b, c :: cmp(a, b) <= 0 && cmp(b, c) <= 0 ==> cmp(a, c) <= 0)
  }

  /** Lexicographic comparison; a proper prefix comes first. */
  function Lex<T>(cmp: (T, T) -> int, x: seq<T>, y: seq<T>): int {
    if x == [] then (if y == [] then 0 else -1)
    else if y == [] then 1
    else if cmp(x[0], y[0]) != 0 then Sign(cmp(x[0], y[0]))
    else Lex(cmp, x[1..], y[1..])
  }

  lemma {:induction false} LexIsSign<T>(cmp: (T, T) -> int, x: seq<T>, y: seq<T>)
    ensures Sign(Lex(cmp, x, y)) == Lex(cmp, x, y)
    decreases |x|
  {
    if x != [] && y != [] { LexIsSign(cmp, x[1..], y[1..]); }
  }

  lemma {:induction false} LexZero<T(!new)>(cmp: (T, T) -> int, x: seq<T>, y: seq<T>)
    requires Total(cmp)
    ensures Lex(cmp, x, y) == 0 <==> x == y
    decreases |x|
  {
    if x != [] && y != [] {
      LexZero(cmp, x[1..], y[1..]);
      if x[0] == y[0] && x[1..] == y[1..] {
        assert x == [x[0]] + x[1..] && y == [y[0]] + y[1..];
      }
    }
  }

  lemma {:induction false} LexFlip<T(!new)>(cmp: (T, T) -> int, x: seq<T>, y: seq<T>)
    requires Total(cmp)
    ensures Lex(cmp, x, y) == -Lex(cmp, y, x)
    decreases |x|
  {
    if x != [] && y != [] {
      if cmp(x[0], y[0]) == 0 {
        LexFlip(cmp, x[1..], y[1..]);
      } else {
        assert cmp(x[0], y[0]) < 0 <==> cmp(y[0], x[0]) > 0;
        assert cmp(y[0], x[0]) < 0 <==> cmp(x[0], y[0]) > 0;
      }
    }
  }

  lemma {:induction false} LexTransitive<T(!new)>(cmp: (T, T) -> int, x: seq<T>, y: seq<T>, z: seq<T>)
    requires Total(cmp)
    requires Lex(cmp, x, y) <= 0 && Lex(cmp, y, z) <= 0
    ensures Lex(cmp, x, z) <= 0
    decreases |x|
  {
    if x != [] && y != [] && z != [] {
      assert cmp(x[0], y[0]) <= 0 && cmp(y[0], z[0]) <= 0;
      if cmp(x[0], y[0]) == 0 && cmp(y[0], z[0]) == 0 {
        LexTransitive(cmp, x[1..], y[1..], z[1..]);
      }
    }
  }

  /** x comes before y at position k: they agree up to k, where x ends or has the smaller element. */
  ghost predicate Before<T>(cmp: (T, T) -> int, x: seq<T>, y: seq<T>, k: nat) {
    && k <= |x| && k <= |y| && x[..k] == y[..k]
    && if k < |x| && k < |y| then cmp(x[k], y[k]) < 0 else k == |x| < |y|
  }

  lemma BeforeTail<T(!new)>(cmp: (T, T) -> int, x: seq<T>, y: seq<T>, k: nat)
    requires x != [] && y != [] && x[0] == y[0]
    ensures Before(cmp, x, y, k + 1) <==> Before(cmp, x[1..], y[1..], k)
  {
    if k + 1 <= |x| && k + 1 <= |y| {
      assert x[..k + 1] == [x[0]] + x[1..][..k];
      assert y[..k + 1] == [y[0]] + y[1..][..k];
      assert x[1..][..k] == x[..k + 1][1..] && y[1..][..k] == y[..k + 1][1..];
    }
  }

  lemma BeforeHead<T(!new)>(cmp: (T, T) -> int, x: seq<T>, y: seq<T>, k: nat)
    requires Before(cmp, x, y, k)
    ensures k > 0 ==> x != [] && y != [] && x[0] == y[0]
  {
    if k > 0 { assert x[..k][0] == y[..k][0]; }
  }

  /** Lex is negative exactly when x comes before y at their first difference. */
  lemma {:induction false} LexFirstDifference<T(!new)>(cmp: (T, T) -> int, x: seq<T>, y: seq<T>)
    requires Total(cmp)
    ensures Lex(cmp, x, y) < 0 <==> exists k: nat :: Before(cmp, x, y, k)
    decreases |x|
  {
    if x == [] || y == [] || cmp(x[0], y[0]) != 0 {
      if Lex(cmp, x, y) < 0 { assert Before(cmp, x, y, 0); }
      forall k: nat | Before(cmp, x, y, k) ensures k > 0 ==> x != [] && y != [] && x[0] == y[0] {
        BeforeHead(cmp, x, y, k);
      }
    } else {
      assert !Before(cmp, x, y, 0);
      LexFirstDifference(cmp, x[1..], y[1..]);
      forall k: nat ensures Before(cmp, x, y, k + 1) <==> Before(cmp, x[1..], y[1..], k) {
        BeforeTail(cmp, x, y, k);
      }
      if k: nat :| Before(cmp, x, y, k) {
        assert Before(cmp, x[1..], y[1..], k - 1) by { BeforeTail(cmp, x, y, k - 1); }
      }
    }
  }
}
