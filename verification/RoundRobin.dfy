/**
  Fairness of the proxy's round-robin pick (proxy.go): the j-th pick from counter value c
  over n backends is position ((c + j) mod 2^64) mod n.
 */
module RoundRobin {
  import opened TcpProxies

  function Pick(c: nat, j: nat, n: nat): nat
    requires n > 0
  {
    ((c + j) % UINT64_MODULUS) % n
  }

  /** The counter after j picks. */
  function Counter(c: nat, j: nat): nat {
    (c + j) % UINT64_MODULUS
  }

  lemma CounterStep(c: nat, j: nat)
    ensures (Counter(c, j) + 1) % UINT64_MODULUS == Counter(c, j + 1) && Counter(c, j) < UINT64_MODULUS
  {
  }

  /** The pick of one connection, the j-th since the counter was c. */
  method ServeOne(proxy: TcpProxy, ghost c: nat, ghost j: nat) returns (b: Backend)
    requires proxy.backends != [] && proxy.backendIndex == Counter(c, j)
    modifies proxy`backendIndex
    ensures b == proxy.backends[Pick(c, j, |proxy.backends|)] && proxy.backendIndex == Counter(c, j + 1)
  {
    CounterStep(c, j);
    var picked := proxy.GetNextBackend();
    b := picked.value;
  }

  /** Serving k connections over an unchanged backend list. */
  method ServeConnections(proxy: TcpProxy, k: nat) returns (picked: seq<Backend>)
    requires proxy.backends != [] && proxy.backendIndex < UINT64_MODULUS
    modifies proxy`backendIndex
    ensures |picked| == k
    ensures forall j :: 0 <= j < k ==> picked[j] == proxy.backends[Pick(old(proxy.backendIndex), j, |proxy.backends|)]
    ensures proxy.backendIndex == Counter(old(proxy.backendIndex), k)
  {
    ghost var c := proxy.backendIndex;
    assert c == Counter(c, 0);
    picked := [];
    for i := 0 to k
      invariant |picked| == i && proxy.backendIndex == Counter(c, i)
      invariant forall j :: 0 <= j < i ==> picked[j] == proxy.backends[Pick(c, j, |proxy.backends|)]
    {
      var b := ServeOne(proxy, c, i);
      picked := picked + [b];
    }
  }

  // ----- division with a variable divisor -----

  /** Quotient and remainder are unique. */
  lemma ModUnique(x: nat, n: nat, q: nat, r: nat)
    requires r < n && x == q * n + r
    ensures x % n == r && x / n == q
  {
    var q', r' := x / n, x % n;
    assert x == q' * n + r';
    assert (q - q') * n == r' - r;
    if q != q' { SmallMultiple(q - q', n, r' - r); }
  }

  /** A non-zero multiple of n is not smaller than n. */
  lemma SmallMultiple(k: int, n: int, d: int)
    requires k * n == d && -n < d < n && n > 0
    ensures k == 0
  {
    assert k >= 1 ==> k * n >= n;
    assert k <= -1 ==> k * n <= -n;
  }

  lemma ModStep(x: nat, n: nat)
    requires n > 0
    ensures (x + 1) % n == if x % n + 1 == n then 0 else x % n + 1
  {
    var q, r := x / n, x % n;
    assert x == q * n + r;
    if r + 1 == n {
      assert x + 1 == (q + 1) * n + 0;
      ModUnique(x + 1, n, q + 1, 0);
    } else {
      ModUnique(x + 1, n, q, r + 1);
    }
  }

  lemma ModPlus(x: nat, j: nat, n: nat)
    requires n > 0 && x % n + j < n
    ensures (x + j) % n == x % n + j
  {
    assert x == (x / n) * n + x % n;
    ModUnique(x + j, n, x / n, x % n + j);
  }

  // ----- counting -----

  /** How many of the k picks from counter value c, taken without wrapping, hit position p. */
  function Count(c: nat, k: nat, n: nat, p: nat): nat
    requires n > 0
    decreases k
  {
    if k == 0 then 0 else (if c % n == p then 1 else 0) + Count(c + 1, k - 1, n, p)
  }

  /** The number of picks until position p is hit. */
  function Distance(c: nat, n: nat, p: nat): nat
    requires p < n
  {
    if p >= c % n then p - c % n else p + n - c % n
  }

  lemma {:induction false} CountWithinRound(c: nat, k: nat, n: nat, p: nat)
    requires p < n && k <= n
    ensures Count(c, k, n, p) == if Distance(c, n, p) < k then 1 else 0
    decreases k
  {
    if k > 0 {
      ModStep(c, n);
      CountWithinRound(c + 1, k - 1, n, p);
    }
  }

  lemma {:induction false} CountSplit(c: nat, a: nat, b: nat, n: nat, p: nat)
    requires n > 0
    ensures Count(c, a + b, n, p) == Count(c, a, n, p) + Count(c + a, b, n, p)
    decreases a
  {
    if a > 0 { CountSplit(c + 1, a - 1, b, n, p); }
  }

  /** After k picks every position has been hit k / n times, rounded down or up. */
  lemma {:induction false} CountBalanced(c: nat, k: nat, n: nat, p: nat)
    requires p < n
    ensures k / n <= Count(c, k, n, p) <= k / n + 1
    decreases k
  {
    if k < n {
      ModUnique(k, n, 0, k);
      CountWithinRound(c, k, n, p);
    } else {
      CountSplit(c, n, k - n, n, p);
      CountWithinRound(c, n, n, p);
      CountBalanced(c + n, k - n, n, p);
      assert k - n == ((k - n) / n) * n + (k - n) % n;
      assert k == ((k - n) / n + 1) * n + (k - n) % n;
      ModUnique(k, n, (k - n) / n + 1, (k - n) % n);
    }
  }

  /** How many of the first k picks from counter value c hit position p. */
  function Hits(c: nat, k: nat, n: nat, p: nat): nat
    requires n > 0
  {
    if k == 0 then 0 else Hits(c, k - 1, n, p) + if Pick(c, k - 1, n) == p then 1 else 0
  }

  lemma PickUnwrapped(c: nat, j: nat, n: nat)
    requires n > 0 && c + j < UINT64_MODULUS
    ensures Pick(c, j, n) == (c + j) % n
  {
    assert (c + j) % UINT64_MODULUS == c + j;
  }

  lemma CountOne(c: nat, n: nat, p: nat)
    requires n > 0
    ensures Count(c, 1, n, p) == if c % n == p then 1 else 0
  {
    assert Count(c + 1, 0, n, p) == 0;
  }

  lemma {:induction false} HitsAreCount(c: nat, k: nat, n: nat, p: nat)
    requires n > 0 && c + k <= UINT64_MODULUS
    ensures Hits(c, k, n, p) == Count(c, k, n, p)
  {
    if k > 0 {
      var j := k - 1;
      HitsAreCount(c, j, n, p);
      CountSplit(c, j, 1, n, p);
      PickUnwrapped(c, j, n);
      CountOne(c + j, n, p);
    }
  }

  /** While the backends stay the same and the counter does not wrap, k picks from any counter
      value load any two positions equally, up to one, and each with about k / n. */
  lemma RoundRobinFair(c: nat, k: nat, n: nat, p: nat, q: nat)
    requires p < n && q < n && c + k <= UINT64_MODULUS
    ensures Hits(c, k, n, p) <= Hits(c, k, n, q) + 1
    ensures k / n <= Hits(c, k, n, p) <= k / n + 1
  {
    HitsAreCount(c, k, n, p);
    HitsAreCount(c, k, n, q);
    CountBalanced(c, k, n, p);
    CountBalanced(c, k, n, q);
  }

  // ----- n consecutive picks, with the 64-bit wrap-around -----

  /** The n consecutive picks from counter value c hit pairwise different positions. */
  ghost predicate HitsEachOnce(c: nat, n: nat)
    requires n > 0
  {
    forall i, j :: 0 <= i < j < n ==> Pick(c, i, n) != Pick(c, j, n)
  }

  /** No pick of the round wraps, or wrapping does not show. */
  predicate RoundAligned(c: nat, n: nat)
    requires n > 0
  {
    c + n <= UINT64_MODULUS || UINT64_MODULUS % n == 0
  }

  lemma PickAligned(c: nat, j: nat, n: nat)
    requires c < UINT64_MODULUS && 0 < n <= UINT64_MODULUS && j < n && RoundAligned(c, n)
    ensures Pick(c, j, n) == (c + j) % n
  {
    if c + j >= UINT64_MODULUS {
      var x := c + j - UINT64_MODULUS;
      assert (c + j) % UINT64_MODULUS == x;
      assert UINT64_MODULUS == (UINT64_MODULUS / n) * n;
      assert x == (x / n) * n + x % n;
      assert c + j == (UINT64_MODULUS / n + x / n) * n + x % n;
      ModUnique(c + j, n, UINT64_MODULUS / n + x / n, x % n);
    }
  }

  lemma DistinctResidues(c: nat, i: nat, j: nat, n: nat)
    requires i < j < n
    ensures (c + i) % n != (c + j) % n
  {
    var x, y := c + i, c + j;
    assert x == (x / n) * n + x % n && y == (y / n) * n + y % n;
    if x % n == y % n {
      assert (y / n - x / n) * n == j - i;
      SmallMultiple(y / n - x / n, n, j - i);
    }
  }

  /** In a round that wraps while n does not divide 2^64, some position is hit twice. */
  lemma WrapCollision(c: nat, n: nat) returns (i: nat, j: nat)
    requires c < UINT64_MODULUS && 0 < n <= UINT64_MODULUS && !RoundAligned(c, n)
    ensures i < j < n && Pick(c, i, n) == Pick(c, j, n)
  {
    var w, r := UINT64_MODULUS - c, UINT64_MODULUS % n;
    assert UINT64_MODULUS == (UINT64_MODULUS / n) * n + r;
    if r <= w {
      i, j := w - r, w;
      ModUnique(UINT64_MODULUS - r, n, UINT64_MODULUS / n, 0);
      assert (c + i) % UINT64_MODULUS == UINT64_MODULUS - r;
      assert (c + j) % UINT64_MODULUS == 0;
      ModUnique(0, n, 0, 0);
    } else {
      i, j := 0, r;
      ModUnique(c, n, UINT64_MODULUS / n, r - w);
      assert (c + i) % UINT64_MODULUS == c;
      assert (c + j) % UINT64_MODULUS == r - w;
      ModUnique(r - w, n, 0, r - w);
    }
  }

  /** Exactly when n consecutive picks over n backends hit every position once: when the counter
      does not wrap during them, or n divides 2^64. */
  lemma RoundRobinExactly(c: nat, n: nat)
    requires c < UINT64_MODULUS && 0 < n <= UINT64_MODULUS
    ensures HitsEachOnce(c, n) <==> RoundAligned(c, n)
  {
    if RoundAligned(c, n) {
      forall i, j | 0 <= i < j < n ensures Pick(c, i, n) != Pick(c, j, n) {
        PickAligned(c, i, n);
        PickAligned(c, j, n);
        DistinctResidues(c, i, j, n);
      }
    } else {
      var i, j := WrapCollision(c, n);
    }
  }

  /** In an aligned round every position is hit, after exactly its distance from the counter. */
  lemma RoundRobinCovers(c: nat, n: nat, p: nat)
    requires c < UINT64_MODULUS && p < n <= UINT64_MODULUS && RoundAligned(c, n)
    ensures Distance(c, n, p) < n && Pick(c, Distance(c, n, p), n) == p
  {
    var d := Distance(c, n, p);
    PickAligned(c, d, n);
    if p >= c % n {
      ModPlus(c, d, n);
    } else {
      assert c == (c / n) * n + c % n;
      assert c + d == (c / n + 1) * n + p;
      ModUnique(c + d, n, c / n + 1, p);
    }
  }
}
