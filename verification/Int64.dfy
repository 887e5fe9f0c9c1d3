/** Go's int and time.Duration on 64-bit platforms. */
module Int64 {

  const INT64_MODULUS: int := 0x1_0000_0000_0000_0000
  const INT64_MAX: int := 0x7fff_ffff_ffff_ffff
  const INT64_MIN: int := -0x8000_0000_0000_0000

  predicate Fits(x: int) { INT64_MIN <= x <= INT64_MAX }

  /** Two's-complement reduction. */
  function Wrap64(x: int): (r: int)
    ensures Fits(r) && (Fits(x) ==> r == x)
  {
    var m := x % INT64_MODULUS;
    if m <= INT64_MAX then m else m - INT64_MODULUS
  }

  /** The difference of two ints has the right sign exactly when it does not overflow, and is
      never zero by overflow. */
  lemma WrappedDifference(x: int, y: int)
    requires Fits(x) && Fits(y)
    ensures (Wrap64(x - y) < 0 <==> x < y) && (Wrap64(x - y) > 0 <==> x > y) <==> Fits(x - y)
    ensures Wrap64(x - y) == 0 <==> x == y
  {
    if x - y > INT64_MAX {
      assert Wrap64(x - y) == x - y - INT64_MODULUS;
    } else if x - y < INT64_MIN {
      assert Wrap64(x - y) == x - y + INT64_MODULUS;
    }
  }
}
