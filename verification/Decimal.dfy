/** Decimal notation as strconv.Atoi reads it and %d prints it, on 64-bit ints. */
module Decimal {
  import opened Int64

  predicate IsDigit(c: char) { '0' <= c <= '9' }

  predicate AllDigits(s: string) { forall i :: 0 <= i < |s| ==> IsDigit(s[i]) }

  function DigitValue(c: char): nat
    requires IsDigit(c)
  {
    c as int - '0' as int
  }

  function DigitChar(d: nat): char
    requires d < 10
  {
    ('0' as int + d) as char
  }

  /** The number a digit string denotes. */
  function Value(s: string): nat
    requires AllDigits(s)
  {
    if s == [] then 0 else 10 * Value(s[..|s| - 1]) + DigitValue(s[|s| - 1])
  }

  /** The digits of n, most significant first. */
  function Itoa(n: nat): string {
    if n < 10 then [DigitChar(n)] else Itoa(n / 10) + [DigitChar(n % 10)]
  }

  /** Digits without a superfluous leading zero. */
  predicate Canonical(s: string) {
    s != [] && AllDigits(s) && (s[0] == '0' ==> |s| == 1)
  }

  lemma {:induction false} ItoaCanonical(n: nat)
    ensures Canonical(Itoa(n)) && Value(Itoa(n)) == n
    ensures Itoa(n)[0] == '0' ==> n == 0
  {
    if n >= 10 {
      ItoaCanonical(n / 10);
      assert Itoa(n)[..|Itoa(n)| - 1] == Itoa(n / 10);
    } else {
      assert Itoa(n)[..0] == [];
      assert Value(Itoa(n)) == 10 * Value([]) + DigitValue(DigitChar(n));
    }
  }

  /** Printing undoes reading exactly on canonical digit strings. */
  lemma {:induction false} ItoaValue(s: string)
    requires AllDigits(s)
    ensures Canonical(s) ==> Itoa(Value(s)) == s
    ensures Canonical(s) && |s| > 1 ==> Value(s) >= 10
  {
    if |s| == 1 {
      assert s[..0] == [] && s == [s[0]];
    } else if |s| > 1 && Canonical(s) {
      var t := s[..|s| - 1];
      assert Canonical(t) && s == t + [s[|s| - 1]];
      ItoaValue(t);
      if |t| == 1 { assert t[..0] == [] && Value(t) == DigitValue(t[0]); }
      assert Value(s) / 10 == Value(t) && Value(s) % 10 == DigitValue(s[|s| - 1]);
    }
  }

  lemma CanonicalInjective(s: string, t: string)
    requires Canonical(s) && Canonical(t) && Value(s) == Value(t)
    ensures s == t
  {
    ItoaValue(s);
    ItoaValue(t);
  }

  /** strconv.Atoi: the value, and whether there was no error. Out-of-range values saturate. */
  datatype Parsed = Parsed(value: int, ok: bool)

  function Atoi(s: string): Parsed {
    if s != [] && (s[0] == '-' || s[0] == '+') then
      if s[1..] == [] || !AllDigits(s[1..]) then Parsed(0, false)
      else if s[0] == '-' then
        (if Value(s[1..]) <= INT64_MAX + 1 then Parsed(0 - Value(s[1..]), true) else Parsed(INT64_MIN, false))
      else
        (if Value(s[1..]) <= INT64_MAX then Parsed(Value(s[1..]), true) else Parsed(INT64_MAX, false))
    else if s == [] || !AllDigits(s) then Parsed(0, false)
    else if Value(s) <= INT64_MAX then Parsed(Value(s), true)
    else Parsed(INT64_MAX, false)
  }

  lemma AtoiDigits(s: string)
    requires s != [] && AllDigits(s)
    ensures Atoi(s).value == if Value(s) <= INT64_MAX then Value(s) else INT64_MAX
    ensures Atoi(s).ok <==> Value(s) <= INT64_MAX
  {
    assert IsDigit(s[0]);
  }

  /** %d. */
  function PrintInt(x: int): string {
    if x < 0 then "-" + Itoa(-x) else Itoa(x)
  }

  /** Reading and printing a digit string changes nothing exactly when it is canonical and fits. */
  lemma ReprintExactly(s: string)
    requires s != [] && AllDigits(s)
    ensures PrintInt(Atoi(s).value) == s <==> Canonical(s) && Value(s) <= INT64_MAX
  {
    AtoiDigits(s);
    ItoaCanonical(Atoi(s).value);
    ItoaValue(s);
    if PrintInt(Atoi(s).value) == s {
      assert Value(s) == Atoi(s).value;
    }
  }
}
