/** Decimal digits: written, read, and counted. */
module Decimals {
  import opened Bytes

  predicate IsDigit(b: byte) { 48 <= b <= 57 }

  function Decimal(n: nat): (b: bytes)
    ensures b != [] && forall d <- b :: IsDigit(d)
  {
    if n < 10 then [48 + n] else Decimal(n / 10) + [48 + n % 10]
  }

  /** A number below 10^k has at most k digits. */
  lemma {:induction false} DecimalShort(n: nat, k: nat)
    requires k > 0 && n < Pow10(k)
    ensures |Decimal(n)| <= k
  {
    if n >= 10 {
      assert k > 1;
      DecimalShort(n / 10, k - 1);
    }
  }

  function Pow10(k: nat): (p: nat)
    ensures p > 0
  {
    if k == 0 then 1 else 10 * Pow10(k - 1)
  }

  /** A 32-bit number has at most ten digits. */
  lemma Decimal32(n: nat)
    requires n <= TWO32
    ensures |Decimal(n)| <= 10
  {
    assert Pow10(2) == 100 && Pow10(4) == 100 * Pow10(2) && Pow10(6) == 100 * Pow10(4);
    assert Pow10(8) == 100 * Pow10(6) && Pow10(10) == 100 * Pow10(8);
    DecimalShort(n, 10);
  }

  /** The number that digits spell. */
  function NatOf(d: bytes): nat {
    if d == [] then 0
    else NatOf(d[..|d| - 1]) * 10 + (if IsDigit(d[|d| - 1]) then d[|d| - 1] - 48 else 0)
  }

  function LeadingDigits(t: bytes): (n: nat)
    ensures n <= |t|
  {
    if t != [] && IsDigit(t[0]) then 1 + LeadingDigits(t[1..]) else 0
  }

  lemma {:induction false} LeadingAll(d: bytes, rest: bytes)
    requires forall b <- d :: IsDigit(b)
    requires rest == [] || !IsDigit(rest[0])
    ensures LeadingDigits(d + rest) == |d|
  {
    if d == [] {
      assert d + rest == rest;
    } else {
      assert (d + rest)[0] == d[0] && d[0] in d && (d + rest)[1..] == d[1..] + rest;
      assert forall b <- d[1..] :: b in d;
      LeadingAll(d[1..], rest);
    }
  }

  /** Reading a written number gives it back; only zero is written with a leading zero. */
  lemma {:induction false} NatOfDecimal(n: nat)
    ensures NatOf(Decimal(n)) == n
    ensures Decimal(n)[0] == 48 ==> n == 0 && |Decimal(n)| == 1
  {
    if n >= 10 {
      NatOfDecimal(n / 10);
      var d := Decimal(n);
      assert d[..|d| - 1] == Decimal(n / 10);
    } else {
      assert [48 + n][..0] == [];
    }
  }
}
