/** Bytes, big-endian words and plain sequence facts shared by every layer. */
module Bytes {

  type byte = x: int | 0 <= x < 256

  type bytes = seq<byte>

  const TWO32: int := 0x1_0000_0000

  /** Outcome of an operation that reports an error code, an exception or nothing at all. */
  datatype Result<+T, +E> = Ok(value: T) | Err(error: E)

  datatype Option<+T> = None | Some(value: T)

  function Pow256(k: nat): (p: nat)
    ensures p > 0
  {
    if k == 0 then 1 else 256 * Pow256(k - 1)
  }

  /** The `k` low bytes of `n`, most significant first. */
  function BigEndian(n: nat, k: nat): (b: bytes)
    ensures |b| == k
  {
    if k == 0 then [] else BigEndian(n / 256, k - 1) + [n % 256]
  }

  function FromBigEndian(b: bytes): nat {
    if b == [] then 0 else FromBigEndian(b[..|b| - 1]) * 256 + b[|b| - 1]
  }

  /** Reading back a written word gives the number modulo its range. */
  lemma {:induction false} BigEndianRoundTrip(n: nat, k: nat)
    ensures FromBigEndian(BigEndian(n, k)) == n % Pow256(k)
  {
    if k > 0 {
      BigEndianRoundTrip(n / 256, k - 1);
      var b := BigEndian(n, k);
      assert b[..k - 1] == BigEndian(n / 256, k - 1);
      var p := Pow256(k - 1);
      assert FromBigEndian(b) == n / 256 % p * 256 + n % 256;
      ModOfDiv(n, p);
    }
  }

  lemma ModOfDiv(n: nat, p: nat)
    requires p > 0
    ensures n / 256 % p * 256 + n % 256 == n % (256 * p)
  {
    var q, r := n / 256 / p, n / 256 % p;
    assert n / 256 == q * p + r;
    var m := r * 256 + n % 256;
    assert n == q * (256 * p) + m;
    assert r + 1 <= p;
    assert m < 256 * p;
    DivModUnique(n, 256 * p, q, m);
  }

  lemma DivModUnique(n: int, d: int, q: int, r: int)
    requires d > 0 && 0 <= r < d && n == q * d + r
    ensures n / d == q && n % d == r
  {
    assert (n / d - q) * d == r - n % d;
    MulAtLeast(n / d - q, d);
  }

  lemma MulAtLeast(k: int, d: int)
    requires d > 0
    ensures k >= 1 ==> k * d >= d
    ensures k <= -1 ==> k * d <= -d
  {
  }

  /** Every byte string is the word it spells. */
  lemma {:induction false} FromBigEndianRoundTrip(b: bytes)
    ensures FromBigEndian(b) < Pow256(|b|)
    ensures BigEndian(FromBigEndian(b), |b|) == b
  {
    if b != [] {
      FromBigEndianRoundTrip(b[..|b| - 1]);
      assert b == b[..|b| - 1] + [b[|b| - 1]];
    }
  }

  /** A 32-bit word on the wire, as four shifts and narrowing casts write it. */
  function U32(n: nat): (b: bytes)
    ensures |b| == 4
  {
    BigEndian(n, 4)
  }

  function FromU32(b: bytes): (n: nat)
    requires |b| == 4
    ensures n < TWO32
  {
    FromBigEndianRoundTrip(b);
    Pow256Values();
    FromBigEndian(b)
  }

  lemma Pow256Values()
    ensures Pow256(4) == TWO32
    ensures Pow256(8) == TWO32 * TWO32
  {
    assert Pow256(2) == 0x1_0000;
    assert Pow256(4) == 0x1_0000 * Pow256(2);
    assert Pow256(6) == 0x1_0000 * Pow256(4);
  }

  /** Reading back a written word gives the number modulo 2^32. */
  lemma U32RoundTrip(n: nat)
    ensures FromU32(U32(n)) == n % TWO32
  {
    BigEndianRoundTrip(n, 4);
    Pow256Values();
  }

  /** Every four bytes are the word they spell. */
  lemma FromU32RoundTrip(b: bytes)
    requires |b| == 4
    ensures U32(FromU32(b)) == b
  {
    FromBigEndianRoundTrip(b);
  }

  /** The byte-by-byte forms that the firmware writes out. */
  lemma U32Bytes(n: nat)
    ensures U32(n) == [n / 0x100_0000 % 256, n / 0x1_0000 % 256, n / 0x100 % 256, n % 256]
  {
    assert BigEndian(n, 2) == BigEndian(n / 256, 1) + [n % 256];
    assert n / 256 / 256 == n / 0x1_0000;
    assert n / 0x1_0000 / 256 == n / 0x100_0000;
    assert BigEndian(n / 0x1_0000, 2) == [n / 0x100_0000 % 256, n / 0x1_0000 % 256];
    assert BigEndian(n, 4) == BigEndian(n / 0x1_0000, 2) + [n / 256 % 256, n % 256];
  }

  lemma FromU32Bytes(b: bytes)
    requires |b| == 4
    ensures FromU32(b) == b[0] as int * 0x100_0000 + b[1] as int * 0x1_0000 + b[2] as int * 0x100 + b[3]
  {
    assert b[..3][..2] == b[..2] && b[..2][..1] == b[..1];
    assert FromBigEndian(b[..1]) == b[0];
    assert FromBigEndian(b[..2]) == FromBigEndian(b[..1]) * 256 + b[1];
    assert FromBigEndian(b[..3]) == FromBigEndian(b[..2]) * 256 + b[2];
  }

  /** Concatenation of a list of byte strings, as Python's b"".join. */
  function Join(parts: seq<bytes>): bytes {
    if parts == [] then [] else parts[0] + Join(parts[1..])
  }

  lemma {:induction false} JoinAppend(parts: seq<bytes>, last: bytes)
    ensures Join(parts + [last]) == Join(parts) + last
  {
    if parts == [] {
      assert parts + [last] == [last];
      assert Join([last]) == last + Join([]);
    } else {
      assert (parts + [last])[1..] == parts[1..] + [last];
      JoinAppend(parts[1..], last);
    }
  }

  /** The bytes of a C string: everything before the first NUL. */
  function CStr(s: bytes): (t: bytes)
    ensures |t| <= |s| && t == s[..|t|]
    ensures 0 !in t
    ensures |t| < |s| ==> s[|t|] == 0
  {
    if s == [] || s[0] == 0 then [] else [s[0]] + CStr(s[1..])
  }

  /** A C string is the unique NUL-free prefix that ends at a NUL. */
  lemma {:induction false} CStrUnique(s: bytes, n: nat)
    requires n < |s| && s[n] == 0 && 0 !in s[..n]
    ensures CStr(s) == s[..n]
  {
    if n > 0 {
      assert s[0] == s[..n][0] && s[1..][..n - 1] == s[..n][1..];
      CStrUnique(s[1..], n - 1);
      assert s[..n] == [s[0]] + s[1..][..n - 1];
    }
  }

  predicate IsBlank(b: byte) { b == 32 || b == 9 }

  function SkipBlanks(t: bytes): (r: bytes)
    ensures |r| <= |t|
    ensures r != [] ==> !IsBlank(r[0])
  {
    if t != [] && IsBlank(t[0]) then SkipBlanks(t[1..]) else t
  }

  predicate IsAscii(s: string) {
    forall c <- s :: c < 128 as char
  }

  /** Text as C bytes, one per character. It is applied to ASCII text only. */
  function Ascii(s: string): (b: bytes)
    ensures |b| == |s|
    ensures forall i :: 0 <= i < |s| ==> b[i] == if s[i] < 128 as char then s[i] as int else 63
  {
    seq(|s|, i requires 0 <= i < |s| => if s[i] < 128 as char then s[i] as int else 63)
  }

  lemma AsciiInjective(a: string, b: string)
    requires IsAscii(a) && IsAscii(b)
    ensures Ascii(a) == Ascii(b) <==> a == b
  {
    if Ascii(a) == Ascii(b) {
      forall i | 0 <= i < |a| ensures a[i] == b[i] {
        assert Ascii(a)[i] == Ascii(b)[i] && a[i] in a && b[i] in b;
      }
    }
  }

  lemma Assoc(a: bytes, b: bytes, c: bytes)
    ensures a + b + c == a + (b + c)
  {
  }

  lemma PlusNothing(s: bytes)
    ensures s + [] == s
  {
  }

  function Zeros(n: nat): (z: bytes)
    ensures |z| == n && forall i :: 0 <= i < n ==> z[i] == 0
  {
    seq(n, i => 0)
  }

  function Min(a: int, b: int): int { if a < b then a else b }
}
