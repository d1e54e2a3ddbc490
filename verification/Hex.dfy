/** The digest as text: 64 lower-case hexadecimal characters. */
module Hex {
  import opened Bytes
  import opened Sha256
  import opened Json

  const DIGITS: string := "0123456789abcdef"

  function HexPair(b: byte): (s: string)
    ensures |s| == 2 && AllPrintable(s) && IsAscii(s)
  {
    DigitsPrintable();
    assert DIGITS[b / 16] in DIGITS && DIGITS[b % 16] in DIGITS;
    [DIGITS[b / 16], DIGITS[b % 16]]
  }

  /** Two characters for each byte. */
  function HexOf(b: bytes): (s: string)
    ensures |s| == 2 * |b|
  {
    if b == [] then ""
    else HexOf(b[..|b| - 1]) + HexPair(b[|b| - 1])
  }

  /** The digest is 64 characters that need no escaping. */
  ghost predicate HexDigest(hash: bytes -> string) {
    forall m :: |hash(m)| == 64 && AllPrintable(hash(m))
  }

  /** SHA-256 as the protocol quotes it. */
  function Sha256Text(m: bytes): string { HexOf(Digest(m)) }

  lemma DigitsPrintable()
    ensures AllPrintable(DIGITS) && IsAscii(DIGITS)
  {
  }

  lemma {:induction false} HexPrintable(b: bytes)
    ensures AllPrintable(HexOf(b)) && IsAscii(HexOf(b))
  {
    if b != [] {
      HexPrintable(b[..|b| - 1]);
    }
  }

  lemma DigitsDiffer(i: nat, j: nat)
    requires i < 16 && j < 16 && DIGITS[i] == DIGITS[j]
    ensures i == j
  {
  }

  lemma PairInjective(x: byte, y: byte)
    requires HexPair(x) == HexPair(y)
    ensures x == y
  {
    assert HexPair(x)[0] == HexPair(y)[0] && HexPair(x)[1] == HexPair(y)[1];
    DigitsDiffer(x / 16, y / 16);
    DigitsDiffer(x % 16, y % 16);
  }

  lemma SplitEqual(s: string, t: string, s': string, t': string)
    requires |s| == |s'| && s + t == s' + t'
    ensures s == s' && t == t'
  {
    assert (s + t)[..|s|] == s && (s' + t')[..|s|] == s';
    assert (s + t)[|s|..] == t && (s' + t')[|s|..] == t';
  }

  /** Comparing the texts compares the bytes. */
  lemma {:induction false} HexInjective(a: bytes, b: bytes)
    requires HexOf(a) == HexOf(b)
    ensures a == b
  {
    assert |a| == |b|;
    if a != [] {
      var n := |a| - 1;
      SplitEqual(HexOf(a[..n]), HexPair(a[n]), HexOf(b[..n]), HexPair(b[n]));
      PairInjective(a[n], b[n]);
      HexInjective(a[..n], b[..n]);
      assert a == a[..n] + [a[n]] && b == b[..n] + [b[n]];
    }
  }

  /** The texts of SHA-256 digests are what the protocol takes a hash to be: everything proved about
      a transfer for such a hash holds for this one. */
  lemma Sha256IsHexDigest()
    ensures HexDigest(Sha256Text)
  {
    forall m: bytes ensures |Sha256Text(m)| == 64 && AllPrintable(Sha256Text(m)) {
      HexPrintable(Digest(m));
    }
  }

  lemma HexOneMore(b: bytes, i: nat)
    requires i < |b|
    ensures Ascii(HexOf(b[..i + 1])) == Ascii(HexOf(b[..i])) + Ascii(HexPair(b[i]))
  {
    assert b[..i + 1][..i] == b[..i];
    AsciiAppend(HexOf(b[..i]), HexPair(b[i]));
  }

  lemma AsciiAppend(s: string, t: string)
    ensures Ascii(s + t) == Ascii(s) + Ascii(t)
  {
  }

  method PutPair(b: byte, out: array<byte>, i: nat)
    requires 2 * i + 1 < out.Length
    modifies out
    ensures out[..2 * i] == old(out[..2 * i]) && out[2 * i..2 * i + 2] == Ascii(HexPair(b))
  {
    ghost var p := HexPair(b);
    assert p[0] in p && p[1] in p;
    out[2 * i] := HexPair(b)[0] as int;
    out[2 * i + 1] := HexPair(b)[1] as int;
  }

  method WriteHex(digest: array<byte>, out: array<byte>)
    requires out.Length == 2 * digest.Length + 1 && out != digest
    modifies out
    ensures out[..] == Ascii(HexOf(digest[..])) + [0]
  {
    ghost var d := digest[..];
    for i := 0 to digest.Length
      invariant digest[..] == d
      invariant out[..2 * i] == Ascii(HexOf(d[..i]))
    {
      HexOneMore(d, i);
      PutPair(digest[i], out, i);
      assert out[..2 * i + 2] == out[..2 * i] + out[2 * i..2 * i + 2];
    }
    out[2 * digest.Length] := 0;
    assert d[..|d|] == d;
  }

  /** The firmware's text form of a digest, with its terminator. */
  method Sha256Hex(data: array<byte>, len: nat, out: array<byte>)
    requires len <= data.Length && out.Length == 65
    modifies out
    ensures out[..] == Ascii(Sha256Text(old(data[..len]))) + [0]
  {
    var digest := new byte[32];
    Sha256.Sha256(data, len, digest);
    WriteHex(digest, out);
  }
}
