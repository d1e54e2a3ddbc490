/** SHA-256: the standard's definition (FIPS 180-4, sections 4.1.2, 5.1.1 and 6.2.2) and the
    firmware's streaming computation of it. */
module Sha256 {
  import opened Bytes

  type word = bv32

  // ---------- the standard ----------

  function Rotr(x: word, n: bv6): word
    requires n < 32
  {
    (x >> n) | (x << (32 - n))
  }

  /** Addition modulo 2^32. */
  function Add(x: word, y: word): word { x + y }

  function BigSigma0(x: word): word { Rotr(x, 2) ^ Rotr(x, 13) ^ Rotr(x, 22) }
  function BigSigma1(x: word): word { Rotr(x, 6) ^ Rotr(x, 11) ^ Rotr(x, 25) }
  function SmallSigma0(x: word): word { Rotr(x, 7) ^ Rotr(x, 18) ^ (x >> 3) }
  function SmallSigma1(x: word): word { Rotr(x, 17) ^ Rotr(x, 19) ^ (x >> 10) }
  function Ch(x: word, y: word, z: word): word { (x & y) ^ (!x & z) }
  function Maj(x: word, y: word, z: word): word { (x & y) ^ (x & z) ^ (y & z) }

  const K: seq<word> := [
    0x428a2f98, 0x71374491, 0xb5c0fbcf, 0xe9b5dba5, 0x3956c25b, 0x59f111f1, 0x923f82a4, 0xab1c5ed5,
    0xd807aa98, 0x12835b01, 0x243185be, 0x550c7dc3, 0x72be5d74, 0x80deb1fe, 0x9bdc06a7, 0xc19bf174,
    0xe49b69c1, 0xefbe4786, 0x0fc19dc6, 0x240ca1cc, 0x2de92c6f, 0x4a7484aa, 0x5cb0a9dc, 0x76f988da,
    0x983e5152, 0xa831c66d, 0xb00327c8, 0xbf597fc7, 0xc6e00bf3, 0xd5a79147, 0x06ca6351, 0x14292967,
    0x27b70a85, 0x2e1b2138, 0x4d2c6dfc, 0x53380d13, 0x650a7354, 0x766a0abb, 0x81c2c92e, 0x92722c85,
    0xa2bfe8a1, 0xa81a664b, 0xc24b8b70, 0xc76c51a3, 0xd192e819, 0xd6990624, 0xf40e3585, 0x106aa070,
    0x19a4c116, 0x1e376c08, 0x2748774c, 0x34b0bcb5, 0x391c0cb3, 0x4ed8aa4a, 0x5b9cca4f, 0x682e6ff3,
    0x748f82ee, 0x78a5636f, 0x84c87814, 0x8cc70208, 0x90befffa, 0xa4506ceb, 0xbef9a3f7, 0xc67178f2]

  /** The word spelled by the four bytes from position `i`, most significant first. */
  function WordAt(m: bytes, i: nat): word
    requires i + 4 <= |m|
  {
    ((m[i] as word) << 24) | ((m[i + 1] as word) << 16) | ((m[i + 2] as word) << 8) | (m[i + 3] as word)
  }

  /** The first `n` words of the message schedule of a block. */
  function Schedule(block: bytes, n: nat): (w: seq<word>)
    requires |block| == 64 && n <= 64
    ensures |w| == n
  {
    if n == 0 then [] else
      var w := Schedule(block, n - 1);
      var t := n - 1;
      w + [if t < 16 then WordAt(block, 4 * t)
           else Add(Add(Add(w[t - 16], SmallSigma0(w[t - 15])), w[t - 7]), SmallSigma1(w[t - 2]))]
  }

  /** The eight working variables. */
  datatype Regs = Regs(a: word, b: word, c: word, d: word, e: word, f: word, g: word, h: word)

  const H0: Regs := Regs(0x6a09e667, 0xbb67ae85, 0x3c6ef372, 0xa54ff53a,
                         0x510e527f, 0x9b05688c, 0x1f83d9ab, 0x5be0cd19)

  function Round(r: Regs, k: word, w: word): Regs {
    var t1 := Add(Add(Add(Add(r.h, BigSigma1(r.e)), Ch(r.e, r.f, r.g)), k), w);
    var t2 := Add(BigSigma0(r.a), Maj(r.a, r.b, r.c));
    Regs(Add(t1, t2), r.a, r.b, r.c, Add(r.d, t1), r.e, r.f, r.g)
  }

  function Rounds(r: Regs, k: seq<word>, w: seq<word>, n: nat): Regs
    requires n <= |k| && n <= |w|
  {
    if n == 0 then r else Round(Rounds(r, k, w, n - 1), k[n - 1], w[n - 1])
  }

  /** Addition of the working variables to the hash value, word by word. */
  function Accumulate(h: Regs, r: Regs): Regs {
    Regs(Add(h.a, r.a), Add(h.b, r.b), Add(h.c, r.c), Add(h.d, r.d),
         Add(h.e, r.e), Add(h.f, r.f), Add(h.g, r.g), Add(h.h, r.h))
  }

  function Compress(h: Regs, block: bytes): Regs
    requires |block| == 64
  {
    Accumulate(h, Rounds(h, K, Schedule(block, 64), 64))
  }

  /** The hash value after the first `n` blocks of a padded message. */
  function AfterBlocks(m: bytes, n: nat): Regs
    requires 64 * n <= |m|
  {
    if n == 0 then H0 else Compress(AfterBlocks(m, n - 1), m[64 * (n - 1)..64 * n])
  }

  /** How many zero bytes follow the 0x80 byte. */
  function ZeroCount(len: nat): nat {
    (119 - len % 64) % 64
  }

  /** It is the least number that leaves room for exactly the eight length bytes in a block. */
  lemma ZeroCountLeast(len: nat, j: nat)
    ensures (len + 1 + ZeroCount(len)) % 64 == 56
    ensures (len + 1 + j) % 64 == 56 ==> ZeroCount(len) <= j
  {
    var r := len % 64;
    if j < 64 {
      assert (len + 1 + j) % 64 == (r + 1 + j) % 64;
    }
  }

  function Pad(m: bytes): bytes {
    m + [0x80] + Zeros(ZeroCount(|m|)) + BigEndian(8 * |m|, 8)
  }

  lemma PadWholeBlocks(m: bytes)
    ensures |Pad(m)| % 64 == 0
    ensures |Pad(m)| == 64 * (|m| / 64 + (if |m| % 64 < 56 then 1 else 2))
  {
    var q, r := |m| / 64, |m| % 64;
    assert |m| == 64 * q + r;
    assert ZeroCount(|m|) == if r < 56 then 55 - r else 119 - r;
    DivModUnique(|Pad(m)|, 64, q + (if r < 56 then 1 else 2), 0);
  }

  function WordBytes(x: word): (b: bytes)
    ensures |b| == 4
  {
    [(x >> 24) as bv8 as byte, ((x >> 16) & 0xFF) as bv8 as byte,
     ((x >> 8) & 0xFF) as bv8 as byte, (x & 0xFF) as bv8 as byte]
  }

  function RegsBytes(h: Regs): (b: bytes)
    ensures |b| == 32
  {
    WordBytes(h.a) + WordBytes(h.b) + WordBytes(h.c) + WordBytes(h.d)
    + WordBytes(h.e) + WordBytes(h.f) + WordBytes(h.g) + WordBytes(h.h)
  }

  /** The 32-byte digest of a message. */
  function Digest(m: bytes): (d: bytes)
    ensures |d| == 32
  {
    PadWholeBlocks(m);
    RegsBytes(AfterBlocks(Pad(m), |Pad(m)| / 64))
  }

  // ---------- the firmware ----------

  /** Load the sixteen words of a block. */
  method LoadBlock(block: bytes, w: array<word>)
    requires |block| == 64 && w.Length == 64
    modifies w
    ensures w[..16] == Schedule(block, 16)
  {
    for i := 0 to 16
      invariant w[..i] == Schedule(block, i)
    {
      StoreWord(w, i, WordAt(block, 4 * i));
    }
  }

  method StoreWord(w: array<word>, i: nat, x: word)
    requires i < w.Length
    modifies w
    ensures w[..i + 1] == old(w[..i]) + [x]
  {
    w[i] := x;
  }

  /** Expand sixteen loaded words to the full schedule. */
  method ExpandSchedule(ghost block: bytes, w: array<word>)
    requires |block| == 64 && w.Length == 64 && w[..16] == Schedule(block, 16)
    modifies w
    ensures w[..] == Schedule(block, 64)
  {
    for i := 16 to 64
      invariant w[..i] == Schedule(block, i)
    {
      ghost var before := w[..i];
      var s0 := SmallSigma0(w[i - 15]);
      var s1 := SmallSigma1(w[i - 2]);
      w[i] := Add(Add(Add(w[i - 16], s0), w[i - 7]), s1);
      assert w[..i + 1] == before + [w[i]];
    }
    assert w[..] == w[..64];
  }

  /** The sixty-four rounds over the finished schedule. */
  method RunRounds(start: Regs, k: seq<word>, w: array<word>) returns (r: Regs)
    requires w.Length == 64 && |k| == 64
    ensures r == Rounds(start, k, w[..], 64)
  {
    var a, b, c, d := start.a, start.b, start.c, start.d;
    var e, f, g, hh := start.e, start.f, start.g, start.h;
    for i := 0 to 64
      invariant Regs(a, b, c, d, e, f, g, hh) == Rounds(start, k, w[..], i)
    {
      var S1 := BigSigma1(e);
      var ch := Ch(e, f, g);
      var t1 := Add(Add(Add(Add(hh, S1), ch), k[i]), w[i]);
      var S0 := BigSigma0(a);
      var maj := Maj(a, b, c);
      var t2 := Add(S0, maj);
      hh := g;
      g := f;
      f := e;
      e := Add(d, t1);
      d := c;
      c := b;
      b := a;
      a := Add(t1, t2);
    }
    r := Regs(a, b, c, d, e, f, g, hh);
  }

  /** The hash value held in the state array. */
  function State(h: array<word>): Regs
    requires h.Length == 8
    reads h
  {
    Regs(h[0], h[1], h[2], h[3], h[4], h[5], h[6], h[7])
  }

  /** Fold one block into the hash state, in place. */
  method Transform(h: array<word>, block: bytes)
    requires h.Length == 8 && |block| == 64
    modifies h
    ensures State(h) == Compress(old(State(h)), block)
  {
    var w := new word[64];
    LoadBlock(block, w);
    ExpandSchedule(block, w);
    var r := RunRounds(State(h), K, w);
    AddTo(h, r);
  }

  method AddTo(h: array<word>, r: Regs)
    requires h.Length == 8
    modifies h
    ensures State(h) == Accumulate(old(State(h)), r)
  {
    h[0], h[1], h[2], h[3] := Add(h[0], r.a), Add(h[1], r.b), Add(h[2], r.c), Add(h[3], r.d);
    h[4], h[5], h[6], h[7] := Add(h[4], r.e), Add(h[5], r.f), Add(h[6], r.g), Add(h[7], r.h);
  }

  lemma {:induction false} BigEndianAt(n: nat, k: nat, i: nat)
    requires i < k
    ensures BigEndian(n, k)[k - 1 - i] == n / Pow256(i) % 256
  {
    if i > 0 {
      BigEndianAt(n / 256, k - 1, i - 1);
      DivDiv(n, Pow256(i - 1));
    }
  }

  lemma DivDiv(n: nat, p: nat)
    requires p > 0
    ensures n / 256 / p == n / (256 * p)
  {
    ModOfDiv(n, p);
    var q := n / 256 / p;
    DivModUnique(n, 256 * p, q, n / 256 % p * 256 + n % 256);
  }

  /** What padding leaves after the full blocks. */
  lemma PadTail(m: bytes)
    ensures 64 * (|m| / 64) <= |Pad(m)| && Pad(m)[..64 * (|m| / 64)] == m[..64 * (|m| / 64)]
    ensures Pad(m)[64 * (|m| / 64)..]
            == m[64 * (|m| / 64)..] + [0x80] + Zeros(ZeroCount(|m|)) + BigEndian(8 * |m|, 8)
  {
  }

  /** Store the bit length in the eight bytes before `end`, least significant byte last. */
  method StoreLength(tail: array<byte>, end: nat, bits: nat)
    requires 8 <= end <= tail.Length
    modifies tail
    ensures tail[..end] == old(tail[..end - 8]) + BigEndian(bits, 8)
  {
    ghost var b := BigEndian(bits, 8);
    ghost var head := tail[..end - 8];
    for i := 0 to 8
      invariant tail[..end - 8] == head
      invariant tail[end - i..end] == b[8 - i..]
    {
      ghost var after := tail[end - i..end];
      tail[end - 1 - i] := bits / Pow256(i) % 256;
      BigEndianAt(bits, 8, i);
      assert tail[end - (i + 1)..end] == [b[7 - i]] + after;
      assert b[8 - (i + 1)..] == [b[7 - i]] + b[8 - i..];
    }
    assert tail[end - 8..end] == b[0..] == b;
    assert tail[..end] == tail[..end - 8] + tail[end - 8..end];
  }

  /** Build the padded last block or two in `tail`: what is left of the message, 0x80, zeros and
      the bit length. */
  method FillTail(data: array<byte>, len: nat, tail: array<byte>) returns (padTo: nat)
    requires len <= data.Length && tail.Length == 128 && data != tail
    modifies tail
    ensures padTo == if len % 64 < 56 then 64 else 128
    ensures 64 * (len / 64) + padTo == |Pad(data[..len])|
    ensures tail[..padTo] == Pad(data[..len])[64 * (len / 64)..]
  {
    ghost var all := data[..];
    var full := len / 64;
    var rem := len - full * 64;
    padTo := if rem < 56 then 64 else 128;
    TailOfPad(all, len, full, rem, padTo);
    CopyAndMark(data, full * 64, rem, padTo, tail);
    StoreLength(tail, padTo, len * 8);
  }

  /** What the padded message has behind its whole blocks. */
  lemma TailOfPad(data: bytes, len: nat, full: nat, rem: nat, padTo: nat)
    requires len <= |data| && full == len / 64 && rem == len - full * 64
    requires padTo == if rem < 56 then 64 else 128
    ensures rem == len % 64 && full * 64 + rem == len && rem + 9 <= padTo
    ensures |Pad(data[..len])| == 64 * full + padTo
    ensures Pad(data[..len])[64 * full..]
            == data[full * 64..full * 64 + rem] + [0x80] + Zeros(padTo - 9 - rem) + BigEndian(len * 8, 8)
  {
    var m := data[..len];
    PadTail(m);
    Middle(data, len, full * 64);
    ZerosNeeded(len, rem, padTo);
  }

  lemma Middle(data: bytes, len: nat, from: nat)
    requires from <= len <= |data|
    ensures data[..len][from..] == data[from..len]
  {
  }

  lemma ZerosNeeded(len: nat, rem: nat, padTo: nat)
    requires rem == len % 64 && padTo == if rem < 56 then 64 else 128
    ensures ZeroCount(len) == padTo - 9 - rem
  {
  }

  /** Copy `rem` bytes from `data[from..]`, then 0x80, then zeros up to `padTo`. */
  method CopyAndMark(data: array<byte>, from: nat, rem: nat, padTo: nat, tail: array<byte>)
    requires from + rem <= data.Length && rem + 9 <= padTo <= tail.Length && data != tail
    modifies tail
    ensures tail[..padTo - 8] == data[from..from + rem] + [0x80] + Zeros(padTo - 9 - rem)
  {
    forall j | 0 <= j < rem {
      tail[j] := data[from + j];
    }
    tail[rem] := 0x80;
    forall j | rem + 1 <= j < padTo {
      tail[j] := 0;
    }
  }

  /** One more block of the padded message `p`. */
  method HashBlock(block: bytes, ghost p: bytes, ghost n: nat, h: array<word>)
    requires 64 * (n + 1) <= |p| && block == p[64 * n..64 * (n + 1)]
    requires h.Length == 8 && State(h) == AfterBlocks(p, n)
    modifies h
    ensures State(h) == AfterBlocks(p, n + 1)
  {
    Transform(h, block);
  }

  lemma SliceOfPrefix(p: bytes, q: bytes, n: nat, i: nat)
    requires i < n && 64 * n <= |p| && 64 * n <= |q| && p[..64 * n] == q[..64 * n]
    ensures p[64 * i..64 * i + 64] == q[64 * i..64 * (i + 1)]
  {
    assert p[64 * i..64 * i + 64] == p[..64 * n][64 * i..64 * (i + 1)];
    assert q[64 * i..64 * (i + 1)] == q[..64 * n][64 * i..64 * (i + 1)];
  }

  /** Hash the first `n` blocks of the input, which are those of the padded message `p`. */
  method HashFull(data: array<byte>, n: nat, ghost p: bytes, h: array<word>)
    requires 64 * n <= data.Length && 64 * n <= |p| && data[..64 * n] == p[..64 * n]
    requires h.Length == 8 && State(h) == H0
    modifies h
    ensures State(h) == AfterBlocks(p, n)
  {
    ghost var d := data[..];
    for i := 0 to n
      invariant data[..] == d
      invariant State(h) == AfterBlocks(p, i)
    {
      SliceOfPrefix(d, p, n, i);
      HashBlock(data[64 * i..64 * i + 64], p, i, h);
    }
  }

  lemma SliceOfTail(p: bytes, n: nat, tail: bytes, padTo: nat)
    requires |tail| == 128 && (padTo == 64 || padTo == 128)
    requires |p| == 64 * n + padTo && tail[..padTo] == p[64 * n..]
    ensures tail[..64] == p[64 * n..64 * (n + 1)]
    ensures padTo == 128 ==> tail[64..] == p[64 * (n + 1)..64 * (n + 2)]
    ensures |p| / 64 == n + padTo / 64
  {
    assert tail[..64] == tail[..padTo][..64];
    if padTo == 128 {
      assert tail[64..] == tail[..padTo][64..];
    }
  }

  /** Hash the last block or two of the padded message `p`, which stand in `tail`. */
  method HashTail(tail: array<byte>, padTo: nat, ghost p: bytes, ghost n: nat, h: array<word>)
    requires tail.Length == 128 && (padTo == 64 || padTo == 128)
    requires 64 * (n + 1) <= |p| && tail[..64] == p[64 * n..64 * (n + 1)]
    requires padTo == 128 ==> 64 * (n + 2) <= |p| && tail[64..] == p[64 * (n + 1)..64 * (n + 2)]
    requires h.Length == 8 && State(h) == AfterBlocks(p, n)
    modifies h
    ensures State(h) == AfterBlocks(p, if padTo == 64 then n + 1 else n + 2)
  {
    var second := tail[64..];
    HashBlock(tail[..64], p, n, h);
    if padTo == 128 {
      HashBlock(second, p, n + 1, h);
    }
  }

  method FinishTail(tail: array<byte>, padTo: nat, ghost p: bytes, ghost n: nat, h: array<word>)
    requires tail.Length == 128 && (padTo == 64 || padTo == 128)
    requires |p| == 64 * n + padTo && tail[..padTo] == p[64 * n..]
    requires h.Length == 8 && State(h) == AfterBlocks(p, n)
    modifies h
    ensures State(h) == AfterBlocks(p, |p| / 64)
  {
    SliceOfTail(p, n, tail[..], padTo);
    HashTail(tail, padTo, p, n, h);
  }

  /** The whole digest: full blocks straight from the input, then the tail. */
  method Sha256(data: array<byte>, len: nat, out: array<byte>)
    requires len <= data.Length && out.Length == 32
    modifies out
    ensures out[..] == Digest(old(data[..len]))
  {
    ghost var m := data[..len];
    PadTail(m);
    var full := len / 64;
    assert data[..64 * full] == m[..64 * full];
    var h := new word[8];
    h[0], h[1], h[2], h[3] := 0x6a09e667, 0xbb67ae85, 0x3c6ef372, 0xa54ff53a;
    h[4], h[5], h[6], h[7] := 0x510e527f, 0x9b05688c, 0x1f83d9ab, 0x5be0cd19;
    assert State(h) == H0;
    HashFull(data, full, Pad(m), h);
    var tail := new byte[128];
    assert data[..len] == m;
    var padTo := FillTail(data, len, tail);
    FinishTail(tail, padTo, Pad(m), full, h);
    StoreWords(h, out);
  }

  /** Write the eight state words out, most significant byte first. */
  method StoreWords(h: array<word>, out: array<byte>)
    requires h.Length == 8 && out.Length == 32
    modifies out
    ensures out[..] == RegsBytes(State(h))
  {
    ghost var words := h[..];
    for i := 0 to 8
      invariant h[..] == words
      invariant forall j :: 0 <= j < i ==> out[4 * j..4 * j + 4] == WordBytes(words[j])
    {
      var b := WordBytes(h[i]);
      out[i * 4] := b[0];
      out[i * 4 + 1] := b[1];
      out[i * 4 + 2] := b[2];
      out[i * 4 + 3] := b[3];
    }
    assert out[..] == out[0..4] + out[4..8] + out[8..12] + out[12..16]
                      + out[16..20] + out[20..24] + out[24..28] + out[28..32];
  }
}
