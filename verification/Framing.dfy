/** Self-delimiting frames: one kind byte, a 32-bit big-endian length, the payload. */
module Framing {
  import opened Bytes

  const KIND_JSON: byte := 0x4A
  const KIND_BINARY: byte := 0x42
  const MAX_FRAME_BYTES: nat := 8 * 1024 * 1024
  const HEADER_BYTES: nat := 5

  /** The firmware's sd_err_t. */
  datatype Code = OK | INVALID | IO | NO_MEM | TIMEOUT | UNSUPPORTED

  datatype Frame = Frame(kind: byte, payload: bytes)

  /** A frame both senders agree to put on the wire. */
  predicate Sendable(f: Frame) {
    f.kind in {KIND_JSON, KIND_BINARY} && |f.payload| <= MAX_FRAME_BYTES
  }

  function Encode(f: Frame): bytes {
    [f.kind] + U32(|f.payload|) + f.payload
  }

  function EncodeAll(fs: seq<Frame>): bytes {
    if fs == [] then [] else Encode(fs[0]) + EncodeAll(fs[1..])
  }

  datatype Parsed = Parsed(frame: Frame, rest: bytes) | Failed(code: Code)

  /** What the firmware receiver makes of a stream that holds exactly `s` and then closes. */
  function CReceive(s: bytes, cap: nat): Parsed {
    if |s| < HEADER_BYTES then Failed(IO)
    else if s[0] != KIND_JSON && s[0] != KIND_BINARY then Failed(IO)
    else
      var len := FromU32(s[1..5]);
      if len > MAX_FRAME_BYTES then Failed(IO)
      else if len > cap then Failed(NO_MEM)
      else if |s| < HEADER_BYTES + len then Failed(IO)
      else Parsed(Frame(s[0], s[5..5 + len]), s[5 + len..])
  }

  /** What the phone's receiver makes of it: any kind byte passes, and there is no caller buffer. */
  function PyReceive(s: bytes): Option<(Frame, bytes)> {
    if |s| < HEADER_BYTES then None
    else
      var len := FromU32(s[1..5]);
      if len > MAX_FRAME_BYTES then None
      else if |s| < HEADER_BYTES + len then None
      else Some((Frame(s[0], s[5..5 + len]), s[5 + len..]))
  }

  lemma EncodeShape(f: Frame, tail: bytes)
    requires |f.payload| <= MAX_FRAME_BYTES
    ensures var s := Encode(f) + tail;
            && |s| == HEADER_BYTES + |f.payload| + |tail|
            && s[0] == f.kind
            && FromU32(s[1..5]) == |f.payload|
            && s[5..5 + |f.payload|] == f.payload
            && s[5 + |f.payload|..] == tail
  {
    var s := Encode(f) + tail;
    U32RoundTrip(|f.payload|);
    assert s[1..5] == U32(|f.payload|);
  }

  /** The firmware accepts exactly the streams that begin with a sendable frame its buffer can
      hold, returns that frame and leaves exactly what follows it. */
  lemma CReceiveExact(s: bytes, cap: nat, f: Frame, rest: bytes)
    ensures CReceive(s, cap) == Parsed(f, rest)
            <==> s == Encode(f) + rest && Sendable(f) && |f.payload| <= cap
  {
    if s == Encode(f) + rest && Sendable(f) && |f.payload| <= cap {
      EncodeShape(f, rest);
    }
    if CReceive(s, cap) == Parsed(f, rest) {
      FromU32RoundTrip(s[1..5]);
      assert s == [s[0]] + s[1..5] + s[5..5 + |f.payload|] + s[5 + |f.payload|..];
    }
  }

  /** The phone accepts exactly the streams that begin with a frame of permitted size. */
  lemma PyReceiveExact(s: bytes, f: Frame, rest: bytes)
    ensures PyReceive(s) == Some((f, rest))
            <==> s == Encode(f) + rest && |f.payload| <= MAX_FRAME_BYTES
  {
    if s == Encode(f) + rest && |f.payload| <= MAX_FRAME_BYTES {
      EncodeShape(f, rest);
    }
    if PyReceive(s) == Some((f, rest)) {
      FromU32RoundTrip(s[1..5]);
      assert s == [s[0]] + s[1..5] + s[5..5 + |f.payload|] + s[5 + |f.payload|..];
    }
  }

  /** `n` receives in a row by the firmware (buffer of `cap` bytes each). */
  function CReceiveMany(s: bytes, n: nat, cap: nat): Option<(seq<Frame>, bytes)> {
    if n == 0 then Some(([], s))
    else match CReceive(s, cap)
      case Failed(_) => None
      case Parsed(f, rest) =>
        match CReceiveMany(rest, n - 1, cap)
        case None => None
        case Some((fs, end)) => Some(([f] + fs, end))
  }

  /** `n` receives in a row by the phone. */
  function PyReceiveMany(s: bytes, n: nat): Option<(seq<Frame>, bytes)> {
    if n == 0 then Some(([], s))
    else match PyReceive(s)
      case None => None
      case Some((f, rest)) =>
        match PyReceiveMany(rest, n - 1)
        case None => None
        case Some((fs, end)) => Some(([f] + fs, end))
  }

  /** A list of sendable frames, concatenated, is read back frame by frame by the phone, and not
      one byte of what follows the last frame is consumed. */
  lemma {:induction false} PyReceiveManyRoundTrip(fs: seq<Frame>, tail: bytes)
    requires forall f <- fs :: Sendable(f)
    ensures PyReceiveMany(EncodeAll(fs) + tail, |fs|) == Some((fs, tail))
  {
    if fs == [] {
      assert EncodeAll(fs) + tail == tail;
    } else {
      var rest := EncodeAll(fs[1..]) + tail;
      EncodeAllHead(fs, tail);
      PyReceiveManyRoundTrip(fs[1..], tail);
      PyReceiveExact(EncodeAll(fs) + tail, fs[0], rest);
      assert Sendable(fs[0]);
      assert PyReceive(EncodeAll(fs) + tail) == Some((fs[0], rest));
      assert PyReceiveMany(rest, |fs| - 1) == Some((fs[1..], tail));
      assert [fs[0]] + fs[1..] == fs;
    }
  }

  lemma EncodeAllHead(fs: seq<Frame>, tail: bytes)
    requires fs != []
    ensures EncodeAll(fs) + tail == Encode(fs[0]) + (EncodeAll(fs[1..]) + tail)
  {
  }

  /** The same for the firmware, when its buffer can hold every frame. */
  lemma {:induction false} CReceiveManyRoundTrip(fs: seq<Frame>, tail: bytes, cap: nat)
    requires forall f <- fs :: Sendable(f) && |f.payload| <= cap
    ensures CReceiveMany(EncodeAll(fs) + tail, |fs|, cap) == Some((fs, tail))
  {
    if fs == [] {
      assert EncodeAll(fs) + tail == tail;
    } else {
      var s, rest := EncodeAll(fs) + tail, EncodeAll(fs[1..]) + tail;
      EncodeAllHead(fs, tail);
      CReceiveManyRoundTrip(fs[1..], tail, cap);
      assert Sendable(fs[0]);
      CReceiveExact(s, cap, fs[0], rest);
      assert CReceive(s, cap) == Parsed(fs[0], rest);
      assert [fs[0]] + fs[1..] == fs;
    }
  }

  /** No two lists of sendable frames have the same bytes, even when one is followed by more. */
  lemma {:induction false} UniquelyDecodable(a: seq<Frame>, b: seq<Frame>, tail: bytes)
    requires forall f <- a :: Sendable(f)
    requires forall f <- b :: Sendable(f)
    requires EncodeAll(a) + tail == EncodeAll(b)
    ensures a <= b && EncodeAll(b[|a|..]) == tail
  {
    if a == [] {
      assert EncodeAll(b) == tail;
      assert b[0..] == b;
    } else {
      var ra, rb := EncodeAll(a[1..]) + tail, EncodeAll(b[1..]);
      EncodeAllHead(a, tail);
      PyReceiveExact(EncodeAll(b), a[0], ra);
      PyReceiveExact(EncodeAll(b), b[0], rb);
      assert Sendable(a[0]) && Sendable(b[0]);
      assert ra == rb;
      assert forall f <- a[1..] :: f in a;
      assert forall f <- b[1..] :: f in b;
      UniquelyDecodable(a[1..], b[1..], tail);
      assert b[|a|..] == b[1..][|a| - 1..];
      assert a == [a[0]] + a[1..] && b == [b[0]] + b[1..];
    }
  }

  lemma {:induction false} EncodeAllAppend(a: seq<Frame>, b: seq<Frame>)
    ensures EncodeAll(a + b) == EncodeAll(a) + EncodeAll(b)
  {
    if a == [] {
      assert a + b == b;
    } else {
      assert (a + b)[1..] == a[1..] + b;
      EncodeAllAppend(a[1..], b);
    }
  }

  lemma EncodeAllOne(f: Frame)
    ensures EncodeAll([f]) == Encode(f)
  {
    assert EncodeAll([f]) == Encode(f) + EncodeAll([]);
  }
}
