/** The firmware's receiver for an audio downlink: chunk frames copied in place, a running byte
    count, a closing control frame, then the hash. */
module AudioReceiver {
  import opened Bytes
  import opened Framing
  import opened Transport
  import opened Chunks
  import opened Cover

  const FRAME_CAP: nat := SEQ_BYTES + CHUNK_SIZE

  /** The next chunk of the stream, if it is a binary frame that fits where it must be written. */
  function NextChunk(s: bytes, cap: nat): (r: Result<(Chunk, bytes), Code>)
    ensures r.Ok? ==> InRange(r.value.0, cap) && |r.value.1| < |s|
  {
    match CReceive(s, FRAME_CAP)
    case Failed(code) => Err(code)
    case Parsed(f, rest) =>
      if f.kind != KIND_BINARY || |f.payload| < SEQ_BYTES then Err(IO)
      else
        var c := Parse(f.payload).value;
        if Offset(c) + |c.data| > cap then Err(IO) else Ok((c, rest))
  }

  /** The next `n` chunks. */
  function ReadChunks(s: bytes, n: nat, cap: nat): (r: Result<(seq<Chunk>, bytes), Code>)
    ensures r.Ok? ==> |r.value.0| == n && AllInRange(r.value.0, cap)
  {
    if n == 0 then Ok(([], s)) else
      match ReadChunks(s, n - 1, cap)
      case Err(e) => Err(e)
      case Ok((cs, rest)) =>
        match NextChunk(rest, cap)
        case Err(e) => Err(e)
        case Ok((c, end)) => Ok((cs + [c], end))
  }

  /** After the chunks: the closing control frame, the byte count, the hash. `wrap` is one more
      than the largest size_t. */
  function BodyEnd(cs: seq<Chunk>, s: bytes, size: nat, sha: bytes, pcm: bytes, wrap: nat,
                    hash: bytes -> string): Result<(bytes, bytes), Code>
    requires wrap > 0 && size <= |pcm| && AllInRange(cs, |pcm|)
  {
    match CReceive(s, FRAME_CAP)
    case Failed(code) => Err(code)
    case Parsed(f, rest) =>
      if f.kind != KIND_JSON then Err(IO)
      else if Total(cs) % wrap != size then Err(IO)
      else if Ascii(hash(WriteAll(pcm, cs)[..size])) != sha then Err(IO)
      else Ok((WriteAll(pcm, cs), rest))
  }

  /** What a stream `s` does to the buffer `pcm`: the filled buffer and what is left of the stream,
      or the error. */
  function AudioBody(s: bytes, chunks: nat, size: nat, sha: bytes, pcm: bytes, wrap: nat,
                     hash: bytes -> string): Result<(bytes, bytes), Code>
    requires wrap > 0
  {
    if |pcm| < size then Err(INVALID)
    else match ReadChunks(s, chunks, |pcm|)
      case Err(e) => Err(e)
      case Ok((cs, rest)) => BodyEnd(cs, rest, size, sha, pcm, wrap, hash)
  }

  const TWO64: int := TWO32 * TWO32

  /** The place of a chunk in 64-bit arithmetic, and cut down to a size_t below `wrap`. */
  function Place64(num: nat): nat { num * CHUNK_SIZE % TWO64 }

  function End64(off: nat, dlen: nat): nat { (off + dlen) % TWO64 }

  function Narrow(off: nat, wrap: nat): nat
    requires wrap > 0
  {
    off % wrap
  }

  /** Neither the product nor the sum can wrap round in 64 bits, and a place that passes the bounds
      check survives the cast to a size_t of any width that can hold the buffer's size. */
  lemma PlaceIsExact(num: nat, dlen: nat, cap: nat, wrap: nat)
    requires num < TWO32 && dlen <= CHUNK_SIZE && cap < wrap
    ensures Place64(num) == num * CHUNK_SIZE && End64(Place64(num), dlen) == num * CHUNK_SIZE + dlen
    ensures End64(Place64(num), dlen) <= cap ==> Narrow(Place64(num), wrap) == num * CHUNK_SIZE
  {
    NoWrap(num * CHUNK_SIZE, TWO64);
    NoWrap(num * CHUNK_SIZE + dlen, TWO64);
    if num * CHUNK_SIZE + dlen <= cap {
      NoWrap(num * CHUNK_SIZE, wrap);
    }
  }

  /** One turn of the receive loop. The buffer's size is a size_t. */
  method ReceiveChunk(t: Link, frame: array<byte>, pcm: array<byte>, wrap: nat) returns (err: Code, dlen: nat)
    requires frame.Length == FRAME_CAP && frame != pcm && pcm.Length < wrap
    modifies t`incoming, frame, pcm
    ensures err == OK ==> var r := NextChunk(old(t.incoming), pcm.Length);
                          && r.Ok? && t.incoming == r.value.1 && dlen == |r.value.0.data|
                          && InRange(r.value.0, pcm.Length)
                          && pcm[..] == Write(old(pcm[..]), r.value.0)
    ensures t.reliable && err != OK ==> NextChunk(old(t.incoming), pcm.Length) == Err(err)
  {
    dlen := 0;
    ghost var was := pcm[..];
    var kind, len;
    err, kind, len := t.FrameRecv(frame, FRAME_CAP);
    if err != OK {
      return;
    }
    if kind != KIND_BINARY || len < 4 {
      err := IO;
      return;
    }
    var num := frame[0] as int * 0x100_0000 + frame[1] as int * 0x1_0000 + frame[2] as int * 0x100 + frame[3];
    ghost var payload := frame[..len];
    ghost var c := Parse(payload).value;
    FromU32Bytes(payload[..4]);
    assert num == c.num;
    dlen := len - 4;
    PlaceIsExact(num, dlen, pcm.Length, wrap);
    var off := Place64(num);
    if End64(off, dlen) > pcm.Length {
      err := IO;
      return;
    }
    off := Narrow(off, wrap);
    assert c.data == frame[4..len];
    forall j | 0 <= j < dlen {
      pcm[off + j] := frame[4 + j];
    }
    assert pcm[..] == Write(was, c);
  }

  method ReceiveAudioBody(t: Link, chunks: nat, size: nat, sha: bytes, pcm: array<byte>, wrap: nat,
                          hash: bytes -> string) returns (err: Code)
    requires pcm.Length < wrap
    modifies t`incoming, pcm
    ensures err == OK ==> AudioBody(old(t.incoming), chunks, size, sha, old(pcm[..]), wrap, hash)
                          == Ok((pcm[..], t.incoming))
    ensures t.reliable && err != OK
            ==> AudioBody(old(t.incoming), chunks, size, sha, old(pcm[..]), wrap, hash) == Err(err)
  {
    if pcm.Length < size {
      return INVALID;
    }
    var frame := new byte[FRAME_CAP];
    ghost var was := pcm[..];
    var total;
    ghost var cs;
    err, total, cs := ReceiveChunks(t, chunks, frame, pcm, wrap);
    if err != OK {
      return;
    }
    err := ReceiveEnd(t, frame, total, size, sha, pcm, wrap, hash, was, cs);
  }

  /** The chunk loop: only a running count is kept, not which numbers came. */
  method ReceiveChunks(t: Link, chunks: nat, frame: array<byte>, pcm: array<byte>, wrap: nat)
    returns (err: Code, total: nat, ghost cs: seq<Chunk>)
    requires frame.Length == FRAME_CAP && frame != pcm && pcm.Length < wrap
    modifies t`incoming, frame, pcm
    ensures err == OK ==> Received(old(t.incoming), chunks, cs, t.incoming, old(pcm[..]), pcm[..], total, wrap)
    ensures t.reliable && err != OK ==> ReadChunks(old(t.incoming), chunks, pcm.Length) == Err(err)
  {
    total, cs := 0, [];
    ghost var s, was := t.incoming, pcm[..];
    for i := 0 to chunks
      invariant Received(s, i, cs, t.incoming, was, pcm[..], total, wrap)
    {
      ghost var before, now, count := t.incoming, pcm[..], total;
      var dlen;
      err, dlen := ReceiveChunk(t, frame, pcm, wrap);
      if err != OK {
        ChunkErrorIsFinal(s, i, chunks, pcm.Length, cs, before);
        return;
      }
      total := AddSize(total, dlen, wrap);
      cs := ReceivedMore(s, i, cs, before, was, now, count, wrap);
    }
    err := OK;
  }

  /** Addition of sizes in a size_t. */
  function AddSize(a: nat, b: nat, wrap: nat): (c: nat)
    requires wrap > 0
    ensures c == (a + b) % wrap
  {
    (a + b) % wrap
  }

  /** The running count after a list of chunks. */
  function Counted(cs: seq<Chunk>, wrap: nat): nat
    requires wrap > 0
  {
    if cs == [] then 0 else AddSize(Counted(cs[..|cs| - 1], wrap), |cs[|cs| - 1].data|, wrap)
  }

  /** It is the number of bytes, modulo the width. */
  lemma {:induction false} CountedIsTotal(cs: seq<Chunk>, wrap: nat)
    requires wrap > 0
    ensures Counted(cs, wrap) == Total(cs) % wrap
  {
    if cs != [] {
      CountedIsTotal(cs[..|cs| - 1], wrap);
      ModAdd(Total(cs[..|cs| - 1]), |cs[|cs| - 1].data|, wrap);
    } else {
      NoWrap(0, wrap);
    }
  }

  /** The first `i` chunks of `s` were read; they filled the buffer and were counted. */
  ghost predicate Received(s: bytes, i: nat, cs: seq<Chunk>, rest: bytes, was: bytes, now: bytes, total: nat, wrap: nat)
    requires wrap > 0
  {
    && ReadChunks(s, i, |was|) == Ok((cs, rest)) && AllInRange(cs, |was|)
    && now == WriteAll(was, cs) && total == Counted(cs, wrap)
  }

  lemma ReceivedMore(s: bytes, i: nat, cs: seq<Chunk>, rest: bytes, was: bytes, now: bytes, total: nat, wrap: nat)
      returns (more: seq<Chunk>)
    requires wrap > 0 && Received(s, i, cs, rest, was, now, total, wrap)
    requires NextChunk(rest, |was|).Ok? && |now| == |was|
    ensures var (c, end) := NextChunk(rest, |was|).value;
            Received(s, i + 1, more, end, was, Write(now, c), AddSize(total, |c.data|, wrap), wrap)
  {
    var c := NextChunk(rest, |was|).value.0;
    more := cs + [c];
    assert more[..|cs|] == cs;
  }

  /** The closing frame and the final checks. */
  method ReceiveEnd(t: Link, frame: array<byte>, total: nat, size: nat, sha: bytes, pcm: array<byte>,
                    wrap: nat, hash: bytes -> string, ghost was: bytes, ghost cs: seq<Chunk>)
    returns (err: Code)
    requires frame.Length == FRAME_CAP && frame != pcm && wrap > 0
    requires size <= pcm.Length == |was| && AllInRange(cs, |was|)
    requires pcm[..] == WriteAll(was, cs) && total == Counted(cs, wrap)
    modifies t`incoming, frame
    ensures err == OK ==> BodyEnd(cs, old(t.incoming), size, sha, was, wrap, hash) == Ok((pcm[..], t.incoming))
    ensures t.reliable && err != OK ==> BodyEnd(cs, old(t.incoming), size, sha, was, wrap, hash) == Err(err)
  {
    ghost var filled := pcm[..];
    var kind, len;
    err, kind, len := t.FrameRecv(frame, FRAME_CAP);
    if err != OK {
      return;
    }
    if kind != KIND_JSON {
      return IO;
    }
    CountedIsTotal(cs, wrap);
    if total != size {
      return IO;
    }
    var hex := Ascii(hash(pcm[..size]));
    assert pcm[..size] == filled[..size];
    if hex != sha {
      return IO;
    }
    return OK;
  }

  lemma {:induction false} ChunkErrorIsFinal(s: bytes, i: nat, n: nat, cap: nat, cs: seq<Chunk>, rest: bytes)
    requires i < n && ReadChunks(s, i, cap) == Ok((cs, rest))
    ensures NextChunk(rest, cap).Err? ==> ReadChunks(s, n, cap) == Err(NextChunk(rest, cap).error)
  {
    if i + 1 < n {
      ChunkErrorIsFinal(s, i, n - 1, cap, cs, rest);
    }
  }

  lemma ModAdd(a: nat, b: nat, m: nat)
    requires m > 0
    ensures (a % m + b) % m == (a + b) % m
  {
    var q, r := (a + b) / m, (a + b) % m;
    assert a + b == q * m + r && a == a / m * m + a % m;
    assert a % m + b == (q - a / m) * m + r;
    DivModUnique(a % m + b, m, q - a / m, r);
  }

  // ---------- the stream a sender produces ----------

  function ChunkFrame(c: Chunk): Frame { Frame(KIND_BINARY, Payload(c)) }

  function ChunkFrames(cs: seq<Chunk>): (fs: seq<Frame>)
    ensures |fs| == |cs| && forall i :: 0 <= i < |cs| ==> fs[i] == ChunkFrame(cs[i])
  {
    seq(|cs|, i requires 0 <= i < |cs| => ChunkFrame(cs[i]))
  }

  /** Chunks that fit in the firmware's frame buffer and header. */
  predicate Carriable(cs: seq<Chunk>) {
    forall c <- cs :: c.num < TWO32 && |c.data| <= CHUNK_SIZE
  }

  lemma NextChunkOfFrame(c: Chunk, tail: bytes, cap: nat)
    requires c.num < TWO32 && |c.data| <= CHUNK_SIZE
    ensures NextChunk(Encode(ChunkFrame(c)) + tail, cap) == if InRange(c, cap) then Ok((c, tail)) else Err(IO)
  {
    CReceiveExact(Encode(ChunkFrame(c)) + tail, FRAME_CAP, ChunkFrame(c), tail);
    ParsePayload(c);
  }

  /** The chunk loop reads back exactly the chunks that were framed, as long as all are in range. */
  lemma {:induction false} ReadChunksOfFrames(cs: seq<Chunk>, tail: bytes, cap: nat)
    requires Carriable(cs)
    ensures ReadChunks(EncodeAll(ChunkFrames(cs)) + tail, |cs|, cap)
            == if AllInRange(cs, cap) then Ok((cs, tail)) else Err(IO)
  {
    if cs == [] {
      assert EncodeAll(ChunkFrames(cs)) + tail == tail;
    } else {
      var init, last := cs[..|cs| - 1], cs[|cs| - 1];
      assert cs == init + [last] && ChunkFrames(cs) == ChunkFrames(init) + [ChunkFrame(last)];
      EncodeAllAppend(ChunkFrames(init), [ChunkFrame(last)]);
      EncodeAllOne(ChunkFrame(last));
      var rest := Encode(ChunkFrame(last)) + tail;
      assert EncodeAll(ChunkFrames(cs)) + tail == EncodeAll(ChunkFrames(init)) + rest;
      ReadChunksOfFrames(init, rest, cap);
      NextChunkOfFrame(last, tail, cap);
      assert AllInRange(cs, cap) <==> AllInRange(init, cap) && InRange(last, cap) by {
        assert forall c :: c in cs <==> c in init || c == last;
      }
    }
  }

  lemma BodyEndOfFrame(cs: seq<Chunk>, end: Frame, tail: bytes, pcm: bytes, sha: string, wrap: nat,
                        hash: bytes -> string)
    requires end.kind == KIND_JSON && |end.payload| <= FRAME_CAP
    requires wrap > 0 && AllInRange(cs, |pcm|) && Total(cs) < wrap
    requires IsAscii(sha) && HashIsText(hash)
    ensures BodyEnd(cs, Encode(end) + tail, |pcm|, Ascii(sha), pcm, wrap, hash)
            == if Accepts(pcm, cs, sha, hash) then Ok((WriteAll(pcm, cs), tail)) else Err(IO)
  {
    var filled := WriteAll(pcm, cs);
    WholeSlice(filled, |pcm|);
    NoWrap(Total(cs), wrap);
    AsciiInjective(hash(filled), sha);
    CReceiveExact(Encode(end) + tail, FRAME_CAP, end, tail);
  }

  lemma WholeSlice(b: bytes, n: nat)
    requires n == |b|
    ensures b[..n] == b
  {
  }

  lemma NoWrap(a: nat, m: nat)
    requires a < m
    ensures a % m == a
  {
  }

  /** The hash is written in ASCII, as every hex digest is. */
  ghost predicate HashIsText(hash: bytes -> string) {
    forall m :: IsAscii(hash(m))
  }

  /** Every stream of chunk frames closed by a control frame is accepted exactly when its chunks
      are acceptable, provided the byte count cannot wrap round to the size. */
  lemma AudioBodyOfFrames(cs: seq<Chunk>, end: Frame, tail: bytes, pcm: bytes, sha: string, wrap: nat,
                          hash: bytes -> string)
    requires Carriable(cs) && end.kind == KIND_JSON && |end.payload| <= FRAME_CAP
    requires wrap > 0 && (AllInRange(cs, |pcm|) ==> Total(cs) < wrap)
    requires IsAscii(sha) && HashIsText(hash)
    ensures AudioBody(EncodeAll(ChunkFrames(cs) + [end]) + tail, |cs|, |pcm|, Ascii(sha), pcm, wrap, hash)
            == if Accepts(pcm, cs, sha, hash) then Ok((WriteAll(pcm, cs), tail)) else Err(IO)
  {
    var s, rest := EncodeAll(ChunkFrames(cs) + [end]) + tail, Encode(end) + tail;
    FramesThenEnd(ChunkFrames(cs), end, tail);
    ReadChunksOfFrames(cs, rest, |pcm|);
    if AllInRange(cs, |pcm|) {
      BodyEndOfFrame(cs, end, tail, pcm, sha, wrap, hash);
    }
  }

  lemma FramesThenEnd(fs: seq<Frame>, end: Frame, tail: bytes)
    ensures EncodeAll(fs + [end]) + tail == EncodeAll(fs) + (Encode(end) + tail)
  {
    EncodeAllAppend(fs, [end]);
    EncodeAllOne(end);
  }

  lemma {:induction false} ErrorStays(s: bytes, i: nat, n: nat, cap: nat)
    requires i <= n && ReadChunks(s, i, cap).Err?
    ensures ReadChunks(s, n, cap).Err?
  {
    if i < n {
      ErrorStays(s, i, n - 1, cap);
    }
  }

  /** Fewer chunks announced than sent: a chunk stands where the end should. */
  lemma TooFewAnnounced(cs: seq<Chunk>, n: nat, tail: bytes, pcm: bytes, sha: bytes, wrap: nat, hash: bytes -> string)
    requires Carriable(cs) && n < |cs| && wrap > 0
    ensures AudioBody(EncodeAll(ChunkFrames(cs)) + tail, n, |pcm|, sha, pcm, wrap, hash).Err?
  {
    var front, back := cs[..n], cs[n..];
    assert cs == front + back && ChunkFrames(cs) == ChunkFrames(front) + ChunkFrames(back);
    EncodeAllAppend(ChunkFrames(front), ChunkFrames(back));
    var rest := EncodeAll(ChunkFrames(back)) + tail;
    Assoc(EncodeAll(ChunkFrames(front)), EncodeAll(ChunkFrames(back)), tail);
    assert forall c <- front :: c in cs;
    ReadChunksOfFrames(front, rest, |pcm|);
    assert forall c <- back :: c in cs;
    ChunkWaits(back, rest, tail);
  }

  lemma ChunkWaits(cs: seq<Chunk>, rest: bytes, tail: bytes)
    requires cs != [] && Carriable(cs) && rest == EncodeAll(ChunkFrames(cs)) + tail
    ensures CReceive(rest, FRAME_CAP).Parsed? && CReceive(rest, FRAME_CAP).frame.kind == KIND_BINARY
  {
    var f, more := ChunkFrames(cs)[0], EncodeAll(ChunkFrames(cs)[1..]) + tail;
    EncodeAllHead(ChunkFrames(cs), tail);
    assert cs[0] in cs;
    CReceiveExact(rest, FRAME_CAP, f, more);
  }

  /** More chunks announced than sent: the end stands where a chunk should. */
  lemma TooManyAnnounced(cs: seq<Chunk>, n: nat, end: Frame, tail: bytes, pcm: bytes, sha: bytes, wrap: nat,
                         hash: bytes -> string)
    requires Carriable(cs) && n > |cs| && wrap > 0 && end.kind == KIND_JSON && |end.payload| <= FRAME_CAP
    ensures AudioBody(EncodeAll(ChunkFrames(cs)) + (Encode(end) + tail), n, |pcm|, sha, pcm, wrap, hash).Err?
  {
    var rest := Encode(end) + tail;
    var s := EncodeAll(ChunkFrames(cs)) + rest;
    ReadChunksOfFrames(cs, rest, |pcm|);
    CReceiveExact(rest, FRAME_CAP, end, tail);
    if AllInRange(cs, |pcm|) {
      ChunkErrorIsFinal(s, |cs|, n, |pcm|, cs, rest);
    } else {
      ErrorStays(s, |cs|, n, |pcm|);
    }
  }

  /** The two receivers agree. Fed the same chunk frames and the same announcement of `n` chunks, none
      repeated, the firmware accepts the transfer exactly when the phone's receiver accepts it and
      every chunk fits at its 4096-byte place; both then hold the same bytes. When as many chunks are
      announced as come, the phone's receiver and the fit by themselves rule repetitions out. This is
      so for every width of size_t that can hold the announced size. */
  lemma ReceiversAgree(cs: seq<Chunk>, n: nat, end: Frame, tail: bytes, pcm: bytes, sha: string, wrap: nat,
                       hash: bytes -> string)
    requires Carriable(cs) && end.kind == KIND_JSON && |end.payload| <= FRAME_CAP
    requires |pcm| < wrap && IsAscii(sha) && HashIsText(hash)
    ensures var c := AudioBody(EncodeAll(ChunkFrames(cs) + [end]) + tail, n, |pcm|, Ascii(sha), pcm, wrap, hash);
            var py := Finish(Store(cs), Announced(|pcm|, n, sha), hash);
            && (DistinctSeqs(cs) ==> (c.Ok? <==> py.Some? && AllInRange(cs, |pcm|)))
            && (DistinctSeqs(cs) && c.Ok? ==> c == Ok((py.value, tail)))
            && (n == |cs| && py.Some? && AllInRange(cs, |pcm|) ==> DistinctSeqs(cs))
  {
    FramesThenEnd(ChunkFrames(cs), end, tail);
    if n == |cs| {
      ReceiversAgreeCounted(cs, end, tail, pcm, sha, wrap, hash);
    } else {
      if n < |cs| {
        TooFewAnnounced(cs, n, Encode(end) + tail, pcm, Ascii(sha), wrap, hash);
      } else {
        TooManyAnnounced(cs, n, end, tail, pcm, Ascii(sha), wrap, hash);
      }
      if DistinctSeqs(cs) {
        StoreDistinct(cs);
      }
    }
  }

  lemma ReceiversAgreeCounted(cs: seq<Chunk>, end: Frame, tail: bytes, pcm: bytes, sha: string, wrap: nat,
                              hash: bytes -> string)
    requires Carriable(cs) && end.kind == KIND_JSON && |end.payload| <= FRAME_CAP
    requires |pcm| < wrap && IsAscii(sha) && HashIsText(hash)
    ensures var c := AudioBody(EncodeAll(ChunkFrames(cs) + [end]) + tail, |cs|, |pcm|, Ascii(sha), pcm, wrap, hash);
            var py := Finish(Store(cs), Announced(|pcm|, |cs|, sha), hash);
            && (c.Ok? && DistinctSeqs(cs) <==> py.Some? && AllInRange(cs, |pcm|))
            && (c.Ok? && DistinctSeqs(cs) ==> c == Ok((py.value, tail)))
  {
    Agreement(pcm, cs, sha, hash);
    if DistinctSeqs(cs) {
      if AllInRange(cs, |pcm|) {
        DistinctIsNonEmptyDistinct(cs);
        CoveredSize(cs, |pcm|);
      }
      AudioBodyOfFrames(cs, end, tail, pcm, sha, wrap, hash);
    }
  }

  // ---------- the downlink ----------

  lemma SplitFits(data: bytes, n: nat)
    requires n == ChunkCount(|data|, CHUNK_SIZE)
    ensures AllInRange(Split(data, CHUNK_SIZE, n), |data|)
    ensures DistinctSeqs(Split(data, CHUNK_SIZE, n))
    ensures |data| < TWO32 ==> n < TWO32 && Carriable(Split(data, CHUNK_SIZE, n))
  {
    ChunkCountCovers(|data|, CHUNK_SIZE);
    var cs := Split(data, CHUNK_SIZE, n);
    forall k | 0 <= k < n ensures InRange(cs[k], |data|) {
      assert cs[k] == Chunk(k, Slice(data, k, CHUNK_SIZE));
    }
  }

  /** The phone's dictionary gives the blob back. */
  lemma SplitFinishes(data: bytes, hash: bytes -> string)
    ensures var n := ChunkCount(|data|, CHUNK_SIZE);
            Finish(Store(Split(data, CHUNK_SIZE, n)), Announced(|data|, n, hash(data)), hash) == Some(data)
  {
    var n := ChunkCount(|data|, CHUNK_SIZE);
    StoreOfSplit(data, CHUNK_SIZE, n);
    JoinedSplit(data, n);
    FinishesWith(Store(Split(data, CHUNK_SIZE, n)), Datas(Split(data, CHUNK_SIZE, n)), data, hash);
  }

  lemma JoinedSplit(data: bytes, n: nat)
    requires n == ChunkCount(|data|, CHUNK_SIZE)
    ensures Join(Datas(Split(data, CHUNK_SIZE, n))) == data
  {
    ChunkCountCovers(|data|, CHUNK_SIZE);
    JoinSplit(data, CHUNK_SIZE, n);
    WholeSlice(data, Min(n * CHUNK_SIZE, |data|));
  }

  lemma FinishesWith(m: map<nat, bytes>, ds: seq<bytes>, data: bytes, hash: bytes -> string)
    requires m.Keys == Below(|ds|) && InOrder(m, |ds|) == ds && Join(ds) == data
    ensures Finish(m, Announced(|data|, |ds|, hash(data)), hash) == Some(data)
  {
    CountAndNoGap(m, |ds|);
  }

  /** A blob below 2^32 bytes, cut by the sender at 4096 bytes and delivered in any order of its
      binary frames, is reproduced byte for byte in the firmware's buffer, whatever it held. */
  lemma DownlinkLossless(data: bytes, cs: seq<Chunk>, end: Frame, tail: bytes, pcm: bytes, wrap: nat,
                         hash: bytes -> string)
    requires |data| < TWO32 <= wrap && |pcm| == |data| && HashIsText(hash)
    requires multiset(cs) == multiset(Split(data, CHUNK_SIZE, ChunkCount(|data|, CHUNK_SIZE)))
    requires end.kind == KIND_JSON && |end.payload| <= FRAME_CAP
    ensures AudioBody(EncodeAll(ChunkFrames(cs) + [end]) + tail,
                      ChunkCount(|data|, CHUNK_SIZE), |data|, Ascii(hash(data)), pcm, wrap, hash)
            == Ok((data, tail))
  {
    var n := ChunkCount(|data|, CHUNK_SIZE);
    var sent := Split(data, CHUNK_SIZE, n);
    SplitFits(data, n);
    SplitFinishes(data, hash);
    StoreOrderFree(sent, cs);
    assert |cs| == |multiset(cs)| == |multiset(sent)| == n;
    forall c | c in cs ensures c in sent {
      assert c in multiset(cs);
    }
    assert IsAscii(hash(data));
    ReceiversAgree(cs, n, end, tail, pcm, hash(data), wrap, hash);
  }
}
