/** The firmware's image sender, and what the phone makes of the frames it writes. */
module Uplink {
  import opened Bytes
  import opened Decimals
  import opened Framing
  import opened Transport
  import opened Chunks
  import opened Json
  import opened JsonLoads
  import opened Messages
  import opened AudioReceiver
  import opened Server
  import opened Connection

  // ---------- what is sent ----------

  /** One image: its id and media type as C strings, its bytes. */
  datatype Picture = Picture(id: bytes, media: bytes, data: bytes)

  function BeginText(p: Picture, hash: bytes -> string): bytes {
    PrintObject(BeginFields(p.id, |p.data|, ChunkCount(|p.data|, CHUNK_SIZE), Ascii(hash(p.data)), p.media))
  }

  function EndText(p: Picture): bytes { PrintObject(EndFields(p.id)) }

  /** The begin message and the chunks. */
  function Opening(p: Picture, hash: bytes -> string): seq<Frame> {
    [Frame(KIND_JSON, BeginText(p, hash))]
    + ChunkFrames(Split(p.data, CHUNK_SIZE, ChunkCount(|p.data|, CHUNK_SIZE)))
  }

  function ImageFrames(p: Picture, hash: bytes -> string): seq<Frame> {
    Opening(p, hash) + [Frame(KIND_JSON, EndText(p))]
  }

  /** What one send writes and reports when the link does not fail: the begin text must fit its
      buffer before anything is written, the end text is only checked after the chunks. */
  function SendOutcome(p: Picture, hash: bytes -> string): (seq<Frame>, Code) {
    if |BeginText(p, hash)| >= BEGIN_CAP then ([], INVALID)
    else if |EndText(p)| >= END_CAP then (Opening(p, hash), INVALID)
    else (ImageFrames(p, hash), OK)
  }

  // ---------- the firmware's code ----------

  /** C's snprintf: as much of the text as fits with a terminator; returns the whole length. */
  method Print(buf: array<byte>, text: bytes) returns (n: nat)
    requires buf.Length > 0
    modifies buf
    ensures n == |text|
    ensures var k := Min(n, buf.Length - 1);
            && buf[..k] == text[..k] && buf[k] == 0 && buf[k + 1..] == old(buf[k + 1..])
  {
    n := |text|;
    var k := Min(n, buf.Length - 1);
    forall i | 0 <= i < k {
      buf[i] := text[i];
    }
    buf[k] := 0;
  }

  /** Frames written by the firmware: `part` of `all`, the whole of it when no send failed. */
  ghost predicate Wrote(was: bytes, now: bytes, fs: seq<Frame>, ok: bool, reliable: bool) {
    && was <= now <= was + EncodeAll(fs)
    && (ok ==> now == was + EncodeAll(fs))
    && (reliable ==> ok)
  }

  lemma WroteThen(was: bytes, mid: bytes, now: bytes, a: seq<Frame>, b: seq<Frame>, ok: bool, reliable: bool)
    requires Wrote(was, mid, a, true, reliable) && Wrote(mid, now, b, ok, reliable)
    ensures Wrote(was, now, a + b, ok, reliable)
  {
    EncodeAllAppend(a, b);
    Assoc(was, EncodeAll(a), EncodeAll(b));
  }

  lemma WrotePart(was: bytes, now: bytes, part: seq<Frame>, all: seq<Frame>, reliable: bool)
    requires part <= all && Wrote(was, now, part, false, reliable)
    ensures Wrote(was, now, all, false, reliable)
  {
    EncodePrefix(part, all);
  }

  method WriteFrame(t: Link, kind: byte, buf: array<byte>, len: nat) returns (err: Code)
    requires len <= buf.Length && Sendable(Frame(kind, buf[..len]))
    modifies t`outgoing
    ensures Wrote(old(t.outgoing), t.outgoing, [Frame(kind, buf[..len])], err == OK, t.reliable)
  {
    EncodeAllOne(Frame(kind, buf[..len]));
    err := t.FrameSend(kind, buf, len);
  }

  /** Print a control message into a buffer of its own and send it if it fits. */
  method WriteText(t: Link, cap: nat, text: bytes) returns (err: Code)
    requires 0 < cap <= 4096
    modifies t`outgoing
    ensures |text| >= cap ==> err == INVALID && t.outgoing == old(t.outgoing)
    ensures |text| < cap
            ==> Wrote(old(t.outgoing), t.outgoing, [Frame(KIND_JSON, text)], err == OK, t.reliable)
  {
    var buf := new byte[cap];
    var n := Print(buf, text);
    if n >= cap {
      return INVALID;
    }
    assert buf[..n] == text;
    err := WriteFrame(t, KIND_JSON, buf, n);
  }

  /** Fill the frame buffer with one chunk and send it. */
  method WriteChunk(t: Link, frame: array<byte>, data: array<byte>, len: nat, num: nat) returns (err: Code)
    requires frame.Length == FRAME_CAP && len <= data.Length && frame != data
    modifies t`outgoing, frame
    ensures Wrote(old(t.outgoing), t.outgoing, [ChunkFrame(Chunk(num, Slice(data[..len], num, CHUNK_SIZE)))],
                  err == OK, t.reliable)
  {
    var start := num * CHUNK_SIZE;
    var clen := if start < len then len - start else 0;
    if clen > CHUNK_SIZE {
      clen := CHUNK_SIZE;
    }
    FillFrame(frame, data, num, start, clen);
    SliceIs(data[..], len, num);
    err := WriteFrame(t, KIND_BINARY, frame, 4 + clen);
  }

  /** The chunk header and the bytes of the chunk. */
  method FillFrame(frame: array<byte>, data: array<byte>, num: nat, start: nat, clen: nat)
    requires 4 + clen <= frame.Length && frame != data
    requires clen == 0 || start + clen <= data.Length
    modifies frame
    ensures frame[..4 + clen] == U32(num) + (if clen == 0 then [] else data[start..start + clen])
  {
    frame[0] := num / 0x100_0000 % 256;
    frame[1] := num / 0x1_0000 % 256;
    frame[2] := num / 0x100 % 256;
    frame[3] := num % 256;
    U32Bytes(num);
    forall j | 0 <= j < clen {
      frame[4 + j] := data[start + j];
    }
    assert frame[..4] == U32(num);
    assert frame[..4 + clen] == frame[..4] + frame[4..4 + clen];
  }

  lemma SliceIs(data: bytes, len: nat, num: nat)
    requires len <= |data|
    ensures var start := num * CHUNK_SIZE;
            var clen := if start >= len then 0 else Min(len - start, CHUNK_SIZE);
            Slice(data[..len], num, CHUNK_SIZE) == if clen == 0 then [] else data[start..start + clen]
  {
  }

  lemma WroteUpTo(was: bytes, mid: bytes, now: bytes, data: bytes, num: nat, n: nat, ok: bool, reliable: bool)
    requires num < n
    requires Wrote(was, mid, ChunkFrames(Split(data, CHUNK_SIZE, num)), true, reliable)
    requires Wrote(mid, now, [ChunkFrame(Chunk(num, Slice(data, num, CHUNK_SIZE)))], ok, reliable)
    ensures Wrote(was, now, ChunkFrames(Split(data, CHUNK_SIZE, if ok then num + 1 else n)), ok, reliable)
  {
    var before, f := ChunkFrames(Split(data, CHUNK_SIZE, num)), ChunkFrame(Chunk(num, Slice(data, num, CHUNK_SIZE)));
    WroteThen(was, mid, now, before, [f], ok, reliable);
    OneMoreChunk(data, num);
    if !ok {
      ChunksLater(data, num + 1, n);
      WrotePart(was, now, before + [f], ChunkFrames(Split(data, CHUNK_SIZE, n)), reliable);
    }
  }

  lemma WroteNone(was: bytes, data: bytes, reliable: bool)
    ensures Wrote(was, was, ChunkFrames(Split(data, CHUNK_SIZE, 0)), true, reliable)
  {
    assert ChunkFrames(Split(data, CHUNK_SIZE, 0)) == [];
    assert was + [] == was;
  }

  /** The chunk loop; one frame buffer serves for all chunks. */
  method WriteChunks(t: Link, data: array<byte>, len: nat, n: nat) returns (err: Code)
    requires len <= data.Length
    modifies t`outgoing
    ensures Wrote(old(t.outgoing), t.outgoing, ChunkFrames(Split(data[..len], CHUNK_SIZE, n)), err == OK, t.reliable)
  {
    ghost var was, blob := t.outgoing, data[..len];
    var frame := new byte[FRAME_CAP];
    WroteNone(was, blob, t.reliable);
    for num := 0 to n
      invariant Wrote(was, t.outgoing, ChunkFrames(Split(blob, CHUNK_SIZE, num)), true, t.reliable)
    {
      ghost var mid := t.outgoing;
      err := WriteChunk(t, frame, data, len, num);
      WroteUpTo(was, mid, t.outgoing, blob, num, n, err == OK, t.reliable);
      if err != OK {
        return;
      }
    }
    err := OK;
  }

  /** The begin message and the chunks. */
  method SendOpening(t: Link, id: bytes, data: array<byte>, len: nat, media: bytes, hash: bytes -> string)
    returns (err: Code)
    requires len <= data.Length
    modifies t`outgoing
    ensures var p := Picture(id, media, data[..len]);
            && (|BeginText(p, hash)| >= BEGIN_CAP ==> err == INVALID && t.outgoing == old(t.outgoing))
            && (|BeginText(p, hash)| < BEGIN_CAP
                ==> Wrote(old(t.outgoing), t.outgoing, Opening(p, hash), err == OK, t.reliable))
  {
    var chunks := CountChunks(len);
    var begin := BeginText(Picture(id, media, data[..len]), hash);
    err := WriteOpening(t, begin, data, len, chunks);
  }

  /** At least one chunk, as the phone expects. */
  method CountChunks(len: nat) returns (chunks: nat)
    ensures chunks == ChunkCount(len, CHUNK_SIZE)
  {
    chunks := (len + CHUNK_SIZE - 1) / CHUNK_SIZE;
    if chunks == 0 {
      chunks := 1;
    }
  }

  /** A printed begin message, if it fits its buffer, and `n` chunks. */
  method WriteOpening(t: Link, begin: bytes, data: array<byte>, len: nat, n: nat) returns (err: Code)
    requires len <= data.Length
    modifies t`outgoing
    ensures |begin| >= BEGIN_CAP ==> err == INVALID && t.outgoing == old(t.outgoing)
    ensures |begin| < BEGIN_CAP
            ==> Wrote(old(t.outgoing), t.outgoing,
                      [Frame(KIND_JSON, begin)] + ChunkFrames(Split(data[..len], CHUNK_SIZE, n)), err == OK, t.reliable)
  {
    ghost var first, body := [Frame(KIND_JSON, begin)], ChunkFrames(Split(data[..len], CHUNK_SIZE, n));
    ghost var was := t.outgoing;
    err := WriteText(t, BEGIN_CAP, begin);
    if err != OK {
      if |begin| < BEGIN_CAP {
        WrotePart(was, t.outgoing, first, first + body, t.reliable);
      }
      return;
    }
    ghost var mid := t.outgoing;
    err := WriteChunks(t, data, len, n);
    WroteThen(was, mid, t.outgoing, first, body, err == OK, t.reliable);
  }

  /** Send one image. With a link that does not fail it writes exactly the frames of `SendOutcome`
      and reports its code; a failing link leaves a prefix of them. */
  method SendImage(t: Link, id: bytes, data: array<byte>, len: nat, media: bytes, hash: bytes -> string)
    returns (err: Code)
    requires len <= data.Length
    modifies t`outgoing
    ensures var (fs, code) := SendOutcome(Picture(id, media, data[..len]), hash);
            && old(t.outgoing) <= t.outgoing <= old(t.outgoing) + EncodeAll(fs)
            && (t.reliable ==> err == code && t.outgoing == old(t.outgoing) + EncodeAll(fs))
            && (err == OK ==> code == OK && t.outgoing == old(t.outgoing) + EncodeAll(fs))
  {
    ghost var p, was := Picture(id, media, data[..len]), t.outgoing;
    assert was + EncodeAll([]) == was;
    err := SendOpening(t, id, data, len, media, hash);
    if err != OK {
      if |BeginText(p, hash)| < BEGIN_CAP {
        WrotePart(was, t.outgoing, Opening(p, hash), ImageFrames(p, hash), t.reliable);
      }
      return;
    }
    ghost var mid := t.outgoing;
    var end := PrintObject(EndFields(id));
    err := WriteText(t, END_CAP, end);
    if |end| < END_CAP {
      WroteThen(was, mid, t.outgoing, Opening(p, hash), [Frame(KIND_JSON, end)], err == OK, t.reliable);
    }
  }

  // ---------- what the phone makes of it ----------

  /** Id, media type and digest need no escaping, and both texts fit their buffers. */
  predicate Fits(id: string, media: string, data: bytes, hash: bytes -> string) {
    var p := Picture(Utf8All(id), Utf8All(media), data);
    && Pasteable(id) && Pasteable(media) && AllPrintable(hash(data))
    && |BeginText(p, hash)| < BEGIN_CAP && |EndText(p)| < END_CAP
  }

  lemma FieldsLength(fs: seq<Field>)
    requires |fs| > 1
    ensures |FieldsText(fs)| == |FieldText(fs[0])| + 1 + |FieldsText(fs[1..])|
  {
  }

  lemma BeginLength(id: bytes, len: nat, n: nat, sha: bytes, media: bytes)
    requires |sha| == 64
    ensures |PrintObject(BeginFields(id, len, n, sha, media))| == 146 + |id| + |media| + |Decimal(len)| + |Decimal(n)|
  {
    SixFields(BeginFields(id, len, n, sha, media));
  }

  lemma SixFields(fs: seq<Field>)
    requires |fs| == 6
    ensures |PrintObject(fs)| == 7 + |FieldText(fs[0])| + |FieldText(fs[1])| + |FieldText(fs[2])|
                                 + |FieldText(fs[3])| + |FieldText(fs[4])| + |FieldText(fs[5])|
  {
    FieldsLength(fs);
    FieldsLength(fs[1..]);
    FieldsLength(fs[2..]);
    FieldsLength(fs[3..]);
    FieldsLength(fs[4..]);
    assert fs[1..][1..] == fs[2..] && fs[2..][1..] == fs[3..] && fs[3..][1..] == fs[4..] && fs[4..][1..] == fs[5..];
  }

  lemma EndLengthOf(id: bytes)
    ensures |PrintObject(EndFields(id))| == 34 + |id|
  {
    var fs := EndFields(id);
    FieldsLength(fs);
    assert fs[1..] == [fs[1]];
  }

  /** What the id, the media type and the counts take in the begin text. */
  function Variable(p: Picture): nat {
    |p.id| + |p.media| + |Decimal(|p.data|)| + |Decimal(ChunkCount(|p.data|, CHUNK_SIZE))|
  }

  lemma TextLengths(p: Picture, hash: bytes -> string)
    requires |hash(p.data)| == 64
    ensures |BeginText(p, hash)| == 146 + Variable(p) && |EndText(p)| == 34 + |p.id|
  {
    BeginLength(p.id, |p.data|, ChunkCount(|p.data|, CHUNK_SIZE), Ascii(hash(p.data)), p.media);
    EndLengthOf(p.id);
  }

  /** Exactly how a send ends: refused at once, refused only after everything but the end was
      written, or done. */
  lemma SendOutcomeExact(p: Picture, hash: bytes -> string)
    requires |hash(p.data)| == 64
    ensures SendOutcome(p, hash) == if Variable(p) > 109 then ([], INVALID)
                                    else if |p.id| > 93 then (Opening(p, hash), INVALID)
                                    else (ImageFrames(p, hash), OK)
  {
    TextLengths(p, hash);
  }

  /** A picture that is refused late: its id of 94 bytes fits the begin text and not the end text. */
  lemma LateRefusal(hash: bytes -> string) returns (p: Picture)
    requires forall m :: |hash(m)| == 64
    ensures |p.id| == 94 && |p.media| == 1 && |p.data| == 1
    ensures SendOutcome(p, hash) == (Opening(p, hash), INVALID) && |Opening(p, hash)| == 2
  {
    p := Picture(seq(94, i => 97), [120], [0]);
    assert ChunkCount(1, CHUNK_SIZE) == 1;
    OneDigit(1);
    SendOutcomeExact(p, hash);
  }

  lemma OneDigit(n: nat)
    requires n < 10
    ensures |Decimal(n)| == 1
  {
  }

  /** Exactly which pictures the firmware can send: the id, the media type and the digits of the two
      counts take at most 109 bytes together, and the id at most 93. */
  lemma FitsExact(id: string, media: string, data: bytes, hash: bytes -> string)
    requires Pasteable(id) && Pasteable(media) && AllPrintable(hash(data)) && |hash(data)| == 64
    ensures Fits(id, media, data, hash)
            <==> |Utf8All(id)| <= 93 && Variable(Picture(Utf8All(id), Utf8All(media), data)) <= 109
  {
    TextLengths(Picture(Utf8All(id), Utf8All(media), data), hash);
  }

  function ChunkEvents(cs: seq<Chunk>): (es: seq<Event>)
    ensures |es| == |cs| && forall i :: 0 <= i < |cs| ==> es[i] == GotChunk(Payload(cs[i]))
  {
    seq(|cs|, i requires 0 <= i < |cs| => GotChunk(Payload(cs[i])))
  }

  /** A whole transfer, as the phone sees it. */
  function TransferEvents(b: Begin, cs: seq<Chunk>): seq<Event> {
    [BeginImage(Some(b))] + ChunkEvents(cs) + [EndImage]
  }

  lemma EventsAppend(a: seq<Frame>, b: seq<Frame>)
    ensures Events(a + b) == Events(a) + Events(b)
  {
    EventsFrom(a + b, Events(a), Events(b), Events(a + b), a, b);
  }

  lemma EventsFrom(fs: seq<Frame>, x: seq<Event>, y: seq<Event>, es: seq<Event>, a: seq<Frame>, b: seq<Frame>)
    requires fs == a + b && |x| == |a| && |y| == |b| && |es| == |fs|
    requires forall i :: 0 <= i < |a| ==> x[i] == EventOf(a[i])
    requires forall i :: 0 <= i < |b| ==> y[i] == EventOf(b[i])
    requires forall i :: 0 <= i < |fs| ==> es[i] == EventOf(fs[i])
    ensures es == x + y
  {
  }

  /** The phone understands the frames of an image: a begin with every field as meant, the chunks,
      the end. */
  lemma ImageUnderstood(id: string, media: string, data: bytes, hash: bytes -> string)
    requires Pasteable(id) && Pasteable(media) && AllPrintable(hash(data))
    ensures var n := ChunkCount(|data|, CHUNK_SIZE);
            Events(ImageFrames(Picture(Utf8All(id), Utf8All(media), data), hash))
            == TransferEvents(Begin(Announced(|data|, n, hash(data)), Text(id), Text(media)),
                              Split(data, CHUNK_SIZE, n))
  {
    var n := ChunkCount(|data|, CHUNK_SIZE);
    var p := Picture(Utf8All(id), Utf8All(media), data);
    BeginEvent(id, |data|, n, hash(data), media);
    EndEvent(id);
    EventsOfTransfer(Frame(KIND_JSON, BeginText(p, hash)), Split(data, CHUNK_SIZE, n), Frame(KIND_JSON, EndText(p)));
  }

  lemma EventsOfTransfer(begin: Frame, cs: seq<Chunk>, end: Frame)
    ensures Events([begin] + ChunkFrames(cs) + [end]) == Events([begin]) + ChunkEvents(cs) + Events([end])
  {
    EventsAppend([begin] + ChunkFrames(cs), [end]);
    EventsAppend([begin], ChunkFrames(cs));
    assert Events(ChunkFrames(cs)) == ChunkEvents(cs);
  }

  lemma BeginEvent(id: string, len: nat, n: nat, sha: string, media: string)
    requires Pasteable(id) && Pasteable(media) && AllPrintable(sha)
    ensures var f := Frame(KIND_JSON, PrintObject(BeginFields(Utf8All(id), len, n, Ascii(sha), Utf8All(media))));
            Events([f]) == [BeginImage(Some(Begin(Announced(len, n, sha), Text(id), Text(media))))]
  {
    BeginUnderstood(id, len, n, sha, media);
    BeginEventOf(PrintObject(BeginFields(Utf8All(id), len, n, Ascii(sha), Utf8All(media))),
                 ImageBegin(id, len, n, sha, media), Begin(Announced(len, n, sha), Text(id), Text(media)));
  }

  lemma BeginEventOf(payload: bytes, ms: seq<Member>, b: Begin)
    requires DecodeControl(payload) == Some(ms) && Get(ms, "type") == Some(Text("image_begin"))
    requires ParseBegin(ms) == Some(b)
    ensures Events([Frame(KIND_JSON, payload)]) == [BeginImage(Some(b))]
  {
    OneEvent(Frame(KIND_JSON, payload));
  }

  lemma OneEvent(f: Frame)
    ensures Events([f]) == [EventOf(f)]
  {
  }

  lemma EndEvent(id: string)
    requires Pasteable(id)
    ensures Events([Frame(KIND_JSON, PrintObject(EndFields(Utf8All(id))))]) == [EndImage]
  {
    EndUnderstood(id);
    EndEventOf(PrintObject(EndFields(Utf8All(id))), ImageEnd(id));
  }

  lemma EndEventOf(payload: bytes, ms: seq<Member>)
    requires DecodeControl(payload) == Some(ms) && Get(ms, "type") == Some(Text("image_end"))
    ensures Events([Frame(KIND_JSON, payload)]) == [EndImage]
  {
    OneEvent(Frame(KIND_JSON, payload));
  }

  /** Chunks of a held transfer only fill its dictionary. */
  lemma {:induction false} ServeChunks(es: seq<Event>, cs: seq<Chunk>, b: Begin, pipeline: Pipeline,
                                       hash: bytes -> string)
    requires forall c <- cs :: c.num < TWO32
    requires Serve(es, pipeline, hash).next == Serving(Some(Transfer(b, map[])))
    ensures Serve(es + ChunkEvents(cs), pipeline, hash)
            == Serve(es, pipeline, hash).(next := Serving(Some(Transfer(b, Store(cs)))))
  {
    if cs == [] {
      assert es + ChunkEvents(cs) == es;
    } else {
      var init, last := cs[..|cs| - 1], cs[|cs| - 1];
      assert cs == init + [last];
      var log := es + ChunkEvents(init);
      assert es + ChunkEvents(cs) == log + [GotChunk(Payload(last))];
      ServeChunks(es, init, b, pipeline, hash);
      ServeChunk(log, last, Transfer(b, Store(init)), pipeline, hash);
      StoreAppend(init, last);
    }
  }

  lemma ServeChunk(log: seq<Event>, c: Chunk, t: Transfer, pipeline: Pipeline, hash: bytes -> string)
    requires c.num < TWO32 && Serve(log, pipeline, hash).next == Serving(Some(t))
    ensures Serve(log + [GotChunk(Payload(c))], pipeline, hash)
            == Serve(log, pipeline, hash).(next := Serving(Some(t.(chunks := t.chunks[c.num := c.data]))))
  {
    ServeStep(log, GotChunk(Payload(c)), pipeline, hash);
    ParsePayload(c);
    var before := Serve(log, pipeline, hash);
    assert before.replies + [] == before.replies && before.calls + [] == before.calls;
  }

  lemma ServeBegin(es: seq<Event>, b: Begin, pipeline: Pipeline, hash: bytes -> string)
    requires Serve(es, pipeline, hash).next.Serving?
    ensures Serve(es + [BeginImage(Some(b))], pipeline, hash)
            == Serve(es, pipeline, hash).(next := Serving(Some(Transfer(b, map[]))))
  {
    ServeStep(es, BeginImage(Some(b)), pipeline, hash);
    var before := Serve(es, pipeline, hash);
    assert before.replies + [] == before.replies && before.calls + [] == before.calls;
  }

  lemma EndAnswers(t: Transfer, data: bytes, pipeline: Pipeline, hash: bytes -> string)
    requires Finish(t.chunks, t.begin.announced, hash) == Some(data)
    ensures OnEnd(t, pipeline, hash) == Answered(Call(data, t.begin.media, t.begin.id), pipeline, hash)
  {
  }

  lemma EndEnds(t: Transfer, pipeline: Pipeline, hash: bytes -> string)
    ensures OnEvent(Some(t), EndImage, pipeline, hash) == OnEnd(t, pipeline, hash)
  {
  }

  lemma ServeAfter(es: seq<Event>, e: Event, next: Option<Transfer>, f: Effect, pipeline: Pipeline,
                   hash: bytes -> string)
    requires Serve(es, pipeline, hash).next == Serving(next) && OnEvent(next, e, pipeline, hash) == f
    ensures Serve(es + [e], pipeline, hash) == After(Serve(es, pipeline, hash), f)
  {
    ServeStep(es, e, pipeline, hash);
  }

  /** A begin, chunks that complete it, and the end. */
  lemma ServeTransfer(es: seq<Event>, b: Begin, cs: seq<Chunk>, data: bytes, pipeline: Pipeline, hash: bytes -> string)
    requires Serve(es, pipeline, hash).next.Serving? && forall c <- cs :: c.num < TWO32
    requires Finish(Store(cs), b.announced, hash) == Some(data)
    ensures Serve(es + TransferEvents(b, cs), pipeline, hash)
            == After(Serve(es, pipeline, hash), Answered(Call(data, b.media, b.id), pipeline, hash))
  {
    var begun, t := es + [BeginImage(Some(b))], Transfer(b, Store(cs));
    ServeBegin(es, b, pipeline, hash);
    ServeChunks(begun, cs, b, pipeline, hash);
    EndAnswers(t, data, pipeline, hash);
    EndEnds(t, pipeline, hash);
    ServeAfter(begun + ChunkEvents(cs), EndImage, Some(t), OnEnd(t, pipeline, hash), pipeline, hash);
    Regroup(es, [BeginImage(Some(b))], ChunkEvents(cs), [EndImage]);
  }

  lemma Regroup(a: seq<Event>, b: seq<Event>, c: seq<Event>, d: seq<Event>)
    ensures a + (b + c + d) == a + b + c + d
  {
  }

  /** Every image the firmware can send reaches the pipeline exactly once and unchanged, whatever
      the phone did before on this connection: an empty image too, and an unfinished transfer is
      forgotten. The replies are those for that call. */
  lemma UplinkLossless(es: seq<Event>, id: string, media: string, data: bytes, pipeline: Pipeline,
                       hash: bytes -> string)
    requires Serve(es, pipeline, hash).next.Serving? && ChunkCount(|data|, CHUNK_SIZE) <= TWO32
    requires Pasteable(id) && Pasteable(media) && AllPrintable(hash(data))
    ensures Serve(es + Events(ImageFrames(Picture(Utf8All(id), Utf8All(media), data), hash)), pipeline, hash)
            == After(Serve(es, pipeline, hash), Answered(Call(data, Text(media), Text(id)), pipeline, hash))
  {
    var n := ChunkCount(|data|, CHUNK_SIZE);
    ImageUnderstood(id, media, data, hash);
    SplitServed(es, Begin(Announced(|data|, n, hash(data)), Text(id), Text(media)), data, pipeline, hash);
  }

  /** Before the end of a transfer the phone says nothing. */
  lemma QuietUntilEnd(b: Begin, cs: seq<Chunk>, k: nat, pipeline: Pipeline, hash: bytes -> string)
    requires k < |TransferEvents(b, cs)| && forall c <- cs :: c.num < TWO32
    ensures var e := Serve(TransferEvents(b, cs)[..k], pipeline, hash);
            e.replies == [] && e.calls == [] && e.next.Serving?
  {
    if k == 0 {
      assert TransferEvents(b, cs)[..k] == [];
    } else {
      var part := cs[..k - 1];
      assert TransferEvents(b, cs)[..k] == [BeginImage(Some(b))] + ChunkEvents(part);
      assert [] + [BeginImage(Some(b))] == [BeginImage(Some(b))];
      ServeBegin([], b, pipeline, hash);
      assert forall c <- part :: c in cs;
      ServeChunks([BeginImage(Some(b))], part, b, pipeline, hash);
    }
  }

  lemma SplitServed(es: seq<Event>, b: Begin, data: bytes, pipeline: Pipeline, hash: bytes -> string)
    requires Serve(es, pipeline, hash).next.Serving? && ChunkCount(|data|, CHUNK_SIZE) <= TWO32
    requires b.announced == Announced(|data|, ChunkCount(|data|, CHUNK_SIZE), hash(data))
    ensures Serve(es + TransferEvents(b, Split(data, CHUNK_SIZE, ChunkCount(|data|, CHUNK_SIZE))), pipeline, hash)
            == After(Serve(es, pipeline, hash), Answered(Call(data, b.media, b.id), pipeline, hash))
  {
    SplitFinishes(data, hash);
    ServeTransfer(es, b, Split(data, CHUNK_SIZE, ChunkCount(|data|, CHUNK_SIZE)), data, pipeline, hash);
  }
}
