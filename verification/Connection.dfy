/** The phone's connection handler as it runs: one reassembler variable, replaced and cleared inside
    the receive loop, and replies written frame by frame. */
module Connection {
  import opened Bytes
  import opened Framing
  import opened Transport
  import opened Chunks
  import opened Json
  import opened Messages
  import opened AudioReceiver
  import opened Server

  // ---------- what a stream holds ----------

  /** All frames that can be read from a stream, and the bytes left at the end. */
  function ReceiveAll(s: bytes): (seq<Frame>, bytes)
    decreases |s|
  {
    match PyReceive(s)
    case None => ([], s)
    case Some((f, rest)) => ([f] + ReceiveAll(rest).0, ReceiveAll(rest).1)
  }

  /** A stream of frames is those frames, with nothing left over. */
  lemma {:induction false} ReceiveAllOfFrames(fs: seq<Frame>)
    requires forall f <- fs :: Sendable(f)
    ensures ReceiveAll(EncodeAll(fs)) == (fs, [])
  {
    if fs != [] {
      assert Sendable(fs[0]);
      PyReceiveExact(EncodeAll(fs), fs[0], EncodeAll(fs[1..]));
      ReceiveAllOfFrames(fs[1..]);
      assert fs == [fs[0]] + fs[1..];
    }
  }

  // ---------- what was sent ----------

  /** Sending `fs` took the written bytes from `was` to `now`. A failure leaves a prefix of what
      should have been written; on a reliable link it can only be a frame too large to send. */
  ghost predicate Sent(was: bytes, now: bytes, fs: seq<Frame>, ok: bool, reliable: bool) {
    if ok then Deliverable(fs) == fs && now == was + EncodeAll(fs)
    else
      && was <= now <= was + EncodeAll(Deliverable(fs))
      && (reliable ==> Deliverable(fs) != fs && now == was + EncodeAll(Deliverable(fs)))
  }

  lemma {:induction false} DeliverableAppend(a: seq<Frame>, b: seq<Frame>)
    ensures Deliverable(a + b) == if Deliverable(a) == a then a + Deliverable(b) else Deliverable(a)
  {
    if a == [] {
      assert a + b == b;
    } else {
      assert (a + b)[1..] == a[1..] + b && a == [a[0]] + a[1..];
      DeliverableAppend(a[1..], b);
    }
  }

  lemma SentOne(was: bytes, now: bytes, f: Frame, ok: bool, reliable: bool)
    requires !Sendable(f) ==> !ok && now == was
    requires Sendable(f) && reliable ==> ok
    requires ok ==> now == was + Encode(f)
    requires was <= now <= was + Encode(f)
    ensures Sent(was, now, [f], ok, reliable)
  {
    EncodeAllOne(f);
    assert Deliverable([f]) == if Sendable(f) then [f] + Deliverable([]) else [];
  }

  lemma SentNone(was: bytes, reliable: bool)
    ensures Sent(was, was, [], true, reliable)
  {
  }

  lemma SentThen(was: bytes, mid: bytes, now: bytes, a: seq<Frame>, b: seq<Frame>, ok: bool, reliable: bool)
    requires Sent(was, mid, a, true, reliable) && Sent(mid, now, b, ok, reliable)
    ensures Sent(was, now, a + b, ok, reliable)
  {
    DeliverableAppend(a, b);
    EncodeAllAppend(a, b);
    EncodeAllAppend(a, Deliverable(b));
    Assoc(was, EncodeAll(a), EncodeAll(b));
    Assoc(was, EncodeAll(a), EncodeAll(Deliverable(b)));
  }

  lemma SentFailed(was: bytes, now: bytes, a: seq<Frame>, b: seq<Frame>, reliable: bool)
    requires Sent(was, now, a, false, reliable)
    ensures Sent(was, now, a + b, false, reliable)
  {
    DeliverableAppend(a, b);
    if Deliverable(a) == a {
      EncodeAllAppend(a, Deliverable(b));
      Assoc(was, EncodeAll(a), EncodeAll(Deliverable(b)));
    }
  }

  // ---------- the senders ----------

  /** `false` stands for a ProtocolError or an OSError. */
  method SendControl(conn: Link, ms: seq<Member>) returns (ok: bool)
    modifies conn`outgoing
    ensures EncodeControl(ms) == None ==> !ok && conn.outgoing == old(conn.outgoing)
    ensures EncodeControl(ms).Some? ==> Sent(old(conn.outgoing), conn.outgoing, [Control(ms)], ok, conn.reliable)
  {
    var text := EncodeControl(ms);
    if text == None {
      return false;
    }
    ok := conn.PySendFrame(KIND_JSON, text.value);
    SentOne(old(conn.outgoing), conn.outgoing, Control(ms), ok, conn.reliable);
  }

  /** A message that ends in a known type is written. */
  lemma Known(ms: seq<Member>, t: string)
    requires ms != [] && ms[|ms| - 1] == Member("type", Text(t)) && t in KNOWN_TYPES
    ensures EncodeControl(ms) == Some(Dumps(ms))
  {
    GetAt(ms, |ms| - 1);
  }

  method SendAudio(conn: Link, id: Value, pcm: Pcm, hash: bytes -> string) returns (ok: bool)
    modifies conn`outgoing
    ensures Sent(old(conn.outgoing), conn.outgoing, Spoken(id, pcm, hash), ok, conn.reliable)
  {
    var n := ChunkCount(|pcm.data|, CHUNK_SIZE);
    var begin := AudioBegin(id, pcm, n, hash(pcm.data));
    Known(begin, "audio_begin");
    ghost var was, body, end := conn.outgoing, ChunkFrames(Split(pcm.data, CHUNK_SIZE, n)), Control(AudioEnd(id));
    ok := SendControl(conn, begin);
    if !ok {
      SentFailed(was, conn.outgoing, [Control(begin)], body, conn.reliable);
      SentFailed(was, conn.outgoing, [Control(begin)] + body, [end], conn.reliable);
      return;
    }
    ghost var mid := conn.outgoing;
    ok := SendChunks(conn, pcm.data, n);
    SentThen(was, mid, conn.outgoing, [Control(begin)], body, ok, conn.reliable);
    if !ok {
      SentFailed(was, conn.outgoing, [Control(begin)] + body, [end], conn.reliable);
      return;
    }
    mid := conn.outgoing;
    Known(AudioEnd(id), "audio_end");
    ok := SendControl(conn, AudioEnd(id));
    SentThen(was, mid, conn.outgoing, [Control(begin)] + body, [end], ok, conn.reliable);
  }

  /** The chunk loop of the sender. */
  method SendChunks(conn: Link, data: bytes, n: nat) returns (ok: bool)
    modifies conn`outgoing
    ensures Sent(old(conn.outgoing), conn.outgoing, ChunkFrames(Split(data, CHUNK_SIZE, n)), ok, conn.reliable)
  {
    ghost var was := conn.outgoing;
    SentNone(was, conn.reliable);
    assert ChunkFrames(Split(data, CHUNK_SIZE, 0)) == [];
    for num := 0 to n
      invariant Sent(was, conn.outgoing, ChunkFrames(Split(data, CHUNK_SIZE, num)), true, conn.reliable)
    {
      ghost var mid := conn.outgoing;
      ok := SendChunk(conn, data, num);
      SentUpTo(was, mid, conn.outgoing, data, num, n, ok, conn.reliable);
      if !ok {
        return;
      }
    }
    ok := true;
  }

  method SendChunk(conn: Link, data: bytes, num: nat) returns (ok: bool)
    modifies conn`outgoing
    ensures Sent(old(conn.outgoing), conn.outgoing, [ChunkFrame(Chunk(num, Slice(data, num, CHUNK_SIZE)))], ok,
                 conn.reliable)
  {
    var start := num * CHUNK_SIZE;
    var chunk := if start >= |data| then [] else data[start..Min(start + CHUNK_SIZE, |data|)];
    ok := conn.PySendFrame(KIND_BINARY, U32(num) + chunk);
    SentOne(old(conn.outgoing), conn.outgoing, Frame(KIND_BINARY, U32(num) + chunk), ok, conn.reliable);
  }

  lemma SentUpTo(was: bytes, mid: bytes, now: bytes, data: bytes, num: nat, n: nat, ok: bool, reliable: bool)
    requires num < n
    requires Sent(was, mid, ChunkFrames(Split(data, CHUNK_SIZE, num)), true, reliable)
    requires Sent(mid, now, [ChunkFrame(Chunk(num, Slice(data, num, CHUNK_SIZE)))], ok, reliable)
    ensures Sent(was, now, ChunkFrames(Split(data, CHUNK_SIZE, if ok then num + 1 else n)), ok, reliable)
  {
    var before, f := ChunkFrames(Split(data, CHUNK_SIZE, num)), ChunkFrame(Chunk(num, Slice(data, num, CHUNK_SIZE)));
    SentThen(was, mid, now, before, [f], ok, reliable);
    OneMoreChunk(data, num);
    if !ok {
      ChunksLater(data, num + 1, n);
      SentPart(was, now, before + [f], ChunkFrames(Split(data, CHUNK_SIZE, n)), reliable);
    }
  }

  lemma OneMoreChunk(data: bytes, n: nat)
    ensures ChunkFrames(Split(data, CHUNK_SIZE, n + 1))
            == ChunkFrames(Split(data, CHUNK_SIZE, n)) + [ChunkFrame(Chunk(n, Slice(data, n, CHUNK_SIZE)))]
  {
  }

  lemma ChunksLater(data: bytes, i: nat, n: nat)
    requires i <= n
    ensures ChunkFrames(Split(data, CHUNK_SIZE, i)) <= ChunkFrames(Split(data, CHUNK_SIZE, n))
  {
    var all := Split(data, CHUNK_SIZE, n);
    assert forall k :: 0 <= k < i ==> Split(data, CHUNK_SIZE, i)[k] == all[k];
  }

  lemma SentPart(was: bytes, now: bytes, part: seq<Frame>, all: seq<Frame>, reliable: bool)
    requires part <= all && Sent(was, now, part, false, reliable)
    ensures Sent(was, now, all, false, reliable)
  {
    SentFailed(was, now, part, all[|part|..], reliable);
    assert part + all[|part|..] == all;
  }

  /** The answer text, then the speech if there is any. */
  method ProcessAndReply(conn: Link, pipeline: Pipeline, call: Call, hash: bytes -> string) returns (ok: bool)
    modifies conn`outgoing
    ensures Sent(old(conn.outgoing), conn.outgoing, Replies(call, pipeline(call), hash), ok, conn.reliable)
  {
    var answer := pipeline(call);
    ghost var was, speech := conn.outgoing, if answer.wav.Some? then Spoken(call.id, answer.wav.value, hash) else [];
    Known(AiResponse(answer.text), "ai_response");
    ok := SendControl(conn, AiResponse(answer.text));
    if !ok {
      SentFailed(was, conn.outgoing, [Control(AiResponse(answer.text))], speech, conn.reliable);
      return;
    }
    ghost var mid := conn.outgoing;
    if answer.wav.Some? {
      ok := SendAudio(conn, call.id, answer.wav.value, hash);
    } else {
      SentNone(mid, conn.reliable);
    }
    SentThen(was, mid, conn.outgoing, [Control(AiResponse(answer.text))], speech, ok, conn.reliable);
  }

  // ---------- the loop ----------

  /** The reassembler object stands for this transfer. */
  ghost predicate Holds(r: Reassembler?<Begin>, transfer: Option<Transfer>)
    reads r
  {
    if r == null then transfer == None
    else r.announced == r.about.announced && transfer == Some(Transfer(r.about, r.chunks))
  }

  /** The written bytes and the outcome are those of the effect `e`. */
  ghost predicate Follows(was: bytes, now: bytes, e: Effect, open: bool, reliable: bool) {
    && (open ==> e.next.Serving? && now == was + EncodeAll(e.replies))
    && (!open ==> was <= now <= was + EncodeAll(e.replies))
    && (!open && reliable ==> e.next == Closed && now == was + EncodeAll(e.replies))
  }

  lemma SentFollows(was: bytes, now: bytes, next: Option<Transfer>, fs: seq<Frame>, calls: seq<Call>, ok: bool,
                    reliable: bool)
    requires Sent(was, now, fs, ok, reliable)
    ensures Follows(was, now, Send(next, fs, calls), ok, reliable)
  {
  }

  lemma SilentFollows(was: bytes, e: Effect, open: bool, reliable: bool)
    requires e.replies == [] && (open <==> e.next.Serving?)
    ensures Follows(was, was, e, open, reliable)
  {
    assert was + EncodeAll([]) == was;
  }

  /** Send one control message as the whole reaction to an event. */
  method Reply(conn: Link, ms: seq<Member>, t: string, ghost transfer: Option<Transfer>) returns (open: bool)
    requires ms != [] && ms[|ms| - 1] == Member("type", Text(t)) && t in KNOWN_TYPES
    modifies conn`outgoing
    ensures Follows(old(conn.outgoing), conn.outgoing, Send(transfer, [Control(ms)], []), open, conn.reliable)
  {
    Known(ms, t);
    open := SendControl(conn, ms);
    SentFollows(old(conn.outgoing), conn.outgoing, transfer, [Control(ms)], [], open, conn.reliable);
  }

  method HandleChunk(conn: Link, r: Reassembler?<Begin>, payload: bytes, ghost transfer: Option<Transfer>)
    returns (open: bool)
    requires Holds(r, transfer)
    modifies conn`outgoing, r
    ensures var e := OnChunk(transfer, payload);
            && Follows(old(conn.outgoing), conn.outgoing, e, open, conn.reliable)
            && (open ==> Holds(r, e.next.transfer))
  {
    if r == null {
      open := Reply(conn, CHUNK_FIRST, "error", None);
    } else {
      open := r.AddChunk(payload);
      SilentFollows(old(conn.outgoing), OnChunk(transfer, payload), open, conn.reliable);
    }
  }

  /** The end of a transfer; a held reassembler is given up even if the replies then fail. */
  method HandleEnd(conn: Link, r: Reassembler<Begin>, pipeline: Pipeline, hash: bytes -> string,
                   ghost transfer: Transfer)
    returns (open: bool, calls: seq<Call>)
    requires Holds(r, Some(transfer))
    modifies conn`outgoing
    ensures var e := OnEnd(transfer, pipeline, hash);
            && calls == e.calls && (open ==> e.next == Serving(None))
            && Follows(old(conn.outgoing), conn.outgoing, e, open, conn.reliable)
  {
    var image := r.FinishTransfer(hash);
    if image == None {
      SilentFollows(conn.outgoing, OnEnd(transfer, pipeline, hash), false, conn.reliable);
      return false, [];
    }
    var call := Call(image.value, r.about.media, r.about.id);
    calls := [call];
    open := ProcessAndReply(conn, pipeline, call, hash);
    SentFollows(old(conn.outgoing), conn.outgoing, None, Replies(call, pipeline(call), hash), calls, open,
                conn.reliable);
  }

  /** The answers that leave the transfer alone. */
  method HandleQuery(conn: Link, e: Event, pipeline: Pipeline, hash: bytes -> string,
                     ghost transfer: Option<Transfer>)
    returns (open: bool)
    requires e.Ping? || e.Info? || e.Unhandled?
    modifies conn`outgoing
    ensures Follows(old(conn.outgoing), conn.outgoing, OnEvent(transfer, e, pipeline, hash), open, conn.reliable)
  {
    match e {
      case Ping =>
        open := Reply(conn, Pong(), "pong", transfer);
        PingMeans(transfer, pipeline, hash);
      case Info =>
        open := Reply(conn, DeviceInfo(), "device_info", transfer);
        InfoMeans(transfer, pipeline, hash);
      case Unhandled(what) =>
        open := Reply(conn, Unknown(what), "error", transfer);
        UnhandledMeans(transfer, what, pipeline, hash);
    }
  }

  lemma PingMeans(transfer: Option<Transfer>, pipeline: Pipeline, hash: bytes -> string)
    ensures OnEvent(transfer, Ping, pipeline, hash) == Send(transfer, [Control(Pong())], [])
  {
  }

  lemma InfoMeans(transfer: Option<Transfer>, pipeline: Pipeline, hash: bytes -> string)
    ensures OnEvent(transfer, Info, pipeline, hash) == Send(transfer, [Control(DeviceInfo())], [])
  {
  }

  lemma UnhandledMeans(transfer: Option<Transfer>, what: Value, pipeline: Pipeline, hash: bytes -> string)
    ensures OnEvent(transfer, Unhandled(what), pipeline, hash) == Send(transfer, [Control(Unknown(what))], [])
  {
  }

  /** The branches on the type of a control message. */
  method HandleControl(conn: Link, r: Reassembler?<Begin>, e: Event, pipeline: Pipeline,
                       hash: bytes -> string, ghost transfer: Option<Transfer>)
    returns (open: bool, next: Reassembler?<Begin>, calls: seq<Call>)
    requires Holds(r, transfer) && !e.GotChunk?
    modifies conn`outgoing
    ensures next != null && next != r ==> fresh(next)
    ensures var f := OnEvent(transfer, e, pipeline, hash);
            && calls == f.calls && (open ==> f.next.Serving? && Holds(next, f.next.transfer))
            && Follows(old(conn.outgoing), conn.outgoing, f, open, conn.reliable)
  {
    next, calls := r, [];
    match e {
      case Garbled =>
        open := false;
        SilentFollows(conn.outgoing, OnEvent(transfer, e, pipeline, hash), open, conn.reliable);
      case BeginImage(begin) =>
        open := begin.Some?;
        if open {
          next := new Reassembler(begin.value, begin.value.announced);
        }
        SilentFollows(conn.outgoing, OnEvent(transfer, e, pipeline, hash), open, conn.reliable);
      case EndImage =>
        next := null;
        if r == null {
          open := true;
          SilentFollows(conn.outgoing, OnEvent(transfer, e, pipeline, hash), open, conn.reliable);
        } else {
          open, calls := HandleEnd(conn, r, pipeline, hash, transfer.value);
        }
      case Ping | Info | Unhandled(_) =>
        open := HandleQuery(conn, e, pipeline, hash, transfer);
        if open {
          OtherStep(transfer, e, pipeline, hash);
        }
        OneCallPerEnd(transfer, e, pipeline, hash);
    }
  }

  /** The body of the receive loop; `open` is false when an exception ends the connection. */
  method HandleFrame(conn: Link, r: Reassembler?<Begin>, f: Frame, pipeline: Pipeline, hash: bytes -> string,
                     ghost transfer: Option<Transfer>)
    returns (open: bool, next: Reassembler?<Begin>, calls: seq<Call>)
    requires Holds(r, transfer)
    modifies conn`outgoing, r
    ensures next != null && next != r ==> fresh(next)
    ensures var e := OnEvent(transfer, EventOf(f), pipeline, hash);
            && calls == e.calls && (open ==> e.next.Serving? && Holds(next, e.next.transfer))
            && Follows(old(conn.outgoing), conn.outgoing, e, open, conn.reliable)
  {
    next, calls := r, [];
    if f.kind == KIND_BINARY {
      open := HandleChunk(conn, r, f.payload, transfer);
      return;
    }
    open, next, calls := HandleControl(conn, r, EventOf(f), pipeline, hash, transfer);
  }

  /** What a run on the frames of a stream did so far. */
  ghost predicate Ran(es: seq<Event>, transfer: Option<Transfer>, replies: seq<Frame>, calls: seq<Call>,
                      pipeline: Pipeline, hash: bytes -> string)
  {
    Serve(es, pipeline, hash) == Effect(Serving(transfer), replies, calls)
  }

  /** One more event only adds replies and calls; after the connection closed it adds nothing. */
  lemma {:induction false} ServeGrows(a: seq<Event>, b: seq<Event>, pipeline: Pipeline, hash: bytes -> string)
    ensures var before, after := Serve(a, pipeline, hash), Serve(a + b, pipeline, hash);
            && before.calls <= after.calls && before.replies <= after.replies
            && (before.next == Closed ==> after == before)
  {
    if b == [] {
      assert a + b == a;
    } else {
      var init, last := b[..|b| - 1], b[|b| - 1];
      assert a + b == a + init + [last];
      ServeGrows(a, init, pipeline, hash);
      ServeStep(a + init, last, pipeline, hash);
    }
  }

  lemma EncodePrefix(a: seq<Frame>, b: seq<Frame>)
    requires a <= b
    ensures EncodeAll(a) <= EncodeAll(b)
  {
    assert b == a + b[|a|..];
    EncodeAllAppend(a, b[|a|..]);
  }

  /** The calls made and the bytes written are those of the effect `e`, cut short at most by a
      failing link. */
  ghost predicate Outcome(was: bytes, now: bytes, calls: seq<Call>, e: Effect, reliable: bool) {
    && calls <= e.calls && was <= now <= was + EncodeAll(e.replies)
    && (reliable ==> calls == e.calls && now == was + EncodeAll(e.replies))
  }

  lemma RunEnds(done: seq<Event>, later: seq<Event>, now: bytes, was: bytes, transfer: Option<Transfer>,
                replies: seq<Frame>, calls: seq<Call>, reliable: bool, pipeline: Pipeline, hash: bytes -> string)
    requires Ran(done, transfer, replies, calls, pipeline, hash) && now == was + EncodeAll(replies)
    requires reliable ==> later == []
    ensures Outcome(was, now, calls, Serve(done + later, pipeline, hash), reliable)
  {
    ServeGrows(done, later, pipeline, hash);
    EncodePrefix(replies, Serve(done + later, pipeline, hash).replies);
    assert later == [] ==> done + later == done;
  }

  lemma RunGoesOn(done: seq<Event>, e: Event, mid: bytes, now: bytes, was: bytes, transfer: Option<Transfer>,
                  replies: seq<Frame>, calls: seq<Call>, reliable: bool, pipeline: Pipeline, hash: bytes -> string)
    requires Ran(done, transfer, replies, calls, pipeline, hash) && mid == was + EncodeAll(replies)
    requires Follows(mid, now, OnEvent(transfer, e, pipeline, hash), true, reliable)
    ensures var f := OnEvent(transfer, e, pipeline, hash);
            && f.next.Serving?
            && Ran(done + [e], f.next.transfer, replies + f.replies, calls + f.calls, pipeline, hash)
            && now == was + EncodeAll(replies + f.replies)
  {
    var f := OnEvent(transfer, e, pipeline, hash);
    ServeStep(done, e, pipeline, hash);
    EncodeAllAppend(replies, f.replies);
    Assoc(was, EncodeAll(replies), EncodeAll(f.replies));
  }

  lemma RunBreaks(done: seq<Event>, e: Event, mid: bytes, now: bytes, was: bytes, transfer: Option<Transfer>,
                  replies: seq<Frame>, calls: seq<Call>, reliable: bool, pipeline: Pipeline, hash: bytes -> string)
    requires Ran(done, transfer, replies, calls, pipeline, hash) && mid == was + EncodeAll(replies)
    requires Follows(mid, now, OnEvent(transfer, e, pipeline, hash), false, reliable)
    ensures var f := OnEvent(transfer, e, pipeline, hash);
            && Outcome(was, now, calls + f.calls, Serve(done + [e], pipeline, hash), reliable)
            && (reliable ==> Serve(done + [e], pipeline, hash).next == Closed)
  {
    var f := OnEvent(transfer, e, pipeline, hash);
    ServeStep(done, e, pipeline, hash);
    EncodeAllAppend(replies, f.replies);
    Assoc(was, EncodeAll(replies), EncodeAll(f.replies));
  }

  lemma OutcomeLater(done: seq<Event>, later: seq<Event>, was: bytes, now: bytes, calls: seq<Call>, reliable: bool,
                     pipeline: Pipeline, hash: bytes -> string)
    requires Outcome(was, now, calls, Serve(done, pipeline, hash), reliable)
    requires reliable ==> Serve(done, pipeline, hash).next == Closed
    ensures Outcome(was, now, calls, Serve(done + later, pipeline, hash), reliable)
    ensures reliable ==> Serve(done + later, pipeline, hash).next == Closed
  {
    ServeGrows(done, later, pipeline, hash);
    EncodePrefix(Serve(done, pipeline, hash).replies, Serve(done + later, pipeline, hash).replies);
  }

  /** Where the run stands: the events handled, what they led to, and the stream still to be read. */
  datatype Run = Run(done: seq<Event>, transfer: Option<Transfer>, replies: seq<Frame>)

  ghost predicate Served(run: Run, calls: seq<Call>, s: bytes, s0: bytes, was: bytes, now: bytes,
                         pipeline: Pipeline, hash: bytes -> string)
  {
    && Events(ReceiveAll(s0).0) == run.done + Events(ReceiveAll(s).0) && ReceiveAll(s0).1 == ReceiveAll(s).1
    && Ran(run.done, run.transfer, run.replies, calls, pipeline, hash)
    && now == was + EncodeAll(run.replies)
  }

  lemma ServedFirst(s: bytes, was: bytes, pipeline: Pipeline, hash: bytes -> string)
    ensures Served(Run([], None, []), [], s, s, was, was, pipeline, hash)
  {
    assert was + EncodeAll([]) == was;
  }

  lemma FirstEvent(s: bytes, f: Frame, rest: bytes, done: seq<Event>)
    requires PyReceive(s) == Some((f, rest))
    ensures done + Events(ReceiveAll(s).0) == done + [EventOf(f)] + Events(ReceiveAll(rest).0)
    ensures ReceiveAll(s).1 == ReceiveAll(rest).1
  {
    var fs := ReceiveAll(rest).0;
    assert ReceiveAll(s).0 == [f] + fs;
    EventsCons(f, fs, done);
  }

  lemma EventsCons(f: Frame, fs: seq<Frame>, done: seq<Event>)
    ensures done + Events([f] + fs) == done + [EventOf(f)] + Events(fs)
  {
    EventsHead(f, fs);
    AddLater(done, EventOf(f), Events(fs));
  }

  lemma EventsHead(f: Frame, fs: seq<Frame>)
    ensures Events([f] + fs) == [EventOf(f)] + Events(fs)
  {
  }

  lemma AddLater(done: seq<Event>, e: Event, later: seq<Event>)
    ensures done + ([e] + later) == done + [e] + later
  {
  }

  /** A frame that leaves the connection open. */
  lemma ServedMore(run: Run, calls: seq<Call>, s: bytes, s0: bytes, was: bytes, mid: bytes, now: bytes, f: Frame,
                   rest: bytes, reliable: bool, pipeline: Pipeline, hash: bytes -> string) returns (next: Run)
    requires Served(run, calls, s, s0, was, mid, pipeline, hash) && PyReceive(s) == Some((f, rest))
    requires Follows(mid, now, OnEvent(run.transfer, EventOf(f), pipeline, hash), true, reliable)
    ensures var e := OnEvent(run.transfer, EventOf(f), pipeline, hash);
            && e.next == Serving(next.transfer)
            && Served(next, calls + e.calls, rest, s0, was, now, pipeline, hash)
  {
    var e := OnEvent(run.transfer, EventOf(f), pipeline, hash);
    RunGoesOn(run.done, EventOf(f), mid, now, was, run.transfer, run.replies, calls, reliable, pipeline, hash);
    FirstEvent(s, f, rest, run.done);
    next := Run(run.done + [EventOf(f)], e.next.transfer, run.replies + e.replies);
  }

  /** A frame that closes it, or whose handling the link cut short. */
  lemma ServedLast(run: Run, calls: seq<Call>, s: bytes, s0: bytes, was: bytes, mid: bytes, now: bytes, f: Frame,
                   rest: bytes, reliable: bool, pipeline: Pipeline, hash: bytes -> string)
    requires Served(run, calls, s, s0, was, mid, pipeline, hash) && PyReceive(s) == Some((f, rest))
    requires Follows(mid, now, OnEvent(run.transfer, EventOf(f), pipeline, hash), false, reliable)
    ensures var e := OnEvent(run.transfer, EventOf(f), pipeline, hash);
            var all := Serve(Events(ReceiveAll(s0).0), pipeline, hash);
            Outcome(was, now, calls + e.calls, all, reliable) && (reliable ==> all.next == Closed)
  {
    var e := EventOf(f);
    var more := OnEvent(run.transfer, e, pipeline, hash).calls;
    RunBreaks(run.done, e, mid, now, was, run.transfer, run.replies, calls, reliable, pipeline, hash);
    OutcomeLater(run.done + [e], Events(ReceiveAll(rest).0), was, now, calls + more, reliable, pipeline, hash);
    FirstEvent(s, f, rest, run.done);
  }

  /** No further frame can be read. */
  lemma ServedAll(run: Run, calls: seq<Call>, s: bytes, s0: bytes, was: bytes, now: bytes, reliable: bool,
                  pipeline: Pipeline, hash: bytes -> string)
    requires Served(run, calls, s, s0, was, now, pipeline, hash) && (reliable ==> PyReceive(s) == None)
    ensures Outcome(was, now, calls, Serve(Events(ReceiveAll(s0).0), pipeline, hash), reliable)
    ensures reliable ==> ReceiveAll(s0).1 == s
  {
    RunEnds(run.done, Events(ReceiveAll(s).0), now, was, run.transfer, run.replies, calls, reliable, pipeline, hash);
  }

  /** Serve one connection until it closes. Over every stream, and however the system cuts the reads
      and writes, the calls made and the bytes written are those of `Serve` on the frames of the
      stream; a failing link can only cut them short. A stream of whole frames is read to its end. */
  method HandleConnection(conn: Link, pipeline: Pipeline, hash: bytes -> string) returns (calls: seq<Call>)
    modifies conn`incoming, conn`outgoing
    ensures var s := old(conn.incoming);
            var e := Serve(Events(ReceiveAll(s).0), pipeline, hash);
            && Outcome(old(conn.outgoing), conn.outgoing, calls, e, conn.reliable)
            && (conn.reliable && e.next.Serving? && ReceiveAll(s).1 == [] ==> conn.incoming == [])
  {
    ghost var s0, was, run := conn.incoming, conn.outgoing, Run([], None, []);
    var r: Reassembler?<Begin> := null;
    calls := [];
    ServedFirst(s0, was, pipeline, hash);
    while true
      invariant Served(run, calls, conn.incoming, s0, was, conn.outgoing, pipeline, hash)
      invariant Holds(r, run.transfer) && (r != null ==> fresh(r))
      decreases |conn.incoming|
    {
      ghost var s, mid := conn.incoming, conn.outgoing;
      var f := conn.PyRecvFrame();
      if f == None {
        ServedAll(run, calls, s, s0, was, mid, conn.reliable, pipeline, hash);
        return;
      }
      ghost var rest := conn.incoming;
      var open, more;
      open, r, more := HandleFrame(conn, r, f.value, pipeline, hash, run.transfer);
      if open {
        run := ServedMore(run, calls, s, s0, was, mid, conn.outgoing, f.value, rest, conn.reliable, pipeline, hash);
      } else {
        ServedLast(run, calls, s, s0, was, mid, conn.outgoing, f.value, rest, conn.reliable, pipeline, hash);
      }
      calls := calls + more;
      if !open {
        return;
      }
    }
  }
}
