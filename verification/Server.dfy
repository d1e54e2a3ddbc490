/** The phone's connection loop: what one frame does, and what holds over every sequence of frames. */
module Server {
  import opened Bytes
  import opened Decimals
  import opened Framing
  import opened Chunks
  import opened Json
  import opened JsonLoads
  import opened Messages
  import opened AudioReceiver

  /** What the AI and text-to-speech pipeline returns: the answer, and speech if it was rendered. */
  datatype Answer = Answer(text: string, wav: Option<Pcm>)

  /** One call of the pipeline. */
  datatype Call = Call(data: bytes, media: Value, id: Value)

  type Pipeline = Call -> Answer

  /** A transfer in flight. */
  datatype Transfer = Transfer(begin: Begin, chunks: map<nat, bytes>)

  datatype State = Serving(transfer: Option<Transfer>) | Closed

  /** The effect of one frame: the next state, the frames sent back, the pipeline calls made. */
  datatype Effect = Effect(next: State, replies: seq<Frame>, calls: seq<Call>)

  function Spoken(id: Value, pcm: Pcm, hash: bytes -> string): seq<Frame> {
    var n := ChunkCount(|pcm.data|, CHUNK_SIZE);
    [Control(AudioBegin(id, pcm, n, hash(pcm.data)))]
    + ChunkFrames(Split(pcm.data, CHUNK_SIZE, n))
    + [Control(AudioEnd(id))]
  }

  /** The answer text, then the speech if there is any. */
  function Replies(call: Call, answer: Answer, hash: bytes -> string): seq<Frame> {
    [Control(AiResponse(answer.text))]
    + (if answer.wav.Some? then Spoken(call.id, answer.wav.value, hash) else [])
  }

  /** Frames are sent until one is too large, which ends the connection. */
  function Deliverable(fs: seq<Frame>): (r: seq<Frame>)
    ensures r <= fs
    ensures forall f <- r :: Sendable(f)
  {
    if fs == [] || !Sendable(fs[0]) then [] else [fs[0]] + Deliverable(fs[1..])
  }

  function Send(next: Option<Transfer>, fs: seq<Frame>, calls: seq<Call>): Effect {
    Effect(if Deliverable(fs) == fs then Serving(next) else Closed, Deliverable(fs), calls)
  }

  const CHUNK_FIRST: seq<Member> := ErrorReply(1002, "chunk before image_begin")

  /** How Python prints a type in an error message. */
  function TypeText(v: Value): string {
    match v
    case Text(s) => s
    case Num(n) => var d := Decimal(n); seq(|d|, i requires 0 <= i < |d| => d[i] as char)
  }

  function Unknown(what: Value): seq<Member> { ErrorReply(1001, "unhandled type " + TypeText(what)) }

  /** What a frame is to the server. */
  datatype Event =
    | GotChunk(payload: bytes)
    | Garbled
    | Ping
    | Info
    | BeginImage(begin: Option<Begin>)
    | EndImage
    | Unhandled(what: Value)

  function ControlEvent(ms: seq<Member>): Event
    requires Get(ms, "type").Some?
  {
    var t := Get(ms, "type").value;
    if t == Text("ping") then Ping
    else if t == Text("device_info") then Info
    else if t == Text("image_begin") then BeginImage(ParseBegin(ms))
    else if t == Text("image_end") then EndImage
    else Unhandled(t)
  }

  function EventOf(f: Frame): Event {
    if f.kind == KIND_BINARY then GotChunk(f.payload)
    else match DecodeControl(f.payload)
      case None => Garbled
      case Some(ms) => ControlEvent(ms)
  }

  function Events(fs: seq<Frame>): (es: seq<Event>)
    ensures |es| == |fs| && forall i :: 0 <= i < |fs| ==> es[i] == EventOf(fs[i])
  {
    if fs == [] then [] else Events(fs[..|fs| - 1]) + [EventOf(fs[|fs| - 1])]
  }

  /** The effect of making one pipeline call. */
  function Answered(call: Call, pipeline: Pipeline, hash: bytes -> string): Effect {
    Send(None, Replies(call, pipeline(call), hash), [call])
  }

  /** One effect after another. */
  function After(before: Effect, e: Effect): Effect {
    Effect(e.next, before.replies + e.replies, before.calls + e.calls)
  }

  function OnEnd(t: Transfer, pipeline: Pipeline, hash: bytes -> string): Effect {
    match Finish(t.chunks, t.begin.announced, hash)
    case None => Effect(Closed, [], [])
    case Some(data) =>
      Answered(Call(data, t.begin.media, t.begin.id), pipeline, hash)
  }

  function OnChunk(transfer: Option<Transfer>, payload: bytes): Effect {
    match transfer
    case None => Send(None, [Control(CHUNK_FIRST)], [])
    case Some(t) =>
      match Parse(payload)
      case None => Effect(Closed, [], [])
      case Some(c) => Effect(Serving(Some(t.(chunks := t.chunks[c.num := c.data]))), [], [])
  }

  function OnEvent(transfer: Option<Transfer>, e: Event, pipeline: Pipeline, hash: bytes -> string): Effect {
    match e
    case GotChunk(payload) => OnChunk(transfer, payload)
    case Garbled => Effect(Closed, [], [])
    case Ping => Send(transfer, [Control(Pong())], [])
    case Info => Send(transfer, [Control(DeviceInfo())], [])
    case BeginImage(None) => Effect(Closed, [], [])
    case BeginImage(Some(b)) => Effect(Serving(Some(Transfer(b, map[]))), [], [])
    case EndImage => if transfer == None then Effect(Serving(None), [], []) else OnEnd(transfer.value, pipeline, hash)
    case Unhandled(t) => Send(transfer, [Control(Unknown(t))], [])
  }

  /** The effect of a list of frames on a fresh connection; nothing happens after it closed. */
  function Serve(es: seq<Event>, pipeline: Pipeline, hash: bytes -> string): Effect {
    if es == [] then Effect(Serving(None), [], [])
    else
      var before := Serve(es[..|es| - 1], pipeline, hash);
      match before.next
      case Closed => before
      case Serving(transfer) => After(before, OnEvent(transfer, es[|es| - 1], pipeline, hash))
  }

  // ---------- what holds over every run ----------

  /** The last begin that no end follows, read off the log. */
  function OpenBegin(es: seq<Event>): (r: Option<nat>)
    ensures r.Some? ==> r.value < |es| && es[r.value].BeginImage?
  {
    if es == [] then None
    else
      var last := es[|es| - 1];
      if last.BeginImage? then Some(|es| - 1)
      else if last.EndImage? then None
      else OpenBegin(es[..|es| - 1])
  }

  predicate IsWholeChunk(e: Event) {
    e.GotChunk? && Parse(e.payload).Some?
  }

  /** The chunks in a log. */
  function ChunksIn(es: seq<Event>): seq<Chunk> {
    if es == [] then []
    else
      var before, last := ChunksIn(es[..|es| - 1]), es[|es| - 1];
      if IsWholeChunk(last) then before + [Parse(last.payload).value] else before
  }

  /** The server's state is a function of the log: a transfer is held exactly when a begin arrived
      that no end followed, it is the last such begin, and its dictionary holds exactly the chunks
      that arrived since. */
  ghost predicate Explained(es: seq<Event>, transfer: Option<Transfer>) {
    match OpenBegin(es)
    case None => transfer == None
    case Some(i) => transfer.Some? && es[i].begin == Some(transfer.value.begin)
                    && transfer.value.chunks == Store(ChunksIn(es[i + 1..]))
  }

  lemma ServeStep(es: seq<Event>, e: Event, pipeline: Pipeline, hash: bytes -> string)
    ensures var before := Serve(es, pipeline, hash);
            Serve(es + [e], pipeline, hash)
            == if before.next == Closed then before
               else After(before, OnEvent(before.next.transfer, e, pipeline, hash))
  {
    assert (es + [e])[..|es|] == es;
  }

  lemma BeginStep(transfer: Option<Transfer>, e: Event, pipeline: Pipeline, hash: bytes -> string)
    requires e.BeginImage? && OnEvent(transfer, e, pipeline, hash).next.Serving?
    ensures e.begin.Some?
    ensures OnEvent(transfer, e, pipeline, hash).next.transfer == Some(Transfer(e.begin.value, map[]))
  {
  }

  lemma EndStep(transfer: Option<Transfer>, pipeline: Pipeline, hash: bytes -> string)
    requires OnEvent(transfer, EndImage, pipeline, hash).next.Serving?
    ensures OnEvent(transfer, EndImage, pipeline, hash).next.transfer == None
  {
  }

  lemma ChunkStep(t: Transfer, payload: bytes, pipeline: Pipeline, hash: bytes -> string)
    requires OnEvent(Some(t), GotChunk(payload), pipeline, hash).next.Serving?
    ensures Parse(payload).Some?
    ensures var c := Parse(payload).value;
            OnEvent(Some(t), GotChunk(payload), pipeline, hash).next.transfer
            == Some(t.(chunks := t.chunks[c.num := c.data]))
  {
  }

  lemma SendStep(next: Option<Transfer>, fs: seq<Frame>, calls: seq<Call>)
    requires Send(next, fs, calls).next.Serving?
    ensures Send(next, fs, calls).next.transfer == next
  {
  }

  lemma OtherStep(transfer: Option<Transfer>, e: Event, pipeline: Pipeline, hash: bytes -> string)
    requires !e.BeginImage? && !e.EndImage? && (e.GotChunk? ==> transfer == None)
    requires OnEvent(transfer, e, pipeline, hash).next.Serving?
    ensures OnEvent(transfer, e, pipeline, hash).next.transfer == transfer
  {
    match e
    case GotChunk(_) => SendStep(None, [Control(CHUNK_FIRST)], []);
    case Ping => SendStep(transfer, [Control(Pong())], []);
    case Info => SendStep(transfer, [Control(DeviceInfo())], []);
    case Unhandled(t) => SendStep(transfer, [Control(Unknown(t))], []);
    case _ =>
  }

  lemma EventExplained(es: seq<Event>, e: Event, transfer: Option<Transfer>, pipeline: Pipeline, hash: bytes -> string)
    requires Explained(es, transfer) && OnEvent(transfer, e, pipeline, hash).next.Serving?
    ensures Explained(es + [e], OnEvent(transfer, e, pipeline, hash).next.transfer)
  {
    var next := OnEvent(transfer, e, pipeline, hash).next.transfer;
    if e.BeginImage? {
      BeginStep(transfer, e, pipeline, hash);
      ExplainedBegin(es, e, next);
    } else if e.EndImage? {
      EndStep(transfer, pipeline, hash);
      ExplainedEnd(es, e);
    } else if e.GotChunk? && transfer.Some? {
      ChunkStep(transfer.value, e.payload, pipeline, hash);
      ExplainedChunk(es, e, transfer.value);
    } else {
      OtherStep(transfer, e, pipeline, hash);
      ExplainedOther(es, e, transfer);
    }
  }

  lemma ExplainedBegin(es: seq<Event>, e: Event, next: Option<Transfer>)
    requires e.BeginImage? && e.begin.Some? && next == Some(Transfer(e.begin.value, map[]))
    ensures Explained(es + [e], next)
  {
    assert (es + [e])[|es| + 1..] == [];
  }

  lemma ExplainedEnd(es: seq<Event>, e: Event)
    requires e.EndImage?
    ensures Explained(es + [e], None)
  {
  }

  lemma ExplainedChunk(es: seq<Event>, e: Event, t: Transfer)
    requires e.GotChunk? && Parse(e.payload).Some? && Explained(es, Some(t))
    ensures var c := Parse(e.payload).value; Explained(es + [e], Some(t.(chunks := t.chunks[c.num := c.data])))
  {
    var i, c, log := OpenBegin(es).value, Parse(e.payload).value, es + [e];
    StillOpen(es, e, log);
    SinceBegin(es, e, i);
    ChunksInAppend(es[i + 1..], e);
    ExplainedAs(log, i, t.(chunks := t.chunks[c.num := c.data]));
  }

  lemma StillOpen(es: seq<Event>, e: Event, log: seq<Event>)
    requires log == es + [e] && !e.BeginImage? && !e.EndImage?
    ensures OpenBegin(log) == OpenBegin(es)
  {
    assert log[..|es|] == es;
  }

  lemma ExplainedAs(es: seq<Event>, i: nat, t: Transfer)
    requires OpenBegin(es) == Some(i) && es[i].begin == Some(t.begin) && t.chunks == Store(ChunksIn(es[i + 1..]))
    ensures Explained(es, Some(t))
  {
  }

  lemma SinceBegin(es: seq<Event>, e: Event, i: nat)
    requires i < |es|
    ensures (es + [e])[..|es|] == es && (es + [e])[i] == es[i] && (es + [e])[i + 1..] == es[i + 1..] + [e]
  {
  }

  lemma ExplainedOther(es: seq<Event>, e: Event, transfer: Option<Transfer>)
    requires !e.BeginImage? && !e.EndImage? && (e.GotChunk? ==> transfer == None) && Explained(es, transfer)
    ensures Explained(es + [e], transfer)
  {
    var log := es + [e];
    StillOpen(es, e, log);
    if OpenBegin(es).Some? {
      var i := OpenBegin(es).value;
      SinceBegin(es, e, i);
      ChunksInAppend(es[i + 1..], e);
      ExplainedAs(log, i, transfer.value);
    }
  }

  lemma ChunksInAppend(es: seq<Event>, e: Event)
    ensures !IsWholeChunk(e) ==> ChunksIn(es + [e]) == ChunksIn(es)
    ensures IsWholeChunk(e) ==> var c := Parse(e.payload).value;
                                Store(ChunksIn(es + [e])) == Store(ChunksIn(es))[c.num := c.data]
  {
    assert (es + [e])[..|es|] == es;
    if IsWholeChunk(e) {
      StoreAppend(ChunksIn(es), Parse(e.payload).value);
    }
  }

  lemma {:induction false} ServeExplained(es: seq<Event>, pipeline: Pipeline, hash: bytes -> string)
    ensures var r := Serve(es, pipeline, hash).next; r.Serving? ==> Explained(es, r.transfer)
  {
    if es != [] {
      var init, last := es[..|es| - 1], es[|es| - 1];
      assert es == init + [last];
      ServeExplained(init, pipeline, hash);
      ServeStep(init, last, pipeline, hash);
      if Serve(es, pipeline, hash).next.Serving? {
        EventExplained(init, last, Serve(init, pipeline, hash).next.transfer, pipeline, hash);
      }
    }
  }

  /** A call is justified at position `n` of the log: event `n` ends the transfer opened by the last
      begin, and the data is what the chunks since then spell, with the announced size and hash. */
  ghost predicate Justified(es: seq<Event>, n: nat, call: Call, hash: bytes -> string) {
    && n < |es| && es[n].EndImage? && OpenBegin(es[..n]).Some?
    && var i := OpenBegin(es[..n]).value;
       && es[i].BeginImage? && es[i].begin.Some?
       && JustifiedBy(es[i].begin.value, ChunksIn(es[i + 1..n]), call, hash)
  }

  ghost predicate JustifiedBy(b: Begin, cs: seq<Chunk>, call: Call, hash: bytes -> string) {
    && Finish(Store(cs), b.announced, hash) == Some(call.data)
    && |call.data| == b.announced.size && hash(call.data) == b.announced.sha
    && call.media == b.media && call.id == b.id
  }

  lemma JustifiedLater(es: seq<Event>, e: Event, n: nat, call: Call, hash: bytes -> string)
    requires Justified(es, n, call, hash)
    ensures Justified(es + [e], n, call, hash)
  {
    SameLog(es, es + [e], n, call, hash);
  }

  lemma SameLog(es: seq<Event>, log: seq<Event>, n: nat, call: Call, hash: bytes -> string)
    requires Justified(es, n, call, hash) && es <= log
    ensures Justified(log, n, call, hash)
  {
    var front := es[..n];
    var i := OpenBegin(front).value;
    var cs := ChunksIn(es[i + 1..n]);
    assert log[..n] == front && log[i + 1..n] == es[i + 1..n];
    JustifiedAt(log, front, n, i, cs, call, hash);
  }

  lemma JustifiedAt(log: seq<Event>, front: seq<Event>, n: nat, i: nat, cs: seq<Chunk>, call: Call,
                    hash: bytes -> string)
    requires n < |log| && log[n].EndImage? && front == log[..n] && OpenBegin(front) == Some(i)
    requires i < n && cs == ChunksIn(log[i + 1..n]) && log[i].BeginImage? && log[i].begin.Some?
    requires JustifiedBy(log[i].begin.value, cs, call, hash)
    ensures Justified(log, n, call, hash)
  {
  }

  /** Only the end of a held transfer makes a call, and then one. */
  lemma OneCallPerEnd(transfer: Option<Transfer>, e: Event, pipeline: Pipeline, hash: bytes -> string)
    ensures var calls := OnEvent(transfer, e, pipeline, hash).calls;
            calls != [] ==> e.EndImage? && transfer.Some? && |calls| == 1
                            && Finish(transfer.value.chunks, transfer.value.begin.announced, hash)
                               == Some(calls[0].data)
                            && calls[0].media == transfer.value.begin.media && calls[0].id == transfer.value.begin.id
  {
    if e.EndImage? {
      if transfer.Some? {
        EndCalls(transfer.value, pipeline, hash);
      }
    } else {
      NoOtherCalls(transfer, e, pipeline, hash);
    }
  }

  lemma EndCalls(t: Transfer, pipeline: Pipeline, hash: bytes -> string)
    ensures var calls := OnEnd(t, pipeline, hash).calls;
            calls != [] ==> |calls| == 1 && Finish(t.chunks, t.begin.announced, hash) == Some(calls[0].data)
                            && calls[0].media == t.begin.media && calls[0].id == t.begin.id
  {
  }

  lemma NoOtherCalls(transfer: Option<Transfer>, e: Event, pipeline: Pipeline, hash: bytes -> string)
    requires !e.EndImage?
    ensures OnEvent(transfer, e, pipeline, hash).calls == []
  {
  }

  lemma NewCallJustified(es: seq<Event>, e: Event, transfer: Option<Transfer>, pipeline: Pipeline,
                         hash: bytes -> string)
    requires Explained(es, transfer) && OnEvent(transfer, e, pipeline, hash).calls != []
    ensures Justified(es + [e], |es|, OnEvent(transfer, e, pipeline, hash).calls[0], hash)
  {
    OneCallPerEnd(transfer, e, pipeline, hash);
    EndJustified(es, es + [e], transfer.value, OnEvent(transfer, e, pipeline, hash).calls[0], hash);
  }

  lemma EndJustified(es: seq<Event>, log: seq<Event>, t: Transfer, call: Call, hash: bytes -> string)
    requires es <= log && |es| < |log| && log[|es|].EndImage? && Explained(es, Some(t))
    requires Finish(t.chunks, t.begin.announced, hash) == Some(call.data)
    requires call.media == t.begin.media && call.id == t.begin.id
    ensures Justified(log, |es|, call, hash)
  {
    assert log[..|es|] == es;
    var i := OpenBegin(es).value;
    assert log[i] == es[i] && log[i + 1..|es|] == es[i + 1..];
  }

  lemma LastCallJustified(init: seq<Event>, last: Event, pipeline: Pipeline, hash: bytes -> string, k: nat)
    requires |Serve(init, pipeline, hash).calls| <= k < |Serve(init + [last], pipeline, hash).calls|
    ensures Justified(init + [last], |init|, Serve(init + [last], pipeline, hash).calls[k], hash)
  {
    var before := Serve(init, pipeline, hash);
    ServeStep(init, last, pipeline, hash);
    ServeExplained(init, pipeline, hash);
    OneCallPerEnd(before.next.transfer, last, pipeline, hash);
    NewCallJustified(init, last, before.next.transfer, pipeline, hash);
  }

  /** Every pipeline call over every run is justified by the log. */
  lemma {:induction false} CallsJustified(es: seq<Event>, pipeline: Pipeline, hash: bytes -> string, k: nat)
      returns (n: nat)
    requires k < |Serve(es, pipeline, hash).calls|
    ensures Justified(es, n, Serve(es, pipeline, hash).calls[k], hash)
  {
    var init, last := es[..|es| - 1], es[|es| - 1];
    assert es == init + [last];
    var before := Serve(init, pipeline, hash);
    ServeStep(init, last, pipeline, hash);
    if k < |before.calls| {
      n := CallsJustified(init, pipeline, hash, k);
      JustifiedLater(init, last, n, before.calls[k], hash);
    } else {
      LastCallJustified(init, last, pipeline, hash, k);
      n := |init|;
    }
  }

  /** A chunk outside a transfer is answered by exactly one error and changes nothing. */
  lemma StrayChunk(es: seq<Event>, payload: bytes, pipeline: Pipeline, hash: bytes -> string)
    requires Serve(es, pipeline, hash).next.Serving? && OpenBegin(es) == None
    ensures var before, after := Serve(es, pipeline, hash), Serve(es + [GotChunk(payload)], pipeline, hash);
            after == Effect(before.next, before.replies + [Control(CHUNK_FIRST)], before.calls)
  {
    ServeExplained(es, pipeline, hash);
    ServeStep(es, GotChunk(payload), pipeline, hash);
    ErrorDelivered();
    var calls := Serve(es, pipeline, hash).calls;
    assert calls + [] == calls;
  }

  lemma ErrorDelivered()
    ensures Deliverable([Control(CHUNK_FIRST)]) == [Control(CHUNK_FIRST)]
  {
    ChunkFirstFits();
    var e := Control(CHUNK_FIRST);
    assert Deliverable([e]) == [e] + Deliverable([]);
  }

  lemma {:induction false} EscapeLength(s: string)
    ensures |Escape(s)| <= 12 * |s|
  {
    if s != "" {
      EscapeLength(s[1..]);
    }
  }

  lemma TextMemberLength(m: Member)
    requires m.value.Text?
    ensures |MemberText(m)| <= 12 * (|m.key| + |m.value.text|) + 5
  {
    EscapeLength(m.key);
    EscapeLength(m.value.text);
  }

  lemma NumMemberLength(m: Member)
    requires m.value.Num?
    ensures |MemberText(m)| <= 12 * |m.key| + 3 + |Decimal(m.value.num)|
  {
    EscapeLength(m.key);
  }

  lemma ChunkFirstFits()
    ensures Sendable(Control(CHUNK_FIRST))
  {
    FourDigits();
    NumMemberLength(CHUNK_FIRST[0]);
    TextMemberLength(CHUNK_FIRST[1]);
    TextMemberLength(CHUNK_FIRST[2]);
    ThreeMembers(CHUNK_FIRST);
  }

  lemma FourDigits()
    ensures |Decimal(1002)| == 4
  {
    assert |Decimal(10)| == 2;
    assert |Decimal(100)| == 3;
  }

  lemma ThreeMembers(ms: seq<Member>)
    requires |ms| == 3
    ensures |Dumps(ms)| == |MemberText(ms[0])| + |MemberText(ms[1])| + |MemberText(ms[2])| + 4
  {
    assert ms[1..][1..] == [ms[2]];
    assert |MembersText([ms[2]])| == |MemberText(ms[2])| + 1;
    assert |MembersText(ms[1..])| == |MemberText(ms[1])| + 1 + |MembersText(ms[1..][1..])|;
  }
}
