/** One whole turn as streams: what the phone replies to the device's picture, and what the device
    makes of the replies. */
module Exchange {
  import opened Bytes
  import opened Decimals
  import opened Framing
  import opened Chunks
  import opened Json
  import opened JsonLookup
  import opened JsonLoads
  import opened Messages
  import opened AudioReceiver
  import opened Server
  import opened Connection
  import opened Uplink
  import opened Inbox
  import opened Device
  import opened Hearing
  import opened Hex

  /** One turn: the picture's id, media type and bytes, and what the pipeline answers to it. */
  datatype Talk = Talk(id: string, media: string, data: bytes, text: string, pcm: Pcm)

  function CallOf(x: Talk): Call { Call(x.data, Text(x.media), Text(x.id)) }

  function PictureOf(x: Talk): Picture { Picture(Utf8All(x.id), Utf8All(x.media), x.data) }

  /** What the device writes. */
  function Asked(x: Talk, hash: bytes -> string): seq<Frame> { ImageFrames(PictureOf(x), hash) }

  function BeginOf(x: Talk, hash: bytes -> string): seq<Member> {
    AudioBegin(Text(x.id), x.pcm, ChunkCount(|x.pcm.data|, CHUNK_SIZE), hash(x.pcm.data))
  }

  function Sound(x: Talk): seq<Chunk> { Split(x.pcm.data, CHUNK_SIZE, ChunkCount(|x.pcm.data|, CHUNK_SIZE)) }

  /** The frames of the speech after its announcement. */
  function BodyFrames(x: Talk): seq<Frame> { ChunkFrames(Sound(x)) + [Control(AudioEnd(Text(x.id)))] }

  /** What the phone writes. */
  function Answers(x: Talk, hash: bytes -> string): seq<Frame> {
    [Control(AiResponse(x.text)), Control(BeginOf(x, hash))] + BodyFrames(x)
  }

  /** The picture can be sent. */
  predicate Askable(x: Talk, hash: bytes -> string) {
    Fits(x.id, x.media, x.data, hash) && ChunkCount(|x.data|, CHUNK_SIZE) <= TWO32
  }

  /** The picture can be sent, the answer fits a frame, the sound's numbers fit 32 bits, and it has a
      rate and one or two channels. */
  ghost predicate Moderate(x: Talk, hash: bytes -> string) {
    && HexDigest(hash) && Askable(x, hash)
    && |Dumps(AiResponse(x.text))| <= MAX_FRAME_BYTES
    && |x.pcm.data| < TWO32 && 0 < x.pcm.rate < TWO32 && x.pcm.channels in {1, 2}
  }

  /** The answer fits the device's receive buffer, and neither it nor the id can be taken for a key
      the device looks up. */
  predicate GetsThrough(x: Talk) {
    AnswerFault(x.text) == None && !Hit(x.id, "type") && ClearOfFields(x.id)
  }

  /** For an id that the firmware can send this is plain to see. */
  lemma GetsThroughExact(x: Talk)
    requires Pasteable(x.id)
    ensures GetsThrough(x) <==> (|Dumps(AiResponse(x.text))| < RECV_CAP && !Hit(x.text, "type")
                                 && x.id !in {"type", "size", "chunks", "sample_rate", "channels", "sha256"})
  {
    forall k: string | x.id != k ensures !Hit(x.id, k) {
      NoQuoteNoHit(x.id, k);
    }
  }

  lemma AnswersAreReplies(x: Talk, hash: bytes -> string)
    ensures Replies(CallOf(x), Answer(x.text, Some(x.pcm)), hash) == Answers(x, hash)
  {
    FourParts(Control(AiResponse(x.text)), Control(BeginOf(x, hash)), ChunkFrames(Sound(x)),
              Control(AudioEnd(Text(x.id))));
  }

  lemma FourParts(a: Frame, b: Frame, cs: seq<Frame>, e: Frame)
    ensures [a] + ([b] + cs + [e]) == [a, b] + (cs + [e])
  {
  }

  // ---------- everything can be sent ----------

  lemma {:induction false} EscapeOfUtf8(s: string)
    ensures |Escape(s)| <= 6 * |Utf8All(s)|
  {
    if s != "" {
      EscapeOfUtf8(s[1..]);
    }
  }

  lemma TextShort(m: Member, n: nat)
    requires m.value.Text? && AllPrintable(m.key) && AllPrintable(m.value.text)
    requires |m.key| + |m.value.text| + 5 <= n
    ensures |MemberText(m)| <= n
  {
    EscapePrintable(m.key);
    EscapePrintable(m.value.text);
  }

  lemma IdShort(m: Member)
    requires m.value.Text? && AllPrintable(m.key) && |m.key| <= 8 && |Utf8All(m.value.text)| <= 93
    ensures |MemberText(m)| <= 571
  {
    EscapePrintable(m.key);
    EscapeOfUtf8(m.value.text);
  }

  lemma NumShort(m: Member)
    requires m.value.Num? && AllPrintable(m.key) && |m.key| <= 11 && m.value.num <= TWO32
    ensures |MemberText(m)| <= 24
  {
    EscapePrintable(m.key);
    Decimal32(m.value.num);
  }

  lemma OneMoreMember(ms: seq<Member>, i: nat, n: nat)
    requires i < |ms| && |MemberText(ms[i])| <= n
    ensures |MembersText(ms[i..])| <= n + 1 + |MembersText(ms[i + 1..])|
  {
    assert ms[i..][1..] == ms[i + 1..] && ms[i..][0] == ms[i];
  }

  /** The announcement always fits the text buffer: an id that the firmware could send is short. */
  lemma BeginIsShort(x: Talk, hash: bytes -> string)
    requires Moderate(x, hash)
    ensures |Dumps(BeginOf(x, hash))| < TEXT_CAP
  {
    SplitFits(x.pcm.data, ChunkCount(|x.pcm.data|, CHUNK_SIZE));
    IdIsShort(x, hash);
    BeginAnnounces(x, hash);
    ShortMembers(BeginOf(x, hash), x.id, hash(x.pcm.data));
  }

  lemma IdIsShort(x: Talk, hash: bytes -> string)
    requires Moderate(x, hash)
    ensures |Utf8All(x.id)| <= 93
  {
    assert |hash(x.data)| == 64;
    FitsExact(x.id, x.media, x.data, hash);
  }

  lemma ShortMembers(ms: seq<Member>, id: string, sha: string)
    requires Announces(ms, id, sha) && |Utf8All(id)| <= 93
    requires ms[1].value.num <= TWO32 && ms[2].value.num <= TWO32 && ms[4].value.num <= TWO32
    requires ms[6].value.num <= TWO32
    ensures |Dumps(ms)| < TEXT_CAP
  {
    ShortTexts(ms, id, sha);
    ShortNumbers(ms, id, sha);
    EightShort(ms);
  }

  lemma EightShort(ms: seq<Member>)
    requires |ms| == 8
    requires |MemberText(ms[0])| <= 571 && |MemberText(ms[1])| <= 24 && |MemberText(ms[2])| <= 24
    requires |MemberText(ms[3])| <= 24 && |MemberText(ms[4])| <= 24 && |MemberText(ms[5])| <= 75
    requires |MemberText(ms[6])| <= 24 && |MemberText(ms[7])| <= 24
    ensures |Dumps(ms)| < TEXT_CAP
  {
    OneMoreMember(ms, 0, 571);
    OneMoreMember(ms, 1, 24);
    OneMoreMember(ms, 2, 24);
    OneMoreMember(ms, 3, 24);
    OneMoreMember(ms, 4, 24);
    OneMoreMember(ms, 5, 75);
    OneMoreMember(ms, 6, 24);
    OneMoreMember(ms, 7, 24);
    assert ms[0..] == ms && ms[8..] == [];
  }

  lemma ShortTexts(ms: seq<Member>, id: string, sha: string)
    requires Announces(ms, id, sha) && |Utf8All(id)| <= 93
    ensures |MemberText(ms[0])| <= 571 && |MemberText(ms[3])| <= 24
    ensures |MemberText(ms[5])| <= 75 && |MemberText(ms[7])| <= 24
  {
    Printables();
    assert AllPrintable("type") && AllPrintable("audio_begin");
    IdShort(ms[0]);
    TextShort(ms[3], 24);
    TextShort(ms[5], 75);
    TextShort(ms[7], 24);
  }

  lemma ShortNumbers(ms: seq<Member>, id: string, sha: string)
    requires Announces(ms, id, sha)
    requires ms[1].value.num <= TWO32 && ms[2].value.num <= TWO32 && ms[4].value.num <= TWO32
    requires ms[6].value.num <= TWO32
    ensures |MemberText(ms[1])| <= 24 && |MemberText(ms[2])| <= 24
    ensures |MemberText(ms[4])| <= 24 && |MemberText(ms[6])| <= 24
  {
    Printables();
    NumShort(ms[1]);
    NumShort(ms[2]);
    NumShort(ms[4]);
    NumShort(ms[6]);
  }

  lemma {:induction false} AllDeliverable(fs: seq<Frame>)
    requires forall f <- fs :: Sendable(f)
    ensures Deliverable(fs) == fs
  {
    if fs != [] {
      assert Sendable(fs[0]);
      AllDeliverable(fs[1..]);
    }
  }

  lemma ChunkFrameFits(cs: seq<Chunk>)
    requires Carriable(cs)
    ensures forall f <- ChunkFrames(cs) :: Sendable(f) && |f.payload| <= FRAME_CAP
  {
    forall f | f in ChunkFrames(cs) ensures Sendable(f) && |f.payload| <= FRAME_CAP {
      var i :| 0 <= i < |cs| && ChunkFrames(cs)[i] == f;
      assert cs[i] in cs;
    }
  }

  /** The closing message is about as long as its id, which the announcement contains too. */
  lemma EndIsShort(id: string, begin: seq<Member>)
    requires |begin| > 1 && begin[0] == Member("audio_id", Text(id))
    ensures |Dumps(AudioEnd(Text(id)))| <= |Dumps(begin)| + 161
  {
    var end := AudioEnd(Text(id));
    EndLength(end);
    TextMemberLength(end[1]);
  }

  lemma EndLength(end: seq<Member>)
    requires |end| == 2
    ensures |Dumps(end)| == |MemberText(end[0])| + |MemberText(end[1])| + 3
  {
    assert end[1..] == [end[1]];
    assert |MembersText([end[1]])| == |MemberText(end[1])| + 1;
  }

  lemma AnswersSendable(x: Talk, hash: bytes -> string)
    requires Moderate(x, hash)
    ensures forall f <- Answers(x, hash) :: Sendable(f)
    ensures |Dumps(AudioEnd(Text(x.id)))| <= FRAME_CAP
  {
    BeginIsShort(x, hash);
    EndIsShort(x.id, BeginOf(x, hash));
    SplitFits(x.pcm.data, ChunkCount(|x.pcm.data|, CHUNK_SIZE));
    ChunkFrameFits(Sound(x));
    FourSendable(Control(AiResponse(x.text)), Control(BeginOf(x, hash)), ChunkFrames(Sound(x)),
                 Control(AudioEnd(Text(x.id))));
  }

  lemma FourSendable(a: Frame, b: Frame, cs: seq<Frame>, e: Frame)
    requires Sendable(a) && Sendable(b) && Sendable(e) && forall f <- cs :: Sendable(f)
    ensures forall f <- [a, b] + (cs + [e]) :: Sendable(f)
  {
  }

  lemma AskedSendable(x: Talk, hash: bytes -> string)
    requires Askable(x, hash)
    ensures forall f <- Asked(x, hash) :: Sendable(f)
  {
    var p, cs := PictureOf(x), Split(x.data, CHUNK_SIZE, ChunkCount(|x.data|, CHUNK_SIZE));
    SplitShort(x.data, ChunkCount(|x.data|, CHUNK_SIZE));
    ChunkFrameFits(cs);
    ThreeSendable(Frame(KIND_JSON, BeginText(p, hash)), ChunkFrames(cs), Frame(KIND_JSON, EndText(p)));
  }

  lemma ThreeSendable(a: Frame, cs: seq<Frame>, e: Frame)
    requires Sendable(a) && Sendable(e) && forall f <- cs :: Sendable(f)
    ensures forall f <- [a] + cs + [e] :: Sendable(f)
  {
  }

  lemma SplitShort(data: bytes, n: nat)
    requires n <= TWO32
    ensures Carriable(Split(data, CHUNK_SIZE, n))
  {
  }

  // ---------- the phone's side ----------

  /** The phone calls the pipeline once, on exactly the picture, and writes exactly the answers. */
  lemma PhoneAnswers(x: Talk, pipeline: Pipeline, hash: bytes -> string)
    requires Moderate(x, hash) && pipeline(CallOf(x)) == Answer(x.text, Some(x.pcm))
    ensures Serve(Events(Asked(x, hash)), pipeline, hash) == Effect(Serving(None), Answers(x, hash), [CallOf(x)])
  {
    UplinkLossless([], x.id, x.media, x.data, pipeline, hash);
    var es := Events(Asked(x, hash));
    assert [] + es == es;
    AnsweredWith(x, pipeline, hash);
  }

  lemma AnsweredWith(x: Talk, pipeline: Pipeline, hash: bytes -> string)
    requires Moderate(x, hash) && pipeline(CallOf(x)) == Answer(x.text, Some(x.pcm))
    ensures After(Serve([], pipeline, hash), Answered(CallOf(x), pipeline, hash))
            == Effect(Serving(None), Answers(x, hash), [CallOf(x)])
  {
    AnswersAreReplies(x, hash);
    AnswersSendable(x, hash);
    AllDeliverable(Answers(x, hash));
    FirstAnswer(CallOf(x), Answers(x, hash), pipeline, hash);
  }

  lemma FirstAnswer(call: Call, fs: seq<Frame>, pipeline: Pipeline, hash: bytes -> string)
    requires Replies(call, pipeline(call), hash) == fs && Deliverable(fs) == fs
    ensures After(Serve([], pipeline, hash), Answered(call, pipeline, hash)) == Effect(Serving(None), fs, [call])
  {
    assert [] + fs == fs && [] + [call] == [call];
  }

  // ---------- the device's side ----------

  lemma BeginAnnounces(x: Talk, hash: bytes -> string)
    requires HexDigest(hash)
    ensures Announces(BeginOf(x, hash), x.id, hash(x.pcm.data))
  {
  }

  function FieldsOf(x: Talk, hash: bytes -> string): Fields {
    Fields(|x.pcm.data|, ChunkCount(|x.pcm.data|, CHUNK_SIZE), x.pcm.rate, x.pcm.channels, Ascii(hash(x.pcm.data)))
  }

  /** The announcement is good for playing exactly when the id is clear of the fields. */
  lemma PlayableExact(x: Talk, hash: bytes -> string)
    requires Moderate(x, hash)
    ensures Playable(Dumps(BeginOf(x, hash))) == if ClearOfFields(x.id) then Some(FieldsOf(x, hash)) else None
  {
    var n := ChunkCount(|x.pcm.data|, CHUNK_SIZE);
    BeginAnnounces(x, hash);
    FieldsExact(BeginOf(x, hash), x.id, hash(x.pcm.data));
    SplitFits(x.pcm.data, n);
    NoWrap(|x.pcm.data|, TWO32);
    NoWrap(n, TWO32);
    NoWrap(x.pcm.rate, TWO32);
    NoWrap(x.pcm.channels, TWO32);
  }

  lemma AnswersSplit(x: Talk, hash: bytes -> string)
    ensures EncodeAll(Answers(x, hash))
            == Encode(Control(AiResponse(x.text))) + (Encode(Control(BeginOf(x, hash))) + EncodeAll(BodyFrames(x)))
  {
    TwoThen(Control(AiResponse(x.text)), Control(BeginOf(x, hash)), BodyFrames(x));
  }

  lemma TwoThen(a: Frame, b: Frame, fs: seq<Frame>)
    ensures EncodeAll([a, b] + fs) == Encode(a) + (Encode(b) + EncodeAll(fs))
  {
    assert ([a, b] + fs)[1..] == [b] + fs && ([b] + fs)[1..] == fs;
  }

  /** The device hears the answer and the announcement, or stops with an error at the first text that
      hides the type. */
  lemma ListenToAnswers(x: Talk, hash: bytes -> string)
    requires Moderate(x, hash)
    ensures var s, body := EncodeAll(Answers(x, hash)), EncodeAll(BodyFrames(x));
            var begin := Encode(Control(BeginOf(x, hash))) + body;
            Listen(s, [])
            == if AnswerFault(x.text).Some? then Turn(Broken(AnswerFault(x.text).value), [], s)
               else if Hit(x.id, "type") then Turn(Broken(IO), Shown(x.text), begin)
               else Turn(Speech(Dumps(BeginOf(x, hash))), Shown(x.text), body)
  {
    var body := EncodeAll(BodyFrames(x));
    AnswersSplit(x, hash);
    AnswerReceived(x.text, Encode(Control(BeginOf(x, hash))) + body);
    BeginAnnounces(x, hash);
    BeginIsShort(x, hash);
    BeginReceived(BeginOf(x, hash), x.id, hash(x.pcm.data), body);
    ListenTwice(EncodeAll(Answers(x, hash)), Encode(Control(BeginOf(x, hash))) + body, body, Shown(x.text),
                Dumps(BeginOf(x, hash)), AnswerFault(x.text), Hit(x.id, "type"));
  }

  lemma ListenOn(s: bytes, response: bytes, text: bytes, rest: bytes)
    requires 0 !in text && 0 !in response && Receive(s, TEXT_CAP) == Ok((Message(AI_RESPONSE, Some(text)), rest))
    ensures Listen(s, response) == Listen(rest, text)
  {
  }

  lemma ListenTwice(s: bytes, mid: bytes, body: bytes, text: bytes, begin: bytes, fault: Option<Code>, lost: bool)
    requires 0 !in text
    requires Receive(s, TEXT_CAP)
             == match fault case Some(code) => Err(code) case None => Ok((Message(AI_RESPONSE, Some(text)), mid))
    requires Receive(mid, TEXT_CAP) == if lost then Err(IO) else Ok((Message(AUDIO_BEGIN, Some(begin)), body))
    ensures Listen(s, []) == if fault.Some? then Turn(Broken(fault.value), [], s)
                             else if lost then Turn(Broken(IO), text, mid)
                             else Turn(Speech(begin), text, body)
  {
    if fault.Some? {
      ListenFails(s, [], fault.value);
    } else {
      ListenOn(s, [], text, mid);
      if lost {
        ListenFails(mid, text, IO);
      } else {
        ListenEnds(mid, text, begin, body);
      }
    }
  }

  lemma ListenFails(s: bytes, response: bytes, code: Code)
    requires 0 !in response && Receive(s, TEXT_CAP) == Err(code)
    ensures Listen(s, response) == Turn(Broken(code), response, s)
  {
  }

  lemma ListenEnds(s: bytes, response: bytes, begin: bytes, rest: bytes)
    requires 0 !in response && Receive(s, TEXT_CAP) == Ok((Message(AUDIO_BEGIN, Some(begin)), rest))
    ensures Listen(s, response) == Turn(Speech(begin), response, rest)
  {
  }

  lemma BodyReceived(x: Talk, hash: bytes -> string, junk: bytes, wrap: nat)
    requires Moderate(x, hash) && wrap >= TWO32 && |junk| == |x.pcm.data|
    ensures var f := FieldsOf(x, hash);
            AudioBody(EncodeAll(BodyFrames(x)), f.chunks, f.size, f.sha, junk, wrap, hash) == Ok((x.pcm.data, []))
  {
    AnswersSendable(x, hash);
    assert HashIsText(hash) by {
      forall m ensures IsAscii(hash(m)) {
        PrintableIsAscii(hash(m));
      }
    }
    DownlinkLossless(x.pcm.data, Sound(x), Control(AudioEnd(Text(x.id))), [], junk, wrap, hash);
    PlusNothing(EncodeAll(BodyFrames(x)));
  }

  lemma PrintableIsAscii(s: string)
    requires AllPrintable(s)
    ensures IsAscii(s)
  {
  }

  /** What comes out of the speaker. */
  function Played16(x: Talk): Played
    requires x.pcm.channels in {1, 2}
  {
    Played(x.pcm.rate, x.pcm.channels, x.pcm.data[..AudibleBytes(|x.pcm.data|, x.pcm.channels)])
  }

  /** Sound that consists of whole frames is played to its last byte; otherwise the broken frame at
      the end is dropped. */
  lemma PlaysWholeFrames(size: nat, channels: nat)
    requires channels in {1, 2}
    ensures AudibleBytes(size, channels) == size - size % (2 * channels)
  {
    if channels == 1 {
      assert FrameBytes(channels) == 2;
    } else {
      assert FrameBytes(channels) == 4;
    }
  }

  /** A turn over streams that do not fail, with an audio driver that works: the device ends it well
      exactly when the answer fits and neither it nor the id can be taken for a looked-up key.
      Then it has played exactly the phone's sound, holds the answer, and nothing is left unread;
      otherwise it reports an error and plays nothing. */
  lemma TurnExact(x: Talk, hash: bytes -> string, err: Code, rest: bytes, was: seq<Played>, played: seq<Played>,
                  junk: bytes, wrap: nat, out: bytes)
    requires Moderate(x, hash) && wrap >= TWO32
    requires RepliesHandled(Listen(EncodeAll(Answers(x, hash)), []), err, true, rest, true, was, played, junk, wrap,
                            hash, out)
    ensures err == OK <==> GetsThrough(x)
    ensures GetsThrough(x) ==> rest == [] && played == was + [Played16(x)] && Gives(out, Shown(x.text))
    ensures !GetsThrough(x) ==> err in {IO, NO_MEM} && played == was
  {
    ListenToAnswers(x, hash);
    if AnswerFault(x.text) == None && !Hit(x.id, "type") {
      PlayableExact(x, hash);
      if ClearOfFields(x.id) {
        BodyReceived(x, hash, junk, wrap);
        SpeechPlayed(x, hash, err, rest, was, played, junk, wrap);
      }
    }
  }

  lemma SpeechPlayed(x: Talk, hash: bytes -> string, err: Code, rest: bytes, was: seq<Played>, played: seq<Played>,
                     junk: bytes, wrap: nat)
    requires Moderate(x, hash) && wrap > 0
    requires Heard(Ok((x.pcm.data, [])), FieldsOf(x, hash), err, true, rest, true, was, played)
    ensures err == OK && rest == [] && played == was + [Played16(x)]
  {
    WellPlayed(x, FieldsOf(x, hash), err, rest, was, played);
  }

  lemma WellPlayed(x: Talk, f: Fields, err: Code, rest: bytes, was: seq<Played>, played: seq<Played>)
    requires f.channels == x.pcm.channels && x.pcm.channels in {1, 2}
    requires f.rate == x.pcm.rate > 0 && f.size == |x.pcm.data|
    requires Heard(Ok((x.pcm.data, [])), f, err, true, rest, true, was, played)
    ensures err == OK && rest == [] && played == was + [Played16(x)]
  {
    Narrowed(f.channels);
    assert Audible(f, x.pcm.data) == Played16(x);
  }

  lemma Narrowed(channels: nat)
    requires channels in {1, 2}
    ensures channels % 256 == channels
  {
  }

  // ---------- both sides together ----------

  lemma SendsAll(x: Talk, hash: bytes -> string)
    requires Moderate(x, hash)
    ensures SendOutcome(PictureOf(x), hash) == (Asked(x, hash), OK)
    ensures ReceiveAll(EncodeAll(Asked(x, hash))) == (Asked(x, hash), [])
  {
    AskedSendable(x, hash);
    ReceiveAllOfFrames(Asked(x, hash));
  }

  /** End to end. Let the phone serve the bytes the device sent, and the device run its turn on the
      bytes the phone wrote. Then the pipeline ran once, on exactly the captured bytes; the phone has
      read everything; and the device ends well, having played exactly the phone's sound and read
      everything, if and only if the answer fits and neither it nor the id can be taken for a looked-up
      key. */
  lemma WholeTurn(x: Talk, pipeline: Pipeline, hash: bytes -> string, wrap: nat, sent: bytes, s: bytes,
                  calls: seq<Call>, err: Code, rest: bytes, was: seq<Played>, played: seq<Played>, junk: bytes,
                  out: bytes)
    requires Moderate(x, hash) && wrap >= TWO32 && pipeline(CallOf(x)) == Answer(x.text, Some(x.pcm))
    requires Outcome([], s, calls, Serve(Events(ReceiveAll(sent).0), pipeline, hash), true)
    requires UplinkRan(PictureOf(x), s, [], sent, rest, err, true, true, was, played, junk, wrap, hash, out)
    ensures calls == [CallOf(x)] && ReceiveAll(sent).1 == []
    ensures err == OK <==> GetsThrough(x)
    ensures GetsThrough(x) ==> rest == [] && played == was + [Played16(x)] && Gives(out, Shown(x.text))
    ensures !GetsThrough(x) ==> err in {IO, NO_MEM} && played == was
  {
    SendsAll(x, hash);
    assert sent == EncodeAll(Asked(x, hash));
    PhoneAnswers(x, pipeline, hash);
    assert s == EncodeAll(Answers(x, hash));
    TurnExact(x, hash, err, rest, was, played, junk, wrap, out);
  }

  /** Without speech the phone sends the answer alone. An answer with a fault ends the turn there;
      any other the device hears, and goes on waiting until the stream ends and it reports an error. */
  lemma AnswerAlone(text: string)
    requires |Dumps(AiResponse(text))| <= MAX_FRAME_BYTES
    ensures var s := EncodeAll([Control(AiResponse(text))]);
            Listen(s, []) == match AnswerFault(text)
                             case Some(fault) => Turn(Broken(fault), [], s)
                             case None => Turn(Broken(IO), Shown(text), [])
  {
    EncodeAllOne(Control(AiResponse(text)));
    AnswerReceived(text, []);
    PlusNothing(Encode(Control(AiResponse(text))));
    if AnswerFault(text) == None {
      assert Listen([], Shown(text)) == Turn(Broken(IO), Shown(text), []);
    }
  }
}
