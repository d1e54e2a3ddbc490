/** What the device does with each frame of the phone's answers. */
module Hears {
  import opened Bytes
  import opened Framing
  import opened Chunks
  import opened Cover
  import opened Json
  import opened JsonLookup
  import opened Messages
  import opened AudioReceiver
  import opened Server
  import opened Inbox
  import opened Device
  import opened Hearing
  import opened Exchange
  import opened Stepwise

  /** A turn of moderate sizes, with speech and a driver that works. */
  ghost predicate SpokenTurn(x: Talk, env: Env) {
    && Sane(env) && Moderate(x, env.hash) && Works(env)
    && env.pipeline(CallOf(x)) == Answer(x.text, Some(x.pcm))
  }

  /** One that also meets the condition under which it must end well. */
  ghost predicate GoodTurn(x: Talk, env: Env) {
    SpokenTurn(x, env) && GetsThrough(x)
  }

  /** The audio driver plays mono and stereo. */
  ghost predicate Works(env: Env) {
    forall rate: nat, channels: nat :: rate > 0 && channels in {1, 2} ==> env.driver(rate, channels) == OK
  }

  /** In phase `p` the device takes the frame `f`, whatever follows it, into phase `q`; if it stops
      there it may leave the frame half read. */
  ghost predicate HearsInto(p: Phase, f: Frame, q: Phase, env: Env) {
    Receives(p) && forall tail: bytes :: HearsBefore(p, f, q, tail, env)
  }

  ghost predicate HearsBefore(p: Phase, f: Frame, q: Phase, tail: bytes, env: Env) {
    var r := Hear(p, Encode(f) + tail, env);
    r.0 == q && (r.1 == tail || !Receives(q))
  }

  /** It takes it whole. */
  ghost predicate HearsAll(p: Phase, f: Frame, q: Phase, env: Env) {
    Receives(p) && forall tail: bytes :: HearsAllBefore(p, f, q, tail, env)
  }

  ghost predicate HearsAllBefore(p: Phase, f: Frame, q: Phase, tail: bytes, env: Env) {
    Hear(p, Encode(f) + tail, env) == (q, tail)
  }

  lemma HearWaiting(response: bytes, s: bytes, env: Env)
    ensures Hear(Waiting(response), s, env) == HearControl(response, s)
  {
  }

  lemma HearFilling(f: Fields, cs: seq<Chunk>, response: bytes, s: bytes, env: Env)
    ensures Hear(Filling(f, cs, response), s, env)
            == if |cs| < f.chunks then HearChunk(f, cs, response, s) else HearEnd(f, cs, response, s, env)
  {
  }

  // ---------- frames that are taken as meant ----------

  lemma HearAnswer(x: Talk, tail: bytes, env: Env)
    requires GoodTurn(x, env)
    ensures HearControl([], Encode(Control(AiResponse(x.text))) + tail) == (Waiting(Shown(x.text)), tail)
  {
    HearGoodAnswer(x, tail);
  }

  lemma HearText(response: bytes, s: bytes, text: bytes, rest: bytes)
    requires Receive(s, TEXT_CAP) == Ok((Message(AI_RESPONSE, Some(text)), rest))
    ensures HearControl(response, s) == (Waiting(text), rest)
  {
  }

  lemma HearSpeech(response: bytes, s: bytes, begin: bytes, rest: bytes, f: Fields)
    requires Receive(s, TEXT_CAP) == Ok((Message(AUDIO_BEGIN, Some(begin)), rest)) && Playable(begin) == Some(f)
    ensures HearControl(response, s) == (Filling(f, [], response), rest)
  {
  }

  lemma HearBegin(x: Talk, tail: bytes, env: Env)
    requires GoodTurn(x, env)
    ensures HearControl(Shown(x.text), Encode(Control(BeginOf(x, env.hash))) + tail)
            == (Filling(FieldsOf(x, env.hash), [], Shown(x.text)), tail)
  {
    BeginAnnounces(x, env.hash);
    var ms := BeginOf(x, env.hash);
    BeginIsShort(x, env.hash);
    BeginReceived(ms, x.id, env.hash(x.pcm.data), tail);
    PlayableExact(x, env.hash);
    HearSpeech(Shown(x.text), Encode(Control(ms)) + tail, Dumps(ms), tail, FieldsOf(x, env.hash));
  }

  lemma HearSound(x: Talk, i: nat, tail: bytes, env: Env)
    requires GoodTurn(x, env) && i < |Sound(x)|
    ensures var f := FieldsOf(x, env.hash);
            HearChunk(f, Sound(x)[..i], Shown(x.text), Encode(ChunkFrame(Sound(x)[i])) + tail)
            == (Filling(f, Sound(x)[..i + 1], Shown(x.text)), tail)
  {
    SplitFits(x.pcm.data, |Sound(x)|);
    assert Sound(x)[i] in Sound(x);
    HearOne(FieldsOf(x, env.hash), Sound(x), i, Shown(x.text), tail);
  }

  lemma HearOne(f: Fields, cs: seq<Chunk>, i: nat, response: bytes, tail: bytes)
    requires i < |cs| && cs[i].num < TWO32 && |cs[i].data| <= CHUNK_SIZE && InRange(cs[i], f.size)
    ensures HearChunk(f, cs[..i], response, Encode(ChunkFrame(cs[i])) + tail)
            == (Filling(f, cs[..i + 1], response), tail)
  {
    NextChunkOfFrame(cs[i], tail, f.size);
    assert cs[..i] + [cs[i]] == cs[..i + 1];
  }

  lemma SoundEnds(x: Talk, tail: bytes, env: Env)
    requires GoodTurn(x, env)
    ensures var f := FieldsOf(x, env.hash);
            && AllInRange(Sound(x), f.size)
            && BodyEnd(Sound(x), Encode(Control(AudioEnd(Text(x.id)))) + tail, f.size, f.sha, env.heap(f.size),
                       env.wrap, env.hash) == Ok((x.pcm.data, tail))
  {
    var end, size := Control(AudioEnd(Text(x.id))), |x.pcm.data|;
    SplitFits(x.pcm.data, |Sound(x)|);
    AnswersSendable(x, env.hash);
    forall m ensures IsAscii(env.hash(m)) {
      PrintableIsAscii(env.hash(m));
    }
    DownlinkLossless(x.pcm.data, Sound(x), end, tail, env.heap(size), env.wrap, env.hash);
    FramesThenEnd(ChunkFrames(Sound(x)), end, tail);
    ReadChunksOfFrames(Sound(x), Encode(end) + tail, size);
  }

  lemma HearLast(x: Talk, tail: bytes, env: Env)
    requires GoodTurn(x, env)
    ensures HearEnd(FieldsOf(x, env.hash), Sound(x), Shown(x.text),
                    Encode(Control(AudioEnd(Text(x.id)))) + tail, env)
            == (Over(OK, Shown(x.text), Some(Played16(x))), tail)
  {
    SoundEnds(x, tail, env);
    var f := FieldsOf(x, env.hash);
    Narrowed(f.channels);
    assert Audible(f, x.pcm.data) == Played16(x);
    HearOut(f, Sound(x), Shown(x.text), Encode(Control(AudioEnd(Text(x.id)))) + tail, x.pcm.data, tail, env);
  }

  lemma HearOut(f: Fields, cs: seq<Chunk>, response: bytes, s: bytes, pcm: bytes, rest: bytes, env: Env)
    requires Sane(env) && Works(env) && AllInRange(cs, f.size) && f.size == |pcm|
    requires f.channels < TWO32 && f.channels % 256 in {1, 2} && f.rate > 0
    requires BodyEnd(cs, s, f.size, f.sha, env.heap(f.size), env.wrap, env.hash) == Ok((pcm, rest))
    ensures HearEnd(f, cs, response, s, env) == (Over(OK, response, Some(Audible(f, pcm))), rest)
  {
  }

  lemma AnswerHeardFirst(x: Talk, env: Env, p: Phase, f: Frame, q: Phase)
    requires GoodTurn(x, env) && p == Waiting([]) && q == Waiting(Shown(x.text))
    requires f == Control(AiResponse(x.text))
    ensures HearsAll(p, f, q, env)
  {
    forall tail: bytes ensures HearsAllBefore(p, f, q, tail, env) {
      HearAnswer(x, tail, env);
      HearWaiting([], Encode(f) + tail, env);
    }
  }

  lemma BeginHeard(x: Talk, env: Env, p: Phase, f: Frame, q: Phase)
    requires GoodTurn(x, env) && p == Waiting(Shown(x.text)) && f == Control(BeginOf(x, env.hash))
    requires q == Filling(FieldsOf(x, env.hash), [], Shown(x.text))
    ensures HearsAll(p, f, q, env)
  {
    forall tail: bytes ensures HearsAllBefore(p, f, q, tail, env) {
      HearBegin(x, tail, env);
      HearWaiting(Shown(x.text), Encode(f) + tail, env);
    }
  }

  lemma ChunkHeard(x: Talk, i: nat, env: Env, fields: Fields, p: Phase, f: Frame, q: Phase)
    requires GoodTurn(x, env) && i < |Sound(x)| && fields == FieldsOf(x, env.hash) && f == ChunkFrame(Sound(x)[i])
    requires p == Filling(fields, Sound(x)[..i], Shown(x.text))
    requires q == Filling(fields, Sound(x)[..i + 1], Shown(x.text))
    ensures HearsAll(p, f, q, env)
  {
    forall tail: bytes ensures HearsAllBefore(p, f, q, tail, env) {
      HearSound(x, i, tail, env);
      HearFilling(fields, Sound(x)[..i], Shown(x.text), Encode(f) + tail, env);
    }
  }

  lemma EndHeard(x: Talk, env: Env, fields: Fields, p: Phase, f: Frame, q: Phase)
    requires GoodTurn(x, env) && fields == FieldsOf(x, env.hash) && f == Control(AudioEnd(Text(x.id)))
    requires p == Filling(fields, Sound(x), Shown(x.text)) && q == Over(OK, Shown(x.text), Some(Played16(x)))
    ensures HearsAll(p, f, q, env)
  {
    forall tail: bytes ensures HearsAllBefore(p, f, q, tail, env) {
      HearLast(x, tail, env);
      HearFilling(fields, Sound(x), Shown(x.text), Encode(f) + tail, env);
    }
  }

  lemma GoodAnswerHeard(x: Talk, env: Env)
    requires |Dumps(AiResponse(x.text))| <= MAX_FRAME_BYTES && AnswerFault(x.text) == None
    ensures HearsAll(Waiting([]), Control(AiResponse(x.text)), Waiting(Shown(x.text)), env)
  {
    var f := Control(AiResponse(x.text));
    forall tail: bytes ensures HearsAllBefore(Waiting([]), f, Waiting(Shown(x.text)), tail, env) {
      HearGoodAnswer(x, tail);
    }
  }

  // ---------- frames that stop the device ----------

  lemma HearFaulty(x: Talk, tail: bytes)
    requires |Dumps(AiResponse(x.text))| <= MAX_FRAME_BYTES && AnswerFault(x.text).Some?
    ensures HearControl([], Encode(Control(AiResponse(x.text))) + tail).0 == Over(AnswerFault(x.text).value, [], None)
  {
    AnswerReceived(x.text, tail);
    HearError([], Encode(Control(AiResponse(x.text))) + tail, AnswerFault(x.text).value);
  }

  lemma HearError(response: bytes, s: bytes, code: Code)
    requires Receive(s, TEXT_CAP) == Err(code)
    ensures HearControl(response, s) == (Over(code, response, None), s)
  {
  }

  lemma HearUnplayable(response: bytes, s: bytes, begin: bytes, rest: bytes)
    requires Receive(s, TEXT_CAP) == Ok((Message(AUDIO_BEGIN, Some(begin)), rest)) && Playable(begin) == None
    ensures HearControl(response, s) == (Over(IO, response, None), rest)
  {
  }

  lemma HearBadBegin(x: Talk, tail: bytes, env: Env)
    requires SpokenTurn(x, env) && (Hit(x.id, "type") || !ClearOfFields(x.id))
    ensures HearControl(Shown(x.text), Encode(Control(BeginOf(x, env.hash))) + tail).0
            == Over(IO, Shown(x.text), None)
  {
    var ms := BeginOf(x, env.hash);
    BeginAnnounces(x, env.hash);
    BeginIsShort(x, env.hash);
    BeginReceived(ms, x.id, env.hash(x.pcm.data), tail);
    PlayableExact(x, env.hash);
    if Hit(x.id, "type") {
      HearError(Shown(x.text), Encode(Control(ms)) + tail, IO);
    } else {
      HearUnplayable(Shown(x.text), Encode(Control(ms)) + tail, Dumps(ms), tail);
    }
  }

  lemma HearGoodAnswer(x: Talk, tail: bytes)
    requires |Dumps(AiResponse(x.text))| <= MAX_FRAME_BYTES && AnswerFault(x.text) == None
    ensures HearControl([], Encode(Control(AiResponse(x.text))) + tail) == (Waiting(Shown(x.text)), tail)
  {
    AnswerReceived(x.text, tail);
    HearText([], Encode(Control(AiResponse(x.text))) + tail, Shown(x.text), tail);
  }

  lemma FaultHeard(x: Talk, env: Env, f: Frame, code: Code)
    requires |Dumps(AiResponse(x.text))| <= MAX_FRAME_BYTES
    requires AnswerFault(x.text) == Some(code) && f == Control(AiResponse(x.text))
    ensures HearsInto(Waiting([]), f, Over(code, [], None), env)
  {
    forall tail: bytes ensures HearsBefore(Waiting([]), f, Over(code, [], None), tail, env) {
      HearFaulty(x, tail);
      HearWaiting([], Encode(f) + tail, env);
    }
  }

  lemma BadBeginHeard(x: Talk, env: Env, f: Frame)
    requires SpokenTurn(x, env) && (Hit(x.id, "type") || !ClearOfFields(x.id))
    requires f == Control(BeginOf(x, env.hash))
    ensures HearsInto(Waiting(Shown(x.text)), f, Over(IO, Shown(x.text), None), env)
  {
    forall tail: bytes ensures HearsBefore(Waiting(Shown(x.text)), f, Over(IO, Shown(x.text), None), tail, env) {
      HearBadBegin(x, tail, env);
      StopsBefore(Shown(x.text), f, IO, tail, env);
    }
  }

  lemma StopsBefore(response: bytes, f: Frame, code: Code, tail: bytes, env: Env)
    requires HearControl(response, Encode(f) + tail).0 == Over(code, response, None)
    ensures HearsBefore(Waiting(response), f, Over(code, response, None), tail, env)
  {
    HearWaiting(response, Encode(f) + tail, env);
  }
}
