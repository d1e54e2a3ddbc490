/** The scripts of a turn: one with speech, which every schedule brings to a good end; one that
    cannot get through, which every schedule brings to an error; and one without speech, which every
    schedule leaves waiting, unless the answer cannot get through. */
module Turns {
  import opened Bytes
  import opened Framing
  import opened Chunks
  import opened Json
  import opened Messages
  import opened AudioReceiver
  import opened Server
  import opened Connection
  import opened Uplink
  import opened Device
  import opened Hearing
  import opened Hex
  import opened Exchange
  import opened Schedule
  import opened Stepwise
  import opened Hears

  /** A run of the turn: it starts with the picture to be sent to a fresh phone. */
  ghost predicate TurnRun(x: Talk, env: Env, ws: seq<World<Phase, Phone>>) {
    && ws != [] && ws[0] == World(Writing(EncodeAll(Asked(x, env.hash))), [], [], FRESH, [])
    && forall i :: 0 <= i < |ws| - 1 ==> Step(Both(env), Waiting([]), ws[i], ws[i + 1])
  }

  lemma RunOfScript(x: Talk, env: Env, ws: seq<World<Phase, Phone>>, c: Script<Phase, Phone>)
    requires TurnRun(x, env, ws) && c.asked == Asked(x, env.hash) && c.start == FRESH
    requires c.phases != [] && c.phases[0] == Waiting([])
    ensures IsRun(Both(env), c, ws)
  {
  }

  /** The parties' device is the one of `env`. */
  ghost predicate PlaysDevice(m: Parties<Phase, Phone>, env: Env) {
    && (forall p :: m.listens(p) == Receives(p))
    && forall p, t :: m.hear(p, t) == Hear(p, t, env)
  }

  lemma BothPlay(env: Env)
    ensures PlaysDevice(Both(env), env)
  {
  }

  /** The phone is silent until everything was asked. */
  lemma AskedInSilence(x: Talk, fs: seq<Frame>, k: nat, env: Env)
    requires HexDigest(env.hash) && Askable(x, env.hash) && fs == Asked(x, env.hash) && k < |fs|
    ensures var e := Serve(Events(fs[..k]), env.pipeline, env.hash); e.next.Serving? && e.replies == []
  {
    var n := ChunkCount(|x.data|, CHUNK_SIZE);
    ImageUnderstood(x.id, x.media, x.data, env.hash);
    QuietUntilEnd(Begin(Announced(|x.data|, n, env.hash(x.data)), Text(x.id), Text(x.media)),
                  Split(x.data, CHUNK_SIZE, n), k, env.pipeline, env.hash);
    EventsUpTo(fs, k);
  }

  lemma AllQuiet(x: Talk, env: Env, c: Script<Phase, Phone>)
    requires HexDigest(env.hash) && Askable(x, env.hash) && c.asked == Asked(x, env.hash) && c.start == FRESH
    ensures forall k :: 0 <= k < |c.asked| ==> Quiet(Both(env), c, k)
  {
    forall k | 0 <= k < |c.asked| ensures Quiet(Both(env), c, k) {
      AskedInSilence(x, c.asked, k, env);
      SaidIsServed(c.asked[..k], env);
    }
  }

  /** What is asked and answered can be sent and is what the phone says. */
  ghost predicate Exchanged(c: Script<Phase, Phone>, call: Call, env: Env) {
    && (forall f <- c.asked :: Sendable(f)) && (forall f <- c.answers :: Sendable(f))
    && Said(Both(env), c.start, c.asked) == (Phone(Serving(None), [call]), c.answers)
  }

  lemma TurnExchanged(x: Talk, env: Env, c: Script<Phase, Phone>)
    requires SpokenTurn(x, env) && c.asked == Asked(x, env.hash) && c.answers == Answers(x, env.hash)
    requires c.start == FRESH
    ensures Exchanged(c, CallOf(x), env)
  {
    AskedSendable(x, env.hash);
    AnswersSendable(x, env.hash);
    PhoneAnswers(x, env.pipeline, env.hash);
    ExchangedBy(c, CallOf(x), env);
  }

  lemma IsScript(c: Script<Phase, Phone>, call: Call, env: Env, m: Parties<Phase, Phone>)
    requires m == Both(env) && Exchanged(c, call, env) && 0 < |c.phases| <= |c.answers| + 1
    requires if c.drains then |c.phases| == |c.answers| + 1 else !m.listens(c.phases[|c.phases| - 1])
    requires forall j :: 0 <= j < |c.phases| - 1 ==> Takes(m, c, j)
    requires forall k :: 0 <= k < |c.asked| ==> Quiet(m, c, k)
    ensures Scripted(m, c)
  {
  }

  lemma TakesWhole(m: Parties<Phase, Phone>, c: Script<Phase, Phone>, j: nat, env: Env)
    requires PlaysDevice(m, env) && j < |c.answers| && j + 1 < |c.phases|
    requires HearsAll(c.phases[j], c.answers[j], c.phases[j + 1], env)
    ensures Takes(m, c, j)
  {
    forall tail: bytes ensures TakesBefore(m, c, j, tail) {
      assert HearsAllBefore(c.phases[j], c.answers[j], c.phases[j + 1], tail, env);
    }
  }

  lemma TakesLast(m: Parties<Phase, Phone>, c: Script<Phase, Phone>, j: nat, env: Env)
    requires PlaysDevice(m, env) && j < |c.answers| && j + 1 < |c.phases| && !c.drains
    requires HearsInto(c.phases[j], c.answers[j], c.phases[j + 1], env) && !Receives(c.phases[j + 1])
    ensures Takes(m, c, j)
  {
    forall tail: bytes ensures TakesBefore(m, c, j, tail) {
      assert HearsBefore(c.phases[j], c.answers[j], c.phases[j + 1], tail, env);
    }
  }

  // ---------- plans ----------

  /** What the phone's answers are made of, and what the device makes of them. */
  datatype Plan = Plan(text: Frame, begin: Frame, chunks: seq<Frame>, end: Frame,
                       shown: bytes, fields: Fields, sound: seq<Chunk>, played: Played)

  function PlanOf(x: Talk, hash: bytes -> string): Plan
    requires x.pcm.channels in {1, 2}
  {
    Plan(Control(AiResponse(x.text)), Control(BeginOf(x, hash)), ChunkFrames(Sound(x)), Control(AudioEnd(Text(x.id))),
         Shown(x.text), FieldsOf(x, hash), Sound(x), Played16(x))
  }

  function PlanAnswers(p: Plan): seq<Frame> { [p.text, p.begin] + (p.chunks + [p.end]) }

  /** The device after `j` frames of the answers: waiting, waiting with the answer, filling the
      buffer, done. */
  function PhaseAfter(p: Plan, j: nat): Phase {
    if j == 0 then Waiting([])
    else if j == 1 then Waiting(p.shown)
    else if j - 2 <= |p.sound| then Filling(p.fields, p.sound[..j - 2], p.shown)
    else Over(OK, p.shown, Some(p.played))
  }

  function PlanPhases(p: Plan): (ps: seq<Phase>)
    ensures |ps| == |p.sound| + 4 && forall j :: 0 <= j < |ps| ==> ps[j] == PhaseAfter(p, j)
  {
    seq(|p.sound| + 4, j requires 0 <= j < |p.sound| + 4 => PhaseAfter(p, j))
  }

  /** The device takes the frames of the plan as meant. */
  ghost predicate HearsPlan(p: Plan, env: Env) {
    && |p.chunks| == |p.sound|
    && HearsAll(Waiting([]), p.text, Waiting(p.shown), env)
    && HearsAll(Waiting(p.shown), p.begin, Filling(p.fields, [], p.shown), env)
    && (forall i :: 0 <= i < |p.sound| ==> HearsPiece(p, i, env))
    && HearsAll(Filling(p.fields, p.sound, p.shown), p.end, Over(OK, p.shown, Some(p.played)), env)
  }

  ghost predicate HearsPiece(p: Plan, i: nat, env: Env)
    requires i < |p.sound| == |p.chunks|
  {
    HearsAll(Filling(p.fields, p.sound[..i], p.shown), p.chunks[i], Filling(p.fields, p.sound[..i + 1], p.shown), env)
  }

  lemma PlanTaken(p: Plan, j: nat, m: Parties<Phase, Phone>, c: Script<Phase, Phone>, env: Env)
    requires HearsPlan(p, env) && PlaysDevice(m, env) && c.answers == PlanAnswers(p) && c.phases == PlanPhases(p)
    requires j < |p.sound| + 3
    ensures Takes(m, c, j)
  {
    if j == 1 {
      assert p.sound[..0] == [];
    } else if 2 <= j < |p.sound| + 2 {
      assert HearsPiece(p, j - 2, env);
    } else if j == |p.sound| + 2 {
      assert p.sound[..|p.sound|] == p.sound;
    }
    TakesWhole(m, c, j, env);
  }

  lemma TalkPlan(x: Talk, env: Env, p: Plan)
    requires GoodTurn(x, env) && p == PlanOf(x, env.hash)
    ensures HearsPlan(p, env)
  {
    AnswerHeardFirst(x, env, Waiting([]), p.text, Waiting(p.shown));
    BeginHeard(x, env, Waiting(p.shown), p.begin, Filling(p.fields, [], p.shown));
    forall i | 0 <= i < |p.sound| ensures HearsPiece(p, i, env) {
      ChunkHeard(x, i, env, p.fields, Filling(p.fields, p.sound[..i], p.shown), p.chunks[i],
                 Filling(p.fields, p.sound[..i + 1], p.shown));
    }
    EndHeard(x, env, p.fields, Filling(p.fields, p.sound, p.shown), p.end, Over(OK, p.shown, Some(p.played)));
  }

  // ---------- the turn with speech ----------

  function ScriptOf(x: Talk, hash: bytes -> string): Script<Phase, Phone>
    requires x.pcm.channels in {1, 2}
  {
    Script(Asked(x, hash), Answers(x, hash), FRESH, PlanPhases(PlanOf(x, hash)), true)
  }

  lemma TurnScripted(x: Talk, env: Env, c: Script<Phase, Phone>)
    requires GoodTurn(x, env) && c == ScriptOf(x, env.hash)
    ensures Scripted(Both(env), c) && Exchanged(c, CallOf(x), env) && |c.phases| == |c.answers| + 1 && c.answers != []
  {
    TurnExchanged(x, env, c);
    AllQuiet(x, env, c);
    TalkPlan(x, env, PlanOf(x, env.hash));
    AllTaken(PlanOf(x, env.hash), env, c);
    IsScript(c, CallOf(x), env, Both(env));
  }

  lemma AllTaken(p: Plan, env: Env, c: Script<Phase, Phone>)
    requires HearsPlan(p, env) && c.answers == PlanAnswers(p) && c.phases == PlanPhases(p)
    ensures |c.phases| == |c.answers| + 1 && c.answers != []
    ensures forall j :: 0 <= j < |c.phases| - 1 ==> Takes(Both(env), c, j)
  {
    BothPlay(env);
    forall j | 0 <= j < |c.phases| - 1 ensures Takes(Both(env), c, j) {
      PlanTaken(p, j, Both(env), c, env);
    }
  }

  /** The good end of a turn. */
  function GoodEnd(x: Talk): World<Phase, Phone>
    requires x.pcm.channels in {1, 2}
  {
    World(Reading(Over(OK, Shown(x.text), Some(Played16(x)))), [], [], Phone(Serving(None), [CallOf(x)]), [])
  }

  /** The turn over every schedule. Whatever the order of the steps and the cutting of both sides'
      writes: a run that cannot go on has ended well, with the answer heard, the phone's sound played,
      both streams drained, the phone ready again and one pipeline call on the captured bytes. No run
      is longer than a bound known at the start, so every run comes to that end. */
  lemma TurnCompletes(x: Talk, env: Env, ws: seq<World<Phase, Phone>>)
    requires GoodTurn(x, env) && TurnRun(x, env, ws)
    ensures Stuck(Both(env), Waiting([]), ws[|ws| - 1]) ==> ws[|ws| - 1] == GoodEnd(x)
    ensures |ws| <= 2 + |EncodeAll(Asked(x, env.hash))| + |Asked(x, env.hash)|
                    + |PlanPhases(PlanOf(x, env.hash))| + |EncodeAll(Answers(x, env.hash))|
  {
    var c := ScriptOf(x, env.hash);
    TurnScripted(x, env, c);
    RunOfScript(x, env, ws, c);
    RunCompletes(Both(env), c, ws);
    FinalIsGood(x, env, c, ws[|ws| - 1]);
  }

  lemma FinalIsGood(x: Talk, env: Env, c: Script<Phase, Phone>, w: World<Phase, Phone>)
    requires x.pcm.channels in {1, 2} && c.phases == PlanPhases(PlanOf(x, env.hash)) && c.drains
    requires Exchanged(c, CallOf(x), env)
    ensures Final(Both(env), c, w) ==> w == GoodEnd(x)
  {
  }

  // ---------- the turn that cannot end well ----------

  /** The device's phases when the answer or the announcement does not get through. */
  function BadPhases(fault: Option<Code>, shown: bytes): seq<Phase> {
    if fault.Some? then [Waiting([]), Over(fault.value, [], None)]
    else [Waiting([]), Waiting(shown), Over(IO, shown, None)]
  }

  function BadScript(x: Talk, hash: bytes -> string): Script<Phase, Phone> {
    Script(Asked(x, hash), Answers(x, hash), FRESH, BadPhases(AnswerFault(x.text), Shown(x.text)), false)
  }

  /** How a device stops that gets this fault with the first frame, or a bad announcement. */
  ghost predicate HearsBad(fault: Option<Code>, shown: bytes, first: Frame, second: Frame, env: Env) {
    if fault.Some? then HearsInto(Waiting([]), first, Over(fault.value, [], None), env)
    else
      && HearsAll(Waiting([]), first, Waiting(shown), env)
      && HearsInto(Waiting(shown), second, Over(IO, shown, None), env)
  }

  lemma BadHeard(x: Talk, env: Env, first: Frame, second: Frame)
    requires SpokenTurn(x, env) && !GetsThrough(x)
    requires first == Control(AiResponse(x.text)) && second == Control(BeginOf(x, env.hash))
    ensures HearsBad(AnswerFault(x.text), Shown(x.text), first, second, env)
  {
    if AnswerFault(x.text).Some? {
      FaultHeard(x, env, first, AnswerFault(x.text).value);
    } else {
      GoodAnswerHeard(x, env);
      BadBeginHeard(x, env, second);
    }
  }

  lemma BadTaken(c: Script<Phase, Phone>, fault: Option<Code>, shown: bytes, env: Env, m: Parties<Phase, Phone>)
    requires PlaysDevice(m, env) && c.phases == BadPhases(fault, shown) && |c.answers| > 2 && !c.drains
    requires HearsBad(fault, shown, c.answers[0], c.answers[1], env)
    ensures forall j :: 0 <= j < |c.phases| - 1 ==> Takes(m, c, j)
    ensures !m.listens(c.phases[|c.phases| - 1])
  {
    if fault.Some? {
      TakesLast(m, c, 0, env);
    } else {
      TakesWhole(m, c, 0, env);
      TakesLast(m, c, 1, env);
    }
  }

  lemma FirstAnswers(a: Frame, b: Frame, fs: seq<Frame>, all: seq<Frame>)
    requires all == [a, b] + fs && fs != []
    ensures |all| > 2 && all[0] == a && all[1] == b
  {
  }

  lemma BadScripted(x: Talk, env: Env, c: Script<Phase, Phone>)
    requires SpokenTurn(x, env) && !GetsThrough(x) && c == BadScript(x, env.hash)
    ensures Scripted(Both(env), c) && Exchanged(c, CallOf(x), env)
  {
    TurnExchanged(x, env, c);
    AllQuiet(x, env, c);
    var first, second := Control(AiResponse(x.text)), Control(BeginOf(x, env.hash));
    FirstAnswers(first, second, BodyFrames(x), c.answers);
    BadHeard(x, env, first, second);
    BothPlay(env);
    BadTaken(c, AnswerFault(x.text), Shown(x.text), env, Both(env));
    IsScript(c, CallOf(x), env, Both(env));
  }

  /** When the answer or the announcement cannot get through, every schedule comes to a halt with the
      device stopped by an error and nothing played, although the phone made its one call on the
      captured bytes and said everything. */
  lemma TurnFails(x: Talk, env: Env, ws: seq<World<Phase, Phone>>)
    requires SpokenTurn(x, env) && !GetsThrough(x) && TurnRun(x, env, ws)
    ensures Stuck(Both(env), Waiting([]), ws[|ws| - 1])
            ==> var w := ws[|ws| - 1];
                && w.side.Reading? && w.side.phase.Over? && w.side.phase.err in {IO, NO_MEM}
                && w.side.phase.sound == None && w.up == [] && w.pending == []
                && w.state == Phone(Serving(None), [CallOf(x)])
    ensures |ws| <= 5 + |EncodeAll(Asked(x, env.hash))| + |Asked(x, env.hash)| + |EncodeAll(Answers(x, env.hash))|
  {
    var c := BadScript(x, env.hash);
    BadScripted(x, env, c);
    RunOfScript(x, env, ws, c);
    RunCompletes(Both(env), c, ws);
    if Final(Both(env), c, ws[|ws| - 1]) {
      FinalIsBad(AnswerFault(x.text), Shown(x.text), CallOf(x), env, c, ws[|ws| - 1]);
    }
  }

  lemma FinalIsBad(fault: Option<Code>, shown: bytes, call: Call, env: Env, c: Script<Phase, Phone>,
                   w: World<Phase, Phone>)
    requires c.phases == BadPhases(fault, shown) && (fault.Some? ==> fault.value in {IO, NO_MEM})
    requires Exchanged(c, call, env) && Final(Both(env), c, w)
    ensures w.side.Reading? && w.side.phase.Over? && w.side.phase.err in {IO, NO_MEM} && w.side.phase.sound == None
    ensures w.up == [] && w.pending == [] && w.state == Phone(Serving(None), [call])
  {
  }

  /** So over every schedule: a turn that comes to a halt has ended well if and only if the answer
      fits and neither it nor the id can be taken for a looked-up key. */
  lemma TurnExactOverSchedules(x: Talk, env: Env, ws: seq<World<Phase, Phone>>)
    requires SpokenTurn(x, env) && TurnRun(x, env, ws) && Stuck(Both(env), Waiting([]), ws[|ws| - 1])
    ensures var w := ws[|ws| - 1];
            && w.side.Reading? && w.side.phase.Over?
            && (w.side.phase.err == OK <==> GetsThrough(x)) && (w == GoodEnd(x) <==> GetsThrough(x))
  {
    if GetsThrough(x) {
      TurnCompletes(x, env, ws);
    } else {
      TurnFails(x, env, ws);
    }
  }

  // ---------- the turn without speech ----------

  /** The pipeline answers with a text that fits a frame, but no speech was rendered. */
  ghost predicate SilentTurn(x: Talk, env: Env) {
    && Sane(env) && Askable(x, env.hash) && |Dumps(AiResponse(x.text))| <= MAX_FRAME_BYTES
    && env.pipeline(CallOf(x)) == Answer(x.text, None)
  }

  /** The device hears the lone answer and waits on, or stops at it. */
  function SilentPhases(fault: Option<Code>, shown: bytes): seq<Phase> {
    [Waiting([]), if fault.Some? then Over(fault.value, [], None) else Waiting(shown)]
  }

  function SilentScript(x: Talk, hash: bytes -> string): Script<Phase, Phone> {
    Script(Asked(x, hash), [Control(AiResponse(x.text))], FRESH, SilentPhases(AnswerFault(x.text), Shown(x.text)),
           AnswerFault(x.text) == None)
  }

  lemma SilentServed(x: Talk, env: Env)
    requires SilentTurn(x, env)
    ensures Serve(Events(Asked(x, env.hash)), env.pipeline, env.hash)
            == Effect(Serving(None), [Control(AiResponse(x.text))], [CallOf(x)])
  {
    UplinkLossless([], x.id, x.media, x.data, env.pipeline, env.hash);
    NoEventsBefore(Events(Asked(x, env.hash)));
    SilentAnswered(CallOf(x), x.text, [Control(AiResponse(x.text))], env);
  }

  lemma NoEventsBefore(es: seq<Event>)
    ensures [] + es == es
  {
  }

  lemma SilentAnswered(call: Call, text: string, fs: seq<Frame>, env: Env)
    requires fs == [Control(AiResponse(text))] && |Dumps(AiResponse(text))| <= MAX_FRAME_BYTES
    requires env.pipeline(call) == Answer(text, None)
    ensures After(Serve([], env.pipeline, env.hash), Answered(call, env.pipeline, env.hash))
            == Effect(Serving(None), fs, [call])
  {
    TextAlone(call, text, env.hash);
    AllDeliverable(fs);
    FirstAnswer(call, fs, env.pipeline, env.hash);
  }

  lemma TextAlone(call: Call, text: string, hash: bytes -> string)
    ensures Replies(call, Answer(text, None), hash) == [Control(AiResponse(text))]
  {
    var fs := [Control(AiResponse(text))];
    assert fs + [] == fs;
  }

  lemma SilentScripted(x: Talk, env: Env, c: Script<Phase, Phone>)
    requires SilentTurn(x, env) && c == SilentScript(x, env.hash)
    ensures Scripted(Both(env), c) && Exchanged(c, CallOf(x), env)
  {
    SilentExchanged(x, env, c);
    AllQuiet(x, env, c);
    BothPlay(env);
    AloneHeard(x, env, Control(AiResponse(x.text)));
    AloneTaken(c, AnswerFault(x.text), Shown(x.text), Control(AiResponse(x.text)), env, Both(env));
    IsScript(c, CallOf(x), env, Both(env));
  }

  lemma SilentExchanged(x: Talk, env: Env, c: Script<Phase, Phone>)
    requires SilentTurn(x, env) && c.asked == Asked(x, env.hash) && c.start == FRESH
    requires c.answers == [Control(AiResponse(x.text))]
    ensures Exchanged(c, CallOf(x), env)
  {
    AskedSendable(x, env.hash);
    SilentServed(x, env);
    ExchangedBy(c, CallOf(x), env);
  }

  lemma ExchangedBy(c: Script<Phase, Phone>, call: Call, env: Env)
    requires (forall f <- c.asked :: Sendable(f)) && (forall f <- c.answers :: Sendable(f)) && c.start == FRESH
    requires Serve(Events(c.asked), env.pipeline, env.hash) == Effect(Serving(None), c.answers, [call])
    ensures Exchanged(c, call, env)
  {
    SaidIsServed(c.asked, env);
  }

  /** What the device does with the lone answer. */
  ghost predicate HearsAlone(fault: Option<Code>, shown: bytes, f: Frame, env: Env) {
    if fault.Some? then HearsInto(Waiting([]), f, Over(fault.value, [], None), env)
    else HearsAll(Waiting([]), f, Waiting(shown), env)
  }

  lemma AloneHeard(x: Talk, env: Env, f: Frame)
    requires |Dumps(AiResponse(x.text))| <= MAX_FRAME_BYTES && f == Control(AiResponse(x.text))
    ensures HearsAlone(AnswerFault(x.text), Shown(x.text), f, env)
  {
    if AnswerFault(x.text).Some? {
      FaultHeard(x, env, f, AnswerFault(x.text).value);
    } else {
      GoodAnswerHeard(x, env);
    }
  }

  lemma AloneTaken(c: Script<Phase, Phone>, fault: Option<Code>, shown: bytes, f: Frame, env: Env,
                   m: Parties<Phase, Phone>)
    requires PlaysDevice(m, env) && HearsAlone(fault, shown, f, env)
    requires c.answers == [f] && c.drains == (fault == None) && c.phases == SilentPhases(fault, shown)
    ensures forall j :: 0 <= j < |c.phases| - 1 ==> Takes(m, c, j)
    ensures !c.drains ==> !m.listens(c.phases[|c.phases| - 1])
  {
    if fault.Some? {
      TakesLast(m, c, 0, env);
    } else {
      TakesWhole(m, c, 0, env);
    }
  }

  /** An answer that gets through ends nothing without speech: every schedule comes to a halt with the
      device still waiting, the answer heard, and nothing more under way. */
  lemma SilentTurnWaits(x: Talk, env: Env, ws: seq<World<Phase, Phone>>)
    requires SilentTurn(x, env) && AnswerFault(x.text) == None && TurnRun(x, env, ws)
    ensures Stuck(Both(env), Waiting([]), ws[|ws| - 1])
            ==> ws[|ws| - 1] == World(Reading(Waiting(Shown(x.text))), [], [],
                                      Phone(Serving(None), [CallOf(x)]), [])
    ensures |ws| <= 4 + |EncodeAll(Asked(x, env.hash))| + |Asked(x, env.hash)| + |Encode(Control(AiResponse(x.text)))|
  {
    var c := SilentScript(x, env.hash);
    SilentScripted(x, env, c);
    RunOfScript(x, env, ws, c);
    RunCompletes(Both(env), c, ws);
    EncodeAllOne(Control(AiResponse(x.text)));
  }

  /** An answer that does not get through ends the turn also without speech: every schedule comes to a
      halt with the device stopped by the fault, the call made and everything said. */
  lemma SilentTurnFails(x: Talk, env: Env, ws: seq<World<Phase, Phone>>)
    requires SilentTurn(x, env) && AnswerFault(x.text).Some? && TurnRun(x, env, ws)
    ensures Stuck(Both(env), Waiting([]), ws[|ws| - 1])
            ==> var w := ws[|ws| - 1];
                && w.side == Reading(Over(AnswerFault(x.text).value, [], None))
                && w.up == [] && w.pending == [] && w.state == Phone(Serving(None), [CallOf(x)])
    ensures |ws| <= 4 + |EncodeAll(Asked(x, env.hash))| + |Asked(x, env.hash)| + |Encode(Control(AiResponse(x.text)))|
  {
    var c := SilentScript(x, env.hash);
    SilentScripted(x, env, c);
    RunOfScript(x, env, ws, c);
    RunCompletes(Both(env), c, ws);
    EncodeAllOne(Control(AiResponse(x.text)));
  }

  // ---------- every turn ----------

  /** With speech or without. */
  ghost predicate AnyTurn(x: Talk, env: Env) {
    SpokenTurn(x, env) || SilentTurn(x, env)
  }

  predicate HasSpeech(x: Talk, env: Env) { env.pipeline(CallOf(x)).wav.Some? }

  /** How the device ends, if it does. */
  function Ending(x: Talk, speech: bool): Option<Phase>
    requires speech ==> x.pcm.channels in {1, 2}
  {
    if AnswerFault(x.text).Some? then Some(Over(AnswerFault(x.text).value, [], None))
    else if !speech then None
    else if GetsThrough(x) then Some(Over(OK, Shown(x.text), Some(Played16(x))))
    else Some(Over(IO, Shown(x.text), None))
  }

  /** Where the device is when all is over: at that ending, or waiting with the answer. */
  function LastPhase(x: Talk, speech: bool): Phase
    requires speech ==> x.pcm.channels in {1, 2}
  {
    match Ending(x, speech)
    case Some(end) => end
    case None => Waiting(Shown(x.text))
  }

  lemma StopsWhen(x: Talk, speech: bool)
    requires speech ==> x.pcm.channels in {1, 2}
    ensures !Receives(LastPhase(x, speech)) <==> speech || AnswerFault(x.text).Some?
    ensures !Receives(LastPhase(x, speech)) ==> Ending(x, speech) == Some(LastPhase(x, speech))
    ensures Ending(x, speech).Some? ==> Ending(x, speech).value.Over?
  {
  }

  /** A script of that request, that call and that last phase. */
  ghost predicate LeadsTo(c: Script<Phase, Phone>, asked: seq<Frame>, call: Call, last: Phase, env: Env) {
    && Scripted(Both(env), c) && Exchanged(c, call, env) && c.answers != [] && c.asked == asked && c.start == FRESH
    && |c.phases| > 1 && c.phases[0] == Waiting([]) && c.phases[|c.phases| - 1] == last
  }

  lemma SilentLeads(x: Talk, env: Env) returns (c: Script<Phase, Phone>)
    requires SilentTurn(x, env)
    ensures LeadsTo(c, Asked(x, env.hash), CallOf(x), LastPhase(x, false), env)
  {
    c := SilentScript(x, env.hash);
    SilentScripted(x, env, c);
  }

  lemma GoodLeads(x: Talk, env: Env) returns (c: Script<Phase, Phone>)
    requires GoodTurn(x, env)
    ensures x.pcm.channels in {1, 2} && LeadsTo(c, Asked(x, env.hash), CallOf(x), LastPhase(x, true), env)
  {
    c := ScriptOf(x, env.hash);
    TurnScripted(x, env, c);
    PlanLeads(c, PlanOf(x, env.hash), CallOf(x), env);
    EndsWell(x);
  }

  lemma PlanLeads(c: Script<Phase, Phone>, p: Plan, call: Call, env: Env)
    requires c.phases == PlanPhases(p) && c.answers != [] && c.start == FRESH
    requires Scripted(Both(env), c) && Exchanged(c, call, env)
    ensures LeadsTo(c, c.asked, call, Over(OK, p.shown, Some(p.played)), env)
  {
    PlanEnds(p, c.phases);
  }

  lemma PlanEnds(p: Plan, ps: seq<Phase>)
    requires ps == PlanPhases(p)
    ensures |ps| > 1 && ps[0] == Waiting([]) && ps[|ps| - 1] == Over(OK, p.shown, Some(p.played))
  {
  }

  lemma EndsWell(x: Talk)
    requires GetsThrough(x) && x.pcm.channels in {1, 2}
    ensures LastPhase(x, true) == Over(OK, Shown(x.text), Some(Played16(x)))
  {
  }

  lemma BadLeads(x: Talk, env: Env) returns (c: Script<Phase, Phone>)
    requires SpokenTurn(x, env) && !GetsThrough(x)
    ensures x.pcm.channels in {1, 2} && LeadsTo(c, Asked(x, env.hash), CallOf(x), LastPhase(x, true), env)
  {
    c := BadScript(x, env.hash);
    BadScripted(x, env, c);
  }

  lemma AnyLeads(x: Talk, env: Env) returns (c: Script<Phase, Phone>)
    requires AnyTurn(x, env)
    ensures HasSpeech(x, env) ==> x.pcm.channels in {1, 2}
    ensures LeadsTo(c, Asked(x, env.hash), CallOf(x), LastPhase(x, HasSpeech(x, env)), env)
  {
    if SilentTurn(x, env) {
      c := SilentLeads(x, env);
    } else if GetsThrough(x) {
      c := GoodLeads(x, env);
    } else {
      c := BadLeads(x, env);
    }
  }

  lemma LeadsOn(x: Talk, env: Env, ws: seq<World<Phase, Phone>>, c: Script<Phase, Phone>, last: Phase)
    requires LeadsTo(c, Asked(x, env.hash), CallOf(x), last, env) && TurnRun(x, env, ws)
    ensures IsRun(Both(env), c, ws)
    ensures Stuck(Both(env), Waiting([]), ws[|ws| - 1])
            ==> var w := ws[|ws| - 1];
                && w.side == Reading(last) && w.up == [] && w.pending == []
                && w.state == Phone(Serving(None), [CallOf(x)])
  {
    RunOfScript(x, env, ws, c);
    RunCompletes(Both(env), c, ws);
  }

  lemma LeadsSafely(x: Talk, env: Env, ws: seq<World<Phase, Phone>>, c: Script<Phase, Phone>, last: Phase, i: nat)
    requires LeadsTo(c, Asked(x, env.hash), CallOf(x), last, env) && TurnRun(x, env, ws) && i < |ws|
    ensures ws[i].state.calls <= [CallOf(x)] && ws[i].state.state.Serving?
    ensures ws[i].side.Reading? && !Receives(ws[i].side.phase)
            ==> ws[i].side.phase == last && ws[i].state == Phone(Serving(None), [CallOf(x)])
  {
    RunOfScript(x, env, ws, c);
    var k := RunIsSafe(Both(env), c, ws, i);
    CallsSoFar(c, CallOf(x), k, env);
    assert c.asked[..|c.asked|] == c.asked;
  }

  /** When a turn ends: over every schedule, a turn that comes to a halt has ended if and only if
      speech was rendered or the answer does not get through. Then it has ended as `Ending` says;
      otherwise the device waits, with the answer heard. */
  lemma TurnEndsExact(x: Talk, env: Env, ws: seq<World<Phase, Phone>>)
    requires AnyTurn(x, env) && TurnRun(x, env, ws) && Stuck(Both(env), Waiting([]), ws[|ws| - 1])
    ensures HasSpeech(x, env) ==> x.pcm.channels in {1, 2}
    ensures var w := ws[|ws| - 1];
            && w.side == Reading(LastPhase(x, HasSpeech(x, env)))
            && (!Receives(w.side.phase) <==> HasSpeech(x, env) || AnswerFault(x.text).Some?)
            && w.up == [] && w.pending == [] && w.state == Phone(Serving(None), [CallOf(x)])
  {
    var c := AnyLeads(x, env);
    LeadsOn(x, env, ws, c, LastPhase(x, HasSpeech(x, env)));
    StopsWhen(x, HasSpeech(x, env));
  }

  /** Safety on the way, over every schedule: the pipeline is never called on anything but the captured
      bytes, nor twice, and the phone stays up. */
  lemma TurnIsSafe(x: Talk, env: Env, ws: seq<World<Phase, Phone>>, i: nat)
    requires AnyTurn(x, env) && TurnRun(x, env, ws) && i < |ws|
    ensures ws[i].state.calls <= [CallOf(x)] && ws[i].state.state.Serving?
  {
    var c := AnyLeads(x, env);
    LeadsSafely(x, env, ws, c, LastPhase(x, HasSpeech(x, env)), i);
  }

  /** The device never reaches undefined behaviour. It stops only as `Ending` says and not before the
      call was made; and when everything gets through, not before everything was said and read. */
  lemma TurnEndsOnlySo(x: Talk, env: Env, ws: seq<World<Phase, Phone>>, i: nat)
    requires AnyTurn(x, env) && TurnRun(x, env, ws) && i < |ws|
    requires ws[i].side.Reading? && !Receives(ws[i].side.phase)
    ensures HasSpeech(x, env) ==> x.pcm.channels in {1, 2}
    ensures Ending(x, HasSpeech(x, env)) == Some(ws[i].side.phase) && ws[i].side.phase.Over?
    ensures ws[i].state == Phone(Serving(None), [CallOf(x)])
    ensures GoodTurn(x, env) ==> ws[i] == GoodEnd(x)
  {
    var c := AnyLeads(x, env);
    LeadsSafely(x, env, ws, c, LastPhase(x, HasSpeech(x, env)), i);
    StopsWhen(x, HasSpeech(x, env));
    if GoodTurn(x, env) {
      GoodStop(x, env, ws, i);
    }
  }

  lemma GoodStop(x: Talk, env: Env, ws: seq<World<Phase, Phone>>, i: nat)
    requires GoodTurn(x, env) && TurnRun(x, env, ws) && i < |ws|
    requires ws[i].side.Reading? && !Receives(ws[i].side.phase)
    ensures ws[i] == GoodEnd(x)
  {
    var c := ScriptOf(x, env.hash);
    TurnScripted(x, env, c);
    RunOfScript(x, env, ws, c);
    var k := RunIsSafe(Both(env), c, ws, i);
    FinalIsGood(x, env, c, ws[i]);
  }

  lemma CallsSoFar(c: Script<Phase, Phone>, call: Call, k: nat, env: Env)
    requires Exchanged(c, call, env) && c.start == FRESH && k <= |c.asked|
    ensures var p := Said(Both(env), FRESH, c.asked[..k]).0; p.calls <= [call] && p.state.Serving?
  {
    SaidIsServed(c.asked, env);
    SaidIsServed(c.asked[..k], env);
    ServedSoFar(c.asked, k, env);
  }

  lemma ServedFront(a: seq<Event>, b: seq<Event>, es: seq<Event>, env: Env)
    requires es == a + b
    ensures var e, all := Serve(a, env.pipeline, env.hash), Serve(es, env.pipeline, env.hash);
            e.calls <= all.calls && (all.next.Serving? ==> e.next.Serving?)
  {
    ServeGrows(a, b, env.pipeline, env.hash);
  }

  lemma ServedSoFar(fs: seq<Frame>, k: nat, env: Env)
    requires k <= |fs|
    ensures var e, all := Serve(Events(fs[..k]), env.pipeline, env.hash), Serve(Events(fs), env.pipeline, env.hash);
            e.calls <= all.calls && (all.next.Serving? ==> e.next.Serving?)
  {
    EventsSplit(fs, k);
    ServedFront(Events(fs[..k]), Events(fs[k..]), Events(fs), env);
  }
}
