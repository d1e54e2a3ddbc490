/** Device and phone taken frame by frame, and that this is what their loops do. */
module Stepwise {
  import opened Bytes
  import opened Framing
  import opened Chunks
  import opened Cover
  import opened AudioReceiver
  import opened Server
  import opened Uplink
  import opened Inbox
  import opened Device
  import opened Hex
  import opened Schedule

  /** Where the device is once it has sent its picture: waiting for a control message, filling the
      sound buffer, or done with this outcome and what it played. `Lost` is undefined behaviour. */
  datatype Phase =
    | Waiting(response: bytes)
    | Filling(fields: Fields, chunks: seq<Chunk>, response: bytes)
    | Over(err: Code, response: bytes, sound: Option<Played>)
    | Lost

  /** The phone: its state, and the pipeline calls it made. */
  datatype Phone = Phone(state: State, calls: seq<Call>)

  /** What stays fixed: the pipeline, the hash, one more than the largest size_t, what a fresh buffer
      of each size happens to contain, and what the audio driver reports for a rate and a number of
      channels. */
  datatype Env = Env(pipeline: Pipeline, hash: bytes -> string, wrap: nat, heap: nat -> bytes,
                     driver: (nat, nat) -> Code)

  ghost predicate Sane(env: Env) {
    && env.wrap >= TWO32 && HexDigest(env.hash) && (forall n: nat :: |env.heap(n)| == n)
    && forall rate: nat, channels: nat :: env.driver(rate, channels) == OK ==> rate > 0 && channels > 0
  }

  predicate Receives(phase: Phase) { phase.Waiting? || phase.Filling? }

  /** The device receives once from the stream `s`. */
  function Hear(phase: Phase, s: bytes, env: Env): (r: (Phase, bytes))
    ensures Receives(phase) && Receives(r.0) ==> |r.1| < |s|
  {
    match phase
    case Waiting(response) => HearControl(response, s)
    case Filling(f, cs, response) =>
      if |cs| < f.chunks then HearChunk(f, cs, response, s) else HearEnd(f, cs, response, s, env)
    case _ => (phase, s)
  }

  function HearControl(response: bytes, s: bytes): (r: (Phase, bytes))
    ensures Receives(r.0) ==> |r.1| < |s|
  {
    match Receive(s, TEXT_CAP)
    case Err(code) => (Over(code, response, None), s)
    case Ok((m, rest)) =>
      match React(m, response)
      case GoOn(text) => (Waiting(text), rest)
      case Stop(Speech(begin)) =>
        (match Playable(begin)
         case None => (Over(IO, response, None), rest)
         case Some(f) => (Filling(f, [], response), rest))
      case Stop(Finished) => (Over(OK, response, None), rest)
      case Stop(Undefined) => (Lost, rest)
      case Stop(_) => (Over(IO, response, None), rest)
  }

  function HearChunk(f: Fields, cs: seq<Chunk>, response: bytes, s: bytes): (r: (Phase, bytes))
    ensures Receives(r.0) ==> |r.1| < |s|
  {
    match NextChunk(s, f.size)
    case Err(code) => (Over(code, response, None), s)
    case Ok((c, rest)) => (Filling(f, cs + [c], response), rest)
  }

  /** The end of the body, and playing it. */
  function HearEnd(f: Fields, cs: seq<Chunk>, response: bytes, s: bytes, env: Env): (r: (Phase, bytes))
    ensures !Receives(r.0)
  {
    var junk := env.heap(f.size);
    if !AllInRange(cs, |junk|) || |junk| != f.size || f.channels >= TWO32 || env.wrap == 0 then (Lost, s)
    else match BodyEnd(cs, s, f.size, f.sha, junk, env.wrap, env.hash)
      case Err(code) => (Over(code, response, None), s)
      case Ok((pcm, rest)) =>
        var code := env.driver(f.rate, f.channels % 256);
        if code != OK || f.channels % 256 == 0 || |pcm| != f.size then (Over(code, response, None), rest)
        else (Over(OK, response, Some(Audible(f, pcm))), rest)
  }

  function PhoneTakes(p: Phone, f: Frame, env: Env): (Phone, seq<Frame>) {
    match p.state
    case Closed => (p, [])
    case Serving(transfer) =>
      var e := OnEvent(transfer, EventOf(f), env.pipeline, env.hash);
      (Phone(e.next, p.calls + e.calls), e.replies)
  }

  /** Device and phone. */
  function Both(env: Env): Parties<Phase, Phone> {
    Parties((p: Phase) => Receives(p), (p: Phase, s: bytes) => Hear(p, s, env),
            (p: Phone) => p.state.Serving?, (p: Phone, f: Frame) => PhoneTakes(p, f, env))
  }

  const FRESH: Phone := Phone(Serving(None), [])

  /** What the phone says frame by frame is what `Serve` says of all the frames. */
  lemma {:induction false} SaidIsServed(fs: seq<Frame>, env: Env)
    ensures var e := Serve(Events(fs), env.pipeline, env.hash);
            Said(Both(env), FRESH, fs) == (Phone(e.next, e.calls), e.replies)
  {
    if fs == [] {
      NothingServed(env);
    } else {
      SaidIsServed(fs[..|fs| - 1], env);
      SaidStep(fs[..|fs| - 1], fs[|fs| - 1], env);
      LastSplit(fs);
    }
  }

  lemma NothingServed(env: Env)
    ensures Serve(Events([]), env.pipeline, env.hash) == Effect(Serving(None), [], [])
  {
  }

  lemma LastSplit(fs: seq<Frame>)
    requires fs != []
    ensures fs[..|fs| - 1] + [fs[|fs| - 1]] == fs
  {
  }

  lemma SaidStep(init: seq<Frame>, f: Frame, env: Env)
    requires var e := Serve(Events(init), env.pipeline, env.hash);
             Said(Both(env), FRESH, init) == (Phone(e.next, e.calls), e.replies)
    ensures var e := Serve(Events(init + [f]), env.pipeline, env.hash);
            Said(Both(env), FRESH, init + [f]) == (Phone(e.next, e.calls), e.replies)
  {
    LastEvent(init, f);
    TakenIsServed(Events(init), f, env);
    SaidMore(init, f, env);
  }

  lemma LastEvent(init: seq<Frame>, f: Frame)
    ensures Events(init + [f]) == Events(init) + [EventOf(f)]
  {
    assert (init + [f])[..|init|] == init;
  }

  lemma TakenIsServed(es: seq<Event>, f: Frame, env: Env)
    ensures var e, after := Serve(es, env.pipeline, env.hash), Serve(es + [EventOf(f)], env.pipeline, env.hash);
            var (p, more) := PhoneTakes(Phone(e.next, e.calls), f, env);
            p == Phone(after.next, after.calls) && e.replies + more == after.replies
  {
    ServeStep(es, EventOf(f), env.pipeline, env.hash);
    var e := Serve(es, env.pipeline, env.hash);
    assert e.replies + [] == e.replies;
  }

  lemma SaidMore(init: seq<Frame>, f: Frame, env: Env)
    ensures var (p, said) := Said(Both(env), FRESH, init);
            var (p', more) := PhoneTakes(p, f, env);
            Said(Both(env), FRESH, init + [f]) == (p', said + more)
  {
    assert (init + [f])[..|init|] == init;
  }

  lemma EventsUpTo(fs: seq<Frame>, k: nat)
    requires k <= |fs|
    ensures Events(fs[..k]) == Events(fs)[..k]
  {
    EventsSplit(fs, k);
    FrontOf(Events(fs[..k]), Events(fs[k..]));
  }

  lemma EventsSplit(fs: seq<Frame>, k: nat)
    requires k <= |fs|
    ensures Events(fs) == Events(fs[..k]) + Events(fs[k..])
  {
    SplitFrames(fs, k);
    EventsOfSum(fs[..k], fs[k..], fs);
  }

  lemma SplitFrames(fs: seq<Frame>, k: nat)
    requires k <= |fs|
    ensures fs == fs[..k] + fs[k..]
  {
  }

  lemma EventsOfSum(a: seq<Frame>, b: seq<Frame>, fs: seq<Frame>)
    requires fs == a + b
    ensures Events(fs) == Events(a) + Events(b)
  {
    EventsAppend(a, b);
  }

  lemma FrontOf(a: seq<Event>, b: seq<Event>)
    ensures (a + b)[..|a|] == a
  {
  }

  // ---------- the device, frame by frame, is the device ----------

  /** Receive until there is nothing more to receive. */
  function Iterate(phase: Phase, s: bytes, env: Env): (Phase, bytes)
    decreases if Receives(phase) then |s| + 1 else 0
  {
    if !Receives(phase) then (phase, s)
    else
      var r := Hear(phase, s, env);
      Iterate(r.0, r.1, env)
  }

  /** What playing the received body comes to. */
  function BodyEnding(f: Fields, response: bytes, pcm: bytes, env: Env): Phase
    requires f.channels < TWO32
  {
    var code := env.driver(f.rate, f.channels % 256);
    if code != OK || f.channels % 256 == 0 || |pcm| != f.size then Over(code, response, None)
    else Over(OK, response, Some(Audible(f, pcm)))
  }

  /** The whole body that a stream `s` holds for the device. */
  function Body(f: Fields, s: bytes, env: Env): Result<(bytes, bytes), Code>
    requires env.wrap > 0
  {
    AudioBody(s, f.chunks, f.size, f.sha, env.heap(f.size), env.wrap, env.hash)
  }

  /** Receiving ended as the body receiver says. */
  ghost predicate EndsAs(r: (Phase, bytes), f: Fields, response: bytes, body: Result<(bytes, bytes), Code>, env: Env)
    requires f.channels < TWO32
  {
    match body
    case Err(code) => r.0 == Over(code, response, None)
    case Ok((pcm, rest)) => r == (BodyEnding(f, response, pcm, env), rest)
  }

  lemma {:induction false} IterateBody(f: Fields, response: bytes, s: bytes, cs: seq<Chunk>, rest: bytes, env: Env)
    requires Sane(env) && f.channels < TWO32 && |cs| <= f.chunks
    requires ReadChunks(s, |cs|, f.size) == Ok((cs, rest))
    ensures EndsAs(Iterate(Filling(f, cs, response), rest, env), f, response, Body(f, s, env), env)
    decreases f.chunks - |cs|
  {
    if |cs| == f.chunks {
      IterateEnd(f, response, s, cs, rest, env);
    } else {
      var next := NextChunk(rest, f.size);
      IterateChunk(f, response, cs, rest, env);
      if next.Ok? {
        MoreChunks(s, cs, rest, f.size);
        IterateBody(f, response, s, cs + [next.value.0], next.value.1, env);
      } else {
        BodyBroken(f, s, cs, rest, env);
      }
    }
  }

  lemma MoreChunks(s: bytes, cs: seq<Chunk>, rest: bytes, size: nat)
    requires ReadChunks(s, |cs|, size) == Ok((cs, rest)) && NextChunk(rest, size).Ok?
    ensures var (c, end) := NextChunk(rest, size).value;
            ReadChunks(s, |cs| + 1, size) == Ok((cs + [c], end)) && |cs + [c]| == |cs| + 1
  {
  }

  lemma BodyBroken(f: Fields, s: bytes, cs: seq<Chunk>, rest: bytes, env: Env)
    requires Sane(env) && |cs| < f.chunks && ReadChunks(s, |cs|, f.size) == Ok((cs, rest))
    requires NextChunk(rest, f.size).Err?
    ensures Body(f, s, env) == Err(NextChunk(rest, f.size).error)
  {
    ChunkErrorIsFinal(s, |cs|, f.chunks, f.size, cs, rest);
  }

  lemma IterateChunk(f: Fields, response: bytes, cs: seq<Chunk>, rest: bytes, env: Env)
    requires |cs| < f.chunks
    ensures var next := NextChunk(rest, f.size);
            Iterate(Filling(f, cs, response), rest, env)
            == if next.Err? then (Over(next.error, response, None), rest)
               else Iterate(Filling(f, cs + [next.value.0], response), next.value.1, env)
  {
  }

  lemma IterateEnd(f: Fields, response: bytes, s: bytes, cs: seq<Chunk>, rest: bytes, env: Env)
    requires Sane(env) && f.channels < TWO32 && |cs| == f.chunks
    requires ReadChunks(s, |cs|, f.size) == Ok((cs, rest))
    ensures EndsAs(Iterate(Filling(f, cs, response), rest, env), f, response, Body(f, s, env), env)
  {
  }

  /** How the wait ends and what then follows. */
  ghost predicate Ends(r: (Phase, bytes), turn: Turn, env: Env)
    requires Sane(env)
  {
    match turn.how
    case Broken(code) => r == (Over(code, turn.response, None), turn.rest)
    case Finished => r == (Over(OK, turn.response, None), turn.rest)
    case Refused => r == (Over(IO, turn.response, None), turn.rest)
    case Undefined => r == (Lost, turn.rest)
    case Speech(begin) =>
      match Playable(begin)
      case None => r == (Over(IO, turn.response, None), turn.rest)
      case Some(f) => EndsAs(r, f, turn.response, Body(f, turn.rest, env), env)
  }

  /** For every stream: receiving frame by frame until there is nothing more to receive comes to
      what the reply loop, the announcement's fields and the body receiver together determine. */
  lemma {:induction false} IterateListens(s: bytes, response: bytes, env: Env)
    requires Sane(env) && 0 !in response
    ensures Ends(Iterate(Waiting(response), s, env), Listen(s, response), env)
    decreases |s|
  {
    var r := Receive(s, TEXT_CAP);
    if r.Ok? {
      var (m, rest) := r.value;
      match React(m, response)
      case GoOn(text) => IterateListens(rest, text, env);
      case Stop(Speech(begin)) =>
        if Playable(begin).Some? {
          IterateBody(Playable(begin).value, response, rest, [], rest, env);
        }
      case Stop(_) =>
    }
  }

  /** So the device taken frame by frame is the device that runs the turn: if it handled the replies
      of `s` as `RunUplink` promises, with the fresh buffer and the driver behaving as in `env`, then
      error, answer, sound and stream are those of the frame-by-frame device. */
  lemma StepwiseIsDevice(s: bytes, env: Env, err: Code, rest: bytes, works: bool, was: seq<Played>,
                         played: seq<Played>, junk: bytes, out: bytes)
    requires Sane(env)
    requires var turn := Listen(s, []);
             && RepliesHandled(turn, err, true, rest, works, was, played, junk, env.wrap, env.hash, out)
             && (turn.how.Speech? && Playable(turn.how.begin).Some? ==>
                   var f := Playable(turn.how.begin).value;
                   && junk == env.heap(f.size)
                   && (Body(f, turn.rest, env).Ok? ==> err == env.driver(f.rate, f.channels % 256)))
    ensures var (phase, left) := Iterate(Waiting([]), s, env);
            && (phase.Over? || phase.Lost?) && (phase.Lost? <==> Listen(s, []).how == Undefined)
            && (phase.Over? ==>
                  && err == phase.err && Gives(out, phase.response)
                  && played == was + (if phase.sound.Some? then [phase.sound.value] else [])
                  && (err == OK ==> rest == left))
  {
    IterateListens(s, [], env);
    assert was + [] == was;
  }
}
