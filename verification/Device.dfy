/** The firmware's turn: send a picture, read replies, play the answer. */
module Device {
  import opened Bytes
  import opened Framing
  import opened Transport
  import opened JsonReader
  import opened AudioReceiver
  import opened Uplink
  import opened Inbox
  import opened Timing

  // ---------- playing a downlink ----------

  const SHA_CAP: nat := 65

  datatype Fields = Fields(size: nat, chunks: nat, rate: nat, channels: nat, sha: bytes)

  /** The fields the firmware needs from an audio_begin, each looked up by its key. */
  function ReadFields(begin: bytes): (r: Option<Fields>)
    ensures r.Some? ==> r.value.size < TWO32 && r.value.channels < TWO32
  {
    match (GetUintResult(begin, Ascii("size")), GetUintResult(begin, Ascii("chunks")),
           GetUintResult(begin, Ascii("sample_rate")), GetUintResult(begin, Ascii("channels")))
    case (Some(size), Some(chunks), Some(rate), Some(channels)) =>
      var sha := GetStringResult(begin, Ascii("sha256"), SHA_CAP);
      if sha.ok then Some(Fields(size, chunks, rate, channels, CText(sha.out))) else None
    case _ => None
  }

  /** Bytes of one frame of 16-bit samples, in 32-bit arithmetic. */
  function FrameBytes(channels: nat): nat { 2 * channels % TWO32 }

  /** Bytes in so many frames of 16-bit samples. */
  function SampleBytes(frames: nat, channels: nat): nat { frames * channels * 2 }

  /** The division by the frame size never divides by zero, and the frames handed to the audio
      driver, each as wide as the driver was told in 8 bits, lie within the buffer; even where the
      product or the narrowing wraps round. */
  lemma PlaybackBound(size: nat, channels: nat)
    requires channels < TWO32 && channels % 256 != 0
    ensures FrameBytes(channels) != 0
    ensures SampleBytes(size / FrameBytes(channels), channels % 256) <= size
  {
    WideEnough(channels);
    FramesFit(size, FrameBytes(channels), channels % 256);
  }

  lemma FramesFit(size: nat, d: nat, ch: nat)
    requires d > 0 && 2 * ch <= d
    ensures SampleBytes(size / d, ch) <= size
  {
    var q := size / d;
    QuotientTimes(size, d);
    MulLeft(q, 2 * ch, d);
    Doubled(q, ch);
  }

  lemma QuotientTimes(a: nat, d: nat)
    requires d > 0
    ensures a / d * d <= a
  {
    assert a == a / d * d + a % d;
  }

  lemma Doubled(q: nat, ch: nat)
    ensures SampleBytes(q, ch) == q * (2 * ch)
  {
  }

  lemma WideEnough(channels: nat)
    requires channels < TWO32
    ensures FrameBytes(channels) >= 2 * (channels % 256)
  {
    var a, ch := channels / 256, channels % 256;
    assert channels == 256 * a + ch;
    if 2 * channels < TWO32 {
      NoWrap(2 * channels, TWO32);
    } else {
      assert a >= 0x80_0000;
      DivModUnique(2 * channels, TWO32, 1, 512 * (a - 0x80_0000) + 2 * ch);
    }
  }

  lemma MulLeft(k: nat, a: nat, b: nat)
    requires a <= b
    ensures k * a <= k * b
  {
  }

  /** What was handed to the speaker: samples at a rate, interleaved in so many channels. */
  datatype Played = Played(rate: nat, channels: nat, samples: bytes)

  /** The audio driver. It refuses a zero rate or no channels and may refuse anything else; one
      that `works` plays mono and stereo. It reads two bytes per sample and no others. */
  class Speaker {
    const works: bool
    var rate: nat
    var channels: nat
    var played: seq<Played>

    constructor (works: bool)
      ensures this.works == works && played == []
    {
      this.works, rate, channels, played := works, 0, 0, [];
    }

    method Init(rate: nat, channels: nat) returns (err: Code)
      modifies this
      ensures played == old(played)
      ensures err == OK ==> rate > 0 && channels > 0 && this.rate == rate && this.channels == channels
      ensures works && rate > 0 && channels in {1, 2} ==> err == OK
    {
      if rate == 0 || channels == 0 {
        return INVALID;
      }
      if works && channels <= 2 {
        err := OK;
      } else {
        err := *;
      }
      this.rate, this.channels := rate, channels;
    }

    method Play(samples: array<byte>, frames: nat) returns (err: Code)
      requires SampleBytes(frames, channels) <= samples.Length
      modifies `played
      ensures err == OK ==> played == old(played) + [Played(rate, channels, samples[..SampleBytes(frames, channels)])]
      ensures err != OK ==> played == old(played)
      ensures works ==> err == OK
    {
      if works {
        err := OK;
      } else {
        err := *;
      }
      if err == OK {
        played := played + [Played(rate, channels, samples[..SampleBytes(frames, channels)])];
      }
    }
  }

  /** How many bytes of a buffer reach the speaker: whole frames only. */
  function AudibleBytes(size: nat, channels: nat): (n: nat)
    requires channels < TWO32 && channels % 256 != 0
    ensures n <= size
  {
    PlaybackBound(size, channels);
    SampleBytes(size / FrameBytes(channels), channels % 256)
  }

  function Audible(f: Fields, pcm: bytes): Played
    requires f.channels < TWO32 && f.channels % 256 != 0 && |pcm| == f.size
  {
    Played(f.rate, f.channels % 256, pcm[..AudibleBytes(f.size, f.channels)])
  }

  /** The fields as the firmware's code reads them. */
  method FetchFields(begin: bytes) returns (r: Option<Fields>)
    requires 0 !in begin
    ensures r == ReadFields(begin)
  {
    var size := GetUint(begin, Ascii("size"));
    if size == None {
      return None;
    }
    var chunks := GetUint(begin, Ascii("chunks"));
    if chunks == None {
      return None;
    }
    var rate := GetUint(begin, Ascii("sample_rate"));
    if rate == None {
      return None;
    }
    var channels := GetUint(begin, Ascii("channels"));
    if channels == None {
      return None;
    }
    var sha := new byte[SHA_CAP];
    ghost var was := sha[..];
    var err := GetString(begin, Ascii("sha256"), sha, SHA_CAP);
    if err != OK {
      return None;
    }
    ghost var out := GetStringResult(begin, Ascii("sha256"), SHA_CAP).out;
    StoredText(sha[..], was, out);
    TextIsPrefix(sha[..], CText(out));
    return Some(Fields(size.value, chunks.value, rate.value, channels.value, CStr(sha[..])));
  }

  /** Fields the firmware goes on with. */
  function Playable(begin: bytes): (r: Option<Fields>)
    ensures r.Some? ==> r.value.channels != 0
    ensures r.Some? ==> r.value.size < TWO32 && r.value.channels < TWO32
  {
    match ReadFields(begin)
    case None => None
    case Some(f) => if f.channels == 0 then None else Some(f)
  }

  /** Receive the body that an audio_begin announces and play it. `junk` is what the fresh buffer
      happened to contain. */
  method PlayAudioDownlink(t: Link, begin: bytes, speaker: Speaker, wrap: nat, hash: bytes -> string)
    returns (err: Code, ghost junk: bytes)
    requires 0 !in begin && wrap >= TWO32
    modifies t`incoming, speaker
    ensures Playable(begin) == None
            ==> err == IO && t.incoming == old(t.incoming) && speaker.played == old(speaker.played)
    ensures Playable(begin).Some? ==>
              var f := Playable(begin).value;
              |junk| == f.size
              && Heard(AudioBody(old(t.incoming), f.chunks, f.size, f.sha, junk, wrap, hash), f, err, t.reliable,
                       t.incoming, speaker.works, old(speaker.played), speaker.played)
  {
    junk := [];
    var fields := FetchFields(begin);
    if fields == None || fields.value.channels == 0 {
      return IO, [];
    }
    var f := fields.value;
    var pcm := new byte[f.size];
    junk := pcm[..];
    err := ReceiveAudioBody(t, f.chunks, f.size, f.sha, pcm, wrap, hash);
    if err != OK {
      return;
    }
    err := PlayPcm(pcm, f, speaker);
  }

  /** Set the driver up, the channel count narrowed to 8 bits, and hand it the whole frames. */
  method PlayPcm(pcm: array<byte>, f: Fields, speaker: Speaker) returns (err: Code)
    requires pcm.Length == f.size && f.channels < TWO32
    modifies speaker
    ensures err == OK ==> f.rate > 0 && f.channels % 256 > 0
                          && speaker.played == old(speaker.played) + [Audible(f, pcm[..])]
    ensures err != OK ==> speaker.played == old(speaker.played)
    ensures speaker.works && f.rate > 0 && f.channels % 256 in {1, 2} ==> err == OK
  {
    err := speaker.Init(f.rate, f.channels % 256);
    if err == OK {
      PlaybackBound(f.size, f.channels);
      err := speaker.Play(pcm, f.size / FrameBytes(f.channels));
    }
  }

  /** How a downlink ended, given what the stream held: the receiver's error and silence, or the
      whole body consumed and either all its whole frames played or an error from the driver. */
  ghost predicate Heard(body: Result<(bytes, bytes), Code>, f: Fields, err: Code, reliable: bool, rest: bytes,
                        works: bool, was: seq<Played>, played: seq<Played>)
    requires f.channels < TWO32
  {
    && (err == OK ==> body.Ok? && rest == body.value.1 && f.rate > 0 && f.channels % 256 > 0
                      && |body.value.0| == f.size && played == was + [Audible(f, body.value.0)])
    && (err != OK ==> played == was)
    && (err != OK && reliable && body.Err? ==> err == body.error)
    && (err != OK && reliable && body.Ok? ==> rest == body.value.1)
    && (reliable && works && f.rate > 0 && f.channels % 256 in {1, 2} && body.Ok? ==> err == OK)
  }

  // ---------- waiting for the end of the turn ----------

  const TEXT_CAP: nat := 1024

  /** How waiting for the phone ended: a receive error, an audio_begin and its text, a play_audio, an
      error reply, or the use of a text left without a terminator, after which nothing is certain. */
  datatype How = Broken(code: Code) | Speech(begin: bytes) | Finished | Refused | Undefined

  /** The end, the answer text last received before it, and the stream behind it. */
  datatype Turn = Turn(how: How, response: bytes, rest: bytes)

  /** What one message does to the wait: it goes on with this answer text, or it ends. */
  datatype Reaction = GoOn(response: bytes) | Stop(how: How)

  function React(m: Message, response: bytes): Reaction {
    match (m.what, m.text)
    case (AI_RESPONSE, Some(text)) => GoOn(text)
    case (AI_RESPONSE, None) => Stop(Undefined)
    case (AUDIO_BEGIN, Some(text)) => Stop(Speech(text))
    case (PLAY_AUDIO, _) => Stop(Finished)
    case (ERROR, Some(_)) => Stop(Refused)
    case (ERROR, None) => Stop(Undefined)
    case _ => GoOn(response)
  }

  /** What the device makes of a stream of replies. */
  function Listen(s: bytes, response: bytes): (t: Turn)
    requires 0 !in response
    ensures 0 !in t.response && (t.how.Speech? ==> 0 !in t.how.begin && |t.how.begin| < TEXT_CAP)
    ensures t.how.Broken? ==> t.how.code != OK
    decreases |s|
  {
    match Receive(s, TEXT_CAP)
    case Err(code) => Turn(Broken(code), response, s)
    case Ok((m, rest)) =>
      match React(m, response)
      case GoOn(text) => Listen(rest, text)
      case Stop(how) => Turn(how, response, rest)
  }

  /** The caller's buffer holds as much of the answer as fits, terminated; an empty buffer nothing. */
  ghost predicate Gives(out: bytes, response: bytes) {
    out == [] || HoldsText(out, response[..Min(|response|, |out| - 1)])
  }

  lemma TextBytes(buf: bytes, t: bytes)
    requires HoldsText(buf, t) && 0 !in t
    ensures forall k :: 0 <= k < |t| ==> buf[k] == t[k] && buf[k] != 0
    ensures buf[|t|] == 0
  {
    assert forall k :: 0 <= k < |t| ==> buf[..|t|][k] == buf[k];
  }

  method TextLength(text: array<byte>, ghost t: bytes) returns (n: nat)
    requires HoldsText(text[..], t) && 0 !in t
    ensures n == |t|
  {
    TextBytes(text[..], t);
    n := 0;
    while text[n] != 0
      invariant n <= |t|
      decreases |t| - n
    {
      n := n + 1;
    }
  }

  /** Hand the answer back to the application layer. */
  method CopyResponse(text: array<byte>, out: array<byte>, ghost t: bytes)
    requires HoldsText(text[..], t) && 0 !in t && text != out
    modifies out
    ensures Gives(out[..], t)
  {
    if out.Length == 0 {
      return;
    }
    var i := 0;
    TextBytes(text[..], t);
    while text[i] != 0 && i + 1 < out.Length
      invariant i <= |t| && i < out.Length
      invariant out[..i] == t[..i]
      decreases |t| - i
    {
      out[i] := text[i];
      i := i + 1;
    }
    out[i] := 0;
  }

  /** Waiting returned what the stream says. */
  ghost predicate Awaited(turn: Turn, err: Code, what: MsgType, rest: bytes, text: bytes) {
    match turn.how
    case Undefined => true
    case Broken(code) => err == code
    case Speech(begin) => err == OK && what == AUDIO_BEGIN && rest == turn.rest && HoldsText(text, begin)
    case Finished => err == OK && what == PLAY_AUDIO && rest == turn.rest
    case Refused => err == OK && what == ERROR && rest == turn.rest
  }

  /** So far the answer in `response` was handed out, and `s` is still to be heard. */
  ghost predicate Listening(s0: bytes, s: bytes, response: bytes, out: bytes, length: nat) {
    && 0 !in response
    && (Listen(s0, []).how != Undefined ==>
          Listen(s0, []) == Listen(s, response) && Gives(out, response) && length == |response|)
  }

  /** Read control replies until one ends the turn. */
  method Await(t: Link, text: array<byte>, out: array<byte>, m: Metrics) returns (err: Code, what: MsgType)
    requires text.Length == TEXT_CAP && text != out && Gives(out[..], []) && m.responseBytes == 0
    modifies t`incoming, text, out, m`responseBytes
    ensures t.reliable || err == OK ==>
              var turn := Listen(old(t.incoming), []);
              && Awaited(turn, err, what, t.incoming, text[..])
              && (turn.how != Undefined ==> Gives(out[..], turn.response) && m.responseBytes == |turn.response|)
  {
    ghost var s0: bytes, response: bytes := t.incoming, [];
    while true
      invariant Listening(s0, t.incoming, response, out[..], m.responseBytes)
      decreases |t.incoming|
    {
      ghost var s := t.incoming;
      err, what := MsgRecv(t, text);
      if err != OK {
        return;
      }
      ghost var message := Receive(s, TEXT_CAP).value.0;
      if what == AI_RESPONSE {
        if 0 !in text[..] {
          // the loops below would run off the buffer
          err := *;
          return;
        }
        ghost var shown := CStr(text[..]);
        if message.text.Some? {
          TextIsPrefix(text[..], message.text.value);
        }
        m.responseBytes := TextLength(text, shown);
        CopyResponse(text, out, shown);
        response := shown;
      } else if what == AUDIO_BEGIN || what == PLAY_AUDIO || what == ERROR {
        return;
      }
    }
  }

  // ---------- the turn ----------

  /** How a turn ended on a stream of replies. `played` grew from `was`; `junk` is what the buffer
      for the sound happened to contain. */
  ghost predicate TurnEnded(turn: Turn, err: Code, reliable: bool, rest: bytes, works: bool, was: seq<Played>,
                            played: seq<Played>, junk: bytes, wrap: nat, hash: bytes -> string)
    requires wrap > 0
  {
    match turn.how
    case Undefined => true
    case Broken(code) => err == code && played == was
    case Finished => err == OK && rest == turn.rest && played == was
    case Refused => err == IO && rest == turn.rest && played == was
    case Speech(begin) => SpeechEnded(begin, turn.rest, err, reliable, rest, works, was, played, junk, wrap, hash)
  }

  ghost predicate SpeechEnded(begin: bytes, s: bytes, err: Code, reliable: bool, rest: bytes, works: bool,
                              was: seq<Played>, played: seq<Played>, junk: bytes, wrap: nat, hash: bytes -> string)
    requires wrap > 0
  {
    match Playable(begin)
    case None => err == IO && rest == s && played == was
    case Some(f) =>
      && |junk| == f.size
      && Heard(AudioBody(s, f.chunks, f.size, f.sha, junk, wrap, hash), f, err, reliable, rest, works, was, played)
  }

  /** The part of the turn after the picture was sent. */
  method FinishTurn(t: Link, out: array<byte>, m: Metrics, clock: Clock, speaker: Speaker, wrap: nat,
                    hash: bytes -> string, start: nat, uploaded: nat)
    returns (err: Code, ghost junk: bytes)
    requires clock.Valid() && wrap >= TWO32 && Gives(out[..], []) && m.responseBytes == 0
    modifies t`incoming, out, m`responseBytes, m`response, m`total, clock, speaker
    ensures clock.Valid() && clock.Millis() >= old(clock.Millis())
    ensures t.reliable || err == OK ==>
              var turn := Listen(old(t.incoming), []);
              && RepliesHandled(turn, err, t.reliable, t.incoming, speaker.works, old(speaker.played),
                                speaker.played, junk, wrap, hash, out[..])
              && (err == OK && turn.how != Undefined
                  ==> m.response == Minus32(clock.Millis() % TWO32, uploaded)
                      && m.total == Minus32(clock.Millis() % TWO32, start)
                      && m.responseBytes == |turn.response|)
  {
    junk := [];
    var text := new byte[TEXT_CAP];
    ghost var s0 := t.incoming;
    var what;
    err, what := Await(t, text, out, m);
    if err != OK {
      return;
    }
    if what == AUDIO_BEGIN {
      var begin := CStr(text[..]);
      ghost var turn := Listen(s0, []);
      if turn.how.Speech? {
        TextIsPrefix(text[..], turn.how.begin);
      }
      err, junk := PlayAudioDownlink(t, begin, speaker, wrap, hash);
      m.Finalize(clock, start, uploaded);
    } else if what == PLAY_AUDIO {
      m.Finalize(clock, start, uploaded);
    } else {
      err := IO;
    }
  }

  /** What a device that has its picture `p` did: it wrote the frames of the picture, or a prefix of
      them, and if they went out it ended the turn as the stream `s` of replies says. */
  ghost predicate UplinkRan(p: Picture, s: bytes, sentBefore: bytes, sent: bytes, rest: bytes, err: Code,
                            reliable: bool, works: bool, was: seq<Played>, played: seq<Played>, junk: bytes,
                            wrap: nat, hash: bytes -> string, out: bytes)
    requires wrap > 0
  {
    var (fs, code) := SendOutcome(p, hash);
    && sentBefore <= sent <= sentBefore + EncodeAll(fs)
    && (reliable && code != OK ==> err == code && played == was)
    && (reliable || err == OK ==> sent == sentBefore + EncodeAll(fs))
    && (err == OK ==> code == OK)
    && (code == OK && (reliable || err == OK) ==>
          RepliesHandled(Listen(s, []), err, reliable, rest, works, was, played, junk, wrap, hash, out))
  }

  ghost predicate RepliesHandled(turn: Turn, err: Code, reliable: bool, rest: bytes, works: bool, was: seq<Played>,
                                 played: seq<Played>, junk: bytes, wrap: nat, hash: bytes -> string, out: bytes)
    requires wrap > 0
  {
    && TurnEnded(turn, err, reliable, rest, works, was, played, junk, wrap, hash)
    && (turn.how != Undefined ==> Gives(out, turn.response))
  }

  /** One turn. `captured` is what the camera reports; the picture is the first `len` bytes of
      `image`. The true times are for the record only. */
  method RunUplink(t: Link, id: bytes, captured: Code, image: array<byte>, len: nat, media: bytes,
                   out: array<byte>, m: Metrics, clock: Clock, speaker: Speaker, wrap: nat,
                   hash: bytes -> string)
    returns (err: Code, ghost ts: Times, ghost junk: bytes)
    requires len <= image.Length && image != out && clock.Valid() && wrap >= TWO32
    modifies t`incoming, t`outgoing, out, m, clock, speaker
    ensures clock.Valid()
    ensures captured != OK ==> err == captured && t.incoming == old(t.incoming) && t.outgoing == old(t.outgoing)
                               && speaker.played == old(speaker.played) && Gives(out[..], [])
    ensures captured == OK ==>
              UplinkRan(Picture(id, media, old(image[..len])), old(t.incoming), old(t.outgoing), t.outgoing,
                        t.incoming, err, t.reliable, speaker.works, old(speaker.played), speaker.played, junk, wrap,
                        hash, out[..])
    ensures captured == OK && err == OK && Listen(old(t.incoming), []).how != Undefined
            ==> Timed(m, ts) && m.imageBytes == len && m.responseBytes == |Listen(old(t.incoming), []).response|
  {
    junk, ts := [], Times(0, 0, 0, 0);
    var start := BeginTurn(out, m, clock);
    ghost var t0 := clock.Millis();
    if captured != OK {
      return captured, ts, [];
    }
    err, ts, junk := UseCapture(t, id, image, len, media, out, m, clock, speaker, wrap, hash, start, t0);
  }

  /** The turn from the capture on. */
  method UseCapture(t: Link, id: bytes, image: array<byte>, len: nat, media: bytes, out: array<byte>, m: Metrics,
                    clock: Clock, speaker: Speaker, wrap: nat, hash: bytes -> string, start: nat, ghost t0: nat)
    returns (err: Code, ghost ts: Times, ghost junk: bytes)
    requires len <= image.Length && image != out && clock.Valid() && wrap >= TWO32
    requires Gives(out[..], []) && m.responseBytes == 0 && t0 <= clock.Millis() && start == t0 % TWO32
    modifies t`incoming, t`outgoing, out, m, clock, speaker
    ensures clock.Valid()
    ensures UplinkRan(Picture(id, media, old(image[..len])), old(t.incoming), old(t.outgoing), t.outgoing, t.incoming,
                      err, t.reliable, speaker.works, old(speaker.played), speaker.played, junk, wrap, hash, out[..])
    ensures err == OK && Listen(old(t.incoming), []).how != Undefined
            ==> Timed(m, ts) && m.imageBytes == len && m.responseBytes == |Listen(old(t.incoming), []).response|
  {
    var shot := clock.Now();
    ghost var t1 := clock.Millis();
    m.capture, m.imageBytes := Minus32(shot, start), len;
    ghost var t2;
    err, t2, junk := SendAndListen(t, id, image, len, media, out, m, clock, speaker, wrap, hash, start, shot);
    ts := Times(t0, t1, t2, clock.Millis());
    RecordedIsTimed(m, ts);
  }

  /** No answer yet, no measurements, and the start of the turn. */
  method BeginTurn(out: array<byte>, m: Metrics, clock: Clock) returns (start: nat)
    requires clock.Valid()
    modifies out, m, clock
    ensures Gives(out[..], []) && m.responseBytes == 0
    ensures clock.Valid() && clock.Millis() >= old(clock.Millis()) && start == clock.Millis() % TWO32
  {
    if out.Length > 0 {
      out[0] := 0;
    }
    m.Clear();
    start := clock.Now();
  }

  method SendAndListen(t: Link, id: bytes, image: array<byte>, len: nat, media: bytes, out: array<byte>, m: Metrics,
                       clock: Clock, speaker: Speaker, wrap: nat, hash: bytes -> string, start: nat, shot: nat)
    returns (err: Code, ghost t2: nat, ghost junk: bytes)
    requires len <= image.Length && image != out && clock.Valid() && wrap >= TWO32
    requires Gives(out[..], []) && m.responseBytes == 0
    modifies t`incoming, t`outgoing, out, m`upload, m`response, m`total, m`responseBytes, clock, speaker
    ensures clock.Valid() && old(clock.Millis()) <= t2 <= clock.Millis()
    ensures UplinkRan(Picture(id, media, old(image[..len])), old(t.incoming), old(t.outgoing), t.outgoing, t.incoming,
                      err, t.reliable, speaker.works, old(speaker.played), speaker.played, junk, wrap, hash, out[..])
    ensures err == OK && Listen(old(t.incoming), []).how != Undefined
            ==> Recorded(m, start, shot, t2 % TWO32, clock.Millis() % TWO32)
                && m.responseBytes == |Listen(old(t.incoming), []).response|
  {
    t2, junk := clock.Millis(), [];
    err := SendImage(t, id, image, len, media, hash);
    if err != OK {
      return;
    }
    var uploaded := clock.Now();
    t2 := clock.Millis();
    m.upload := Minus32(uploaded, shot);
    err, junk := FinishTurn(t, out, m, clock, speaker, wrap, hash, start, uploaded);
  }
}
