/** Turns that meet the conditions of the theorems, and some that do not. */
module Examples {
  import opened Bytes
  import opened Framing
  import opened Chunks
  import opened Json
  import opened JsonLookup
  import opened JsonLoads
  import opened Messages
  import opened Server
  import opened Uplink
  import opened Inbox
  import opened Hearing
  import opened Hex
  import opened Exchange
  import opened Stepwise
  import opened Turns
  import opened Hears

  const EXAMPLE_PCM: Pcm := Pcm([0, 0], 16000, 1)

  function ExampleDriver(rate: nat, channels: nat): Code {
    if rate > 0 && channels in {1, 2} then OK else INVALID
  }

  function ExampleEnv(text: string, wav: Option<Pcm>): Env {
    Env((c: Call) => Answer(text, wav), Sha256Text, TWO32, (n: nat) => Zeros(n),
        (rate: nat, channels: nat) => ExampleDriver(rate, channels))
  }

  lemma ShortAnswer(ms: seq<Member>, text: string)
    requires ms == AiResponse(text) && |text| <= 4
    ensures |Dumps(ms)| < RECV_CAP
  {
    TextMemberLength(ms[0]);
    TextMemberLength(ms[1]);
    EndLength(ms);
  }

  function Example(text: string): Talk {
    Talk("glass", "image/jpeg", [], text, EXAMPLE_PCM)
  }

  lemma ExampleModerate(text: string, env: Env)
    requires |text| <= 4 && HexDigest(env.hash)
    ensures Moderate(Example(text), env.hash)
  {
    ShortAnswer(AiResponse(text), text);
    ExampleFits(env.hash);
  }

  lemma ExampleSane(env: Env)
    requires exists text, wav :: env == ExampleEnv(text, wav)
    ensures Sane(env) && Works(env)
  {
    Sha256IsHexDigest();
  }

  lemma ExampleSpoken(text: string, env: Env)
    requires env == ExampleEnv(text, Some(EXAMPLE_PCM)) && |text| <= 4
    ensures SpokenTurn(Example(text), env)
  {
    ExampleSane(env);
    ExampleModerate(text, env);
  }

  /** The conditions of a good turn can be met, with SHA-256 for the hash. */
  lemma GoodTurnExists() returns (x: Talk, env: Env)
    ensures GoodTurn(x, env)
  {
    x, env := Example("ok"), ExampleEnv("ok", Some(EXAMPLE_PCM));
    ExampleSpoken("ok", env);
    OkGetsThrough();
  }

  lemma OkGetsThrough()
    ensures GetsThrough(Example("ok"))
  {
    assert AllPrintable("ok");
    PrintableNoHit("ok", "type");
    ShortGetsThrough(Example("ok"));
  }

  lemma ShortGetsThrough(x: Talk)
    requires x.id == "glass" && |x.text| <= 4 && !Hit(x.text, "type")
    ensures GetsThrough(x)
  {
    ShortAnswer(AiResponse(x.text), x.text);
    GlassIsClear(x.id);
    GetsThroughExact(x);
  }

  lemma GlassIsClear(id: string)
    requires id == "glass"
    ensures Pasteable(id) && id !in {"type", "size", "chunks", "sample_rate", "channels", "sha256"}
  {
    assert |id| == 5;
  }

  lemma TypeHidesType(x: Talk)
    requires x.text == "type"
    ensures !GetsThrough(x)
  {
  }

  /** And there is a real turn that cannot end well: the answer "type". */
  lemma BadTurnExists() returns (x: Talk, env: Env)
    ensures SpokenTurn(x, env) && env.hash == Sha256Text && x.text == "type" && !GetsThrough(x)
  {
    x, env := Example("type"), ExampleEnv("type", Some(EXAMPLE_PCM));
    ExampleSpoken("type", env);
    TypeHidesType(x);
  }

  /** Without speech there are turns of both kinds: the answer "ok" leaves the device waiting, and the
      answer "type" ends the turn with an error. */
  lemma SilentTurnsExist(wait: bool) returns (x: Talk, env: Env)
    ensures SilentTurn(x, env) && env.hash == Sha256Text && x.text == (if wait then "ok" else "type")
    ensures AnswerFault(x.text) == if wait then None else Some(IO)
  {
    var text := if wait then "ok" else "type";
    x, env := Example(text), ExampleEnv(text, None);
    ExampleSilent(text, env);
    if wait {
      OkGetsThrough();
    } else {
      TypeIsFault(text);
    }
  }

  lemma TypeIsFault(text: string)
    requires text == "type"
    ensures AnswerFault(text) == Some(IO)
  {
    ShortAnswer(AiResponse(text), text);
  }

  lemma ExampleSilent(text: string, env: Env)
    requires env == ExampleEnv(text, None) && |text| <= 4
    ensures SilentTurn(Example(text), env)
  {
    ExampleSane(env);
    ExampleModerate(text, env);
  }

  lemma ExampleFits(hash: bytes -> string)
    requires HexDigest(hash)
    ensures Fits("glass", "image/jpeg", [], hash) && ChunkCount(0, CHUNK_SIZE) == 1
  {
    assert Pasteable("glass") && Pasteable("image/jpeg");
    assert |hash([])| == 64;
    FitsExact("glass", "image/jpeg", [], hash);
  }
}
