/** What the phone's replies are to the device: the answer, the announcement of the speech, and its
    fields. */
module Hearing {
  import opened Bytes
  import opened Framing
  import opened Json
  import opened JsonLookup
  import opened JsonReader
  import opened JsonRoundTrip
  import opened Messages
  import opened Inbox
  import opened Device

  /** The answer as the device gets to see it: the escaped characters that fit the text buffer. */
  function Shown(text: string): (t: bytes)
    ensures 0 !in t
  {
    CText(Kept(ItemsOf(text), TEXT_CAP))
  }

  /** An answer without U+0000 whose UTF-8 form fits is seen unchanged. */
  lemma ShownInFull(text: string)
    requires HasNoNul(text) && |Utf8All(text)| < TEXT_CAP
    ensures Shown(text) == Utf8All(text)
  {
    FitsExactly(text, TEXT_CAP);
    NoNul(text);
  }

  lemma PlainText(s: string)
    requires AllPrintable(s)
    ensures CText(Utf8All(s)) == Ascii(s) && Utf8All(s) == Ascii(s)
  {
    EscapePrintable(s);
    assert forall i :: 0 <= i < |s| ==> s[i] in s;
    NoNul(s);
  }

  lemma DumpsIsText(ms: seq<Member>)
    ensures CText(Dumps(ms)) == Dumps(ms)
  {
    DumpsHasNoNul(ms);
    var b := Dumps(ms);
    assert (b + [0])[..|b|] == b;
    CStrUnique(b + [0], |b|);
  }

  /** How the firmware reads the type of a written message: the member `j` is the type. */
  lemma TypeRead(ms: seq<Member>, j: nat, t: string)
    requires j < |ms| && ms[j] == Member("type", Text(t)) && AllPrintable(t) && |t| < TYPE_CAP
    requires NoEarlierHit(ms, "type", j)
    ensures GetStringResult(Dumps(ms), Ascii("type"), TYPE_CAP) == Read(true, Ascii(t))
    ensures CText(Ascii(t)) == Ascii(t)
  {
    PlainText(t);
    StringRoundTrip(ms, "type", t, j, TYPE_CAP);
  }

  /** A message whose type is found is understood as that type. */
  lemma Understood(ms: seq<Member>, j: nat, t: string, cap: nat)
    requires j < |ms| && ms[j] == Member("type", Text(t)) && AllPrintable(t) && |t| < TYPE_CAP
    requires NoEarlierHit(ms, "type", j) && cap > 0
    ensures 0 !in Dumps(ms)
    ensures Understand(Dumps(ms), cap)
            == Some(Message(Classify(Ascii(t)), TextFor(Classify(Ascii(t)), Dumps(ms), cap)))
  {
    TypeRead(ms, j, t);
    DumpsIsText(ms);
  }

  lemma ReceiveOf(f: Frame, tail: bytes, cap: nat)
    requires cap > 0 && f.kind == KIND_JSON && |f.payload| < RECV_CAP
    ensures Receive(Encode(f) + tail, cap)
            == match Understand(f.payload, cap) case None => Err(IO) case Some(m) => Ok((m, tail))
  {
    CReceiveExact(Encode(f) + tail, RECV_CAP - 1, f, tail);
  }

  lemma TooLong(f: Frame, tail: bytes, cap: nat)
    requires cap > 0 && f.kind == KIND_JSON && RECV_CAP <= |f.payload| <= MAX_FRAME_BYTES
    ensures Receive(Encode(f) + tail, cap) == Err(NO_MEM)
  {
    EncodeShape(f, tail);
  }

  /** The firmware's reader of a quoted key that turns up as a value first reports an error. */
  lemma TypeHidden(ms: seq<Member>, i: nat, cap: nat)
    requires i < |ms| && NoEarlierHit(ms, "type", i) && cap > 0
    requires !Hit(ms[i].key, "type") && ms[i].value.Text? && Hit(ms[i].value.text, "type")
    ensures Understand(Dumps(ms), cap) == None
  {
    GoesAstray(ms, "type", i);
    DumpsIsText(ms);
  }

  // ---------- the answer ----------

  lemma TypesDiffer()
    ensures Classify(Ascii("ai_response")) == AI_RESPONSE
    ensures Classify(Ascii("audio_begin")) == AUDIO_BEGIN
  {
    AsciiAt("ai_response", "pong", 0);
    AsciiAt("ai_response", "device_info", 0);
    AsciiAt("audio_begin", "pong", 0);
    AsciiAt("audio_begin", "device_info", 0);
    AsciiAt("audio_begin", "ai_response", 1);
    AsciiAt("audio_begin", "play_audio", 0);
    AsciiAt("audio_begin", "error", 0);
  }

  lemma AsciiAt(a: string, b: string, i: nat)
    requires i < |a| && i < |b| && a[i] != b[i] && a[i] < 128 as char && b[i] < 128 as char
    ensures Ascii(a) != Ascii(b)
  {
    assert Ascii(a)[i] != Ascii(b)[i];
  }

  /** What keeps an answer from getting through: a message too long for the receive buffer, or a text
      that the device takes for the key of the type. */
  function AnswerFault(text: string): (r: Option<Code>)
    ensures r.Some? ==> r.value in {IO, NO_MEM}
  {
    if |Dumps(AiResponse(text))| >= RECV_CAP then Some(NO_MEM)
    else if Hit(text, "type") then Some(IO)
    else None
  }

  /** The answer gets through unless it has a fault, which the device then reports. */
  lemma AnswerReceived(text: string, tail: bytes)
    requires |Dumps(AiResponse(text))| <= MAX_FRAME_BYTES
    ensures Receive(Encode(Control(AiResponse(text))) + tail, TEXT_CAP)
            == match AnswerFault(text)
               case Some(code) => Err(code)
               case None => Ok((Message(AI_RESPONSE, Some(Shown(text))), tail))
  {
    if |Dumps(AiResponse(text))| >= RECV_CAP {
      TooLong(Control(AiResponse(text)), tail, TEXT_CAP);
    } else {
      ReceiveOf(Control(AiResponse(text)), tail, TEXT_CAP);
      AnswerUnderstood(text);
    }
  }

  lemma AnswerUnderstood(text: string)
    ensures Understand(Dumps(AiResponse(text)), TEXT_CAP)
            == if Hit(text, "type") then None else Some(Message(AI_RESPONSE, Some(Shown(text))))
  {
    if Hit(text, "type") {
      TypeHidden(AiResponse(text), 0, TEXT_CAP);
    } else {
      AnswerOf(AiResponse(text), text);
    }
  }

  lemma AnswerOf(ms: seq<Member>, text: string)
    requires ms == [Member("text", Text(text)), Member("type", Text("ai_response"))] && !Hit(text, "type")
    ensures Understand(Dumps(ms), TEXT_CAP) == Some(Message(AI_RESPONSE, Some(Shown(text))))
  {
    Understood(ms, 1, "ai_response", TEXT_CAP);
    TypesDiffer();
    TextOf(ms, text);
    TextForAnswer(Dumps(ms), Kept(ItemsOf(text), TEXT_CAP));
  }

  lemma TextOf(ms: seq<Member>, text: string)
    requires ms != [] && ms[0] == Member("text", Text(text))
    ensures GetStringResult(Dumps(ms), Ascii("text"), TEXT_CAP) == Read(true, Kept(ItemsOf(text), TEXT_CAP))
  {
    StringRoundTrip(ms, "text", text, 0, TEXT_CAP);
  }

  lemma TextForAnswer(json: bytes, out: bytes)
    requires 0 !in json && GetStringResult(json, Ascii("text"), TEXT_CAP) == Read(true, out)
    ensures TextFor(AI_RESPONSE, json, TEXT_CAP) == Some(CText(out))
  {
  }

  // ---------- the announcement of the speech ----------

  lemma NoQuoteNoHit(s: string, k: string)
    requires '"' !in s && s != k
    ensures !Hit(s, k)
  {
    assert |s| > |k| ==> s[|s| - |k| - 1] in s;
  }

  lemma PrintableNoHit(s: string, k: string)
    requires AllPrintable(s) && s != k
    ensures !Hit(s, k)
  {
    assert |s| > |k| ==> s[|s| - |k| - 1] in s;
  }

  /** Of the members before the `j`-th only the first can be taken for the key. */
  ghost predicate OnlyFirst(ms: seq<Member>, k: string, j: nat)
    requires 0 < j < |ms|
  {
    && ms[j].key == k && AllPrintable(ms[0].key) && ms[0].key != k
    && forall i :: 1 <= i < j ==> AllPrintable(ms[i].key) && ms[i].key != k
                                  && (ms[i].value.Text? ==> AllPrintable(ms[i].value.text) && ms[i].value.text != k)
  }

  lemma OnlyFirstHits(ms: seq<Member>, k: string, j: nat)
    requires 0 < j < |ms| && OnlyFirst(ms, k, j) && ms[0].value.Text?
    ensures NoEarlierHit(ms, k, j) <==> !Hit(ms[0].value.text, k)
  {
    forall i | 0 <= i < j ensures !Hit(ms[i].key, k) {
      PrintableNoHit(ms[i].key, k);
    }
    forall i | 1 <= i < j && ms[i].value.Text? ensures !Hit(ms[i].value.text, k) {
      PrintableNoHit(ms[i].value.text, k);
    }
    if NoEarlierHit(ms, k, j) {
      assert !MemberHit(ms[0], k);
    }
  }

  /** Members with the keys and texts of an audio_begin. */
  ghost predicate Announces(ms: seq<Member>, id: string, sha: string) {
    && |ms| == 8 && ms[0] == Member("audio_id", Text(id))
    && ms[1].key == "channels" && ms[1].value.Num?
    && ms[2].key == "chunks" && ms[2].value.Num?
    && ms[3] == Member("format", Text("pcm_s16le"))
    && ms[4].key == "sample_rate" && ms[4].value.Num?
    && ms[5] == Member("sha256", Text(sha))
    && ms[6].key == "size" && ms[6].value.Num?
    && ms[7] == Member("type", Text("audio_begin"))
    && |sha| == 64 && AllPrintable(sha)
  }

  lemma Printables()
    ensures AllPrintable("audio_id") && AllPrintable("channels") && AllPrintable("chunks") && AllPrintable("format")
    ensures AllPrintable("pcm_s16le") && AllPrintable("sample_rate") && AllPrintable("sha256") && AllPrintable("size")
  {
  }

  lemma FirstDiffers(a: string, b: string)
    requires a != "" && b != "" && a[0] != b[0]
    ensures a != b
  {
  }

  lemma BeginKeys(ms: seq<Member>, id: string, sha: string)
    requires Announces(ms, id, sha)
    ensures OnlyFirst(ms, "channels", 1) && OnlyFirst(ms, "chunks", 2) && OnlyFirst(ms, "sample_rate", 4)
    ensures OnlyFirst(ms, "sha256", 5) && OnlyFirst(ms, "size", 6) && OnlyFirst(ms, "type", 7)
  {
    Printables();
    FirstDiffers("audio_id", "channels");
    FirstDiffers("format", "chunks");
    FirstDiffers("format", "sha256");
    FirstDiffers("chunks", "sha256");
    FirstDiffers("size", "type");
  }

  /** An id that cannot be taken for the key of a field the device reads. */
  predicate ClearOfFields(id: string) {
    && !Hit(id, "size") && !Hit(id, "chunks") && !Hit(id, "sample_rate") && !Hit(id, "channels")
    && !Hit(id, "sha256")
  }

  lemma NumberRead(ms: seq<Member>, k: string, j: nat)
    requires PlainKey(k) && |k| + 2 < NEEDLE_CAP
    requires 0 < j < |ms| && OnlyFirst(ms, k, j) && ms[0].value.Text? && ms[j].value.Num?
    ensures GetUintResult(Dumps(ms), Ascii(k))
            == if Hit(ms[0].value.text, k) then None else Some(ms[j].value.num % TWO32)
  {
    OnlyFirstHits(ms, k, j);
    if Hit(ms[0].value.text, k) {
      PrintableNoHit(ms[0].key, k);
      GoesAstray(ms, k, 0);
    } else {
      NumberRoundTrip(ms, k, ms[j].value.num, j);
    }
  }

  lemma DigestRead(ms: seq<Member>, id: string, sha: string)
    requires Announces(ms, id, sha)
    ensures GetStringResult(Dumps(ms), Ascii("sha256"), SHA_CAP)
            == if Hit(id, "sha256") then Read(false, []) else Read(true, Ascii(sha))
    ensures CText(Ascii(sha)) == Ascii(sha)
  {
    BeginKeys(ms, id, sha);
    OnlyFirstHits(ms, "sha256", 5);
    PlainText(sha);
    if Hit(id, "sha256") {
      PrintableNoHit(ms[0].key, "sha256");
      GoesAstray(ms, "sha256", 0);
    } else {
      StringRoundTrip(ms, "sha256", sha, 5, SHA_CAP);
    }
  }

  /** The device reads the announced fields, each modulo 2^32, exactly when the id cannot be taken
      for one of their keys; otherwise it reads nothing. */
  lemma FieldsExact(ms: seq<Member>, id: string, sha: string)
    requires Announces(ms, id, sha)
    ensures ReadFields(Dumps(ms))
            == if ClearOfFields(id)
               then Some(Fields(ms[6].value.num % TWO32, ms[2].value.num % TWO32, ms[4].value.num % TWO32,
                                ms[1].value.num % TWO32, Ascii(sha)))
               else None
  {
    BeginKeys(ms, id, sha);
    NumberRead(ms, "size", 6);
    NumberRead(ms, "chunks", 2);
    NumberRead(ms, "sample_rate", 4);
    NumberRead(ms, "channels", 1);
    DigestRead(ms, id, sha);
  }

  /** The announcement gets through, unless the id makes the device take it for the key of the type
      or the text does not fit the buffer. */
  lemma BeginReceived(ms: seq<Member>, id: string, sha: string, tail: bytes)
    requires Announces(ms, id, sha) && |Dumps(ms)| < TEXT_CAP
    ensures Receive(Encode(Control(ms)) + tail, TEXT_CAP)
            == if Hit(id, "type") then Err(IO) else Ok((Message(AUDIO_BEGIN, Some(Dumps(ms))), tail))
  {
    ReceiveOf(Control(ms), tail, TEXT_CAP);
    BeginUnderstands(ms, id, sha);
  }

  lemma BeginUnderstands(ms: seq<Member>, id: string, sha: string)
    requires Announces(ms, id, sha) && |Dumps(ms)| < TEXT_CAP
    ensures Understand(Dumps(ms), TEXT_CAP)
            == if Hit(id, "type") then None else Some(Message(AUDIO_BEGIN, Some(Dumps(ms))))
  {
    BeginKeys(ms, id, sha);
    OnlyFirstHits(ms, "type", 7);
    if Hit(id, "type") {
      PrintableNoHit(ms[0].key, "type");
      TypeHidden(ms, 0, TEXT_CAP);
    } else {
      BeginUnderstandsClear(ms);
    }
  }

  lemma BeginUnderstandsClear(ms: seq<Member>)
    requires |ms| == 8 && ms[7] == Member("type", Text("audio_begin")) && NoEarlierHit(ms, "type", 7)
    requires |Dumps(ms)| < TEXT_CAP
    ensures Understand(Dumps(ms), TEXT_CAP) == Some(Message(AUDIO_BEGIN, Some(Dumps(ms))))
  {
    Understood(ms, 7, "audio_begin", TEXT_CAP);
    TypesDiffer();
    WholeText(Dumps(ms));
  }

  lemma WholeText(json: bytes)
    requires 0 !in json && |json| < TEXT_CAP
    ensures TextFor(AUDIO_BEGIN, json, TEXT_CAP) == Some(json)
  {
    assert json[..|json|] == json;
  }
}
