/** Texts left without a terminator: an input that does it, and why no message of the phone does. */
module Written {
  import opened Bytes
  import opened Decimals
  import opened Framing
  import opened Chunks
  import opened Json
  import opened JsonLookup
  import opened JsonReader
  import opened JsonRoundTrip
  import opened Messages
  import opened AudioReceiver
  import opened Server
  import opened Connection
  import opened Inbox
  import opened Device
  import opened Hearing

  // ---------- a payload that does it ----------

  /** `{"type":"ai_response","text":"a\q"}` */
  function BadPayload(): bytes {
    var m := Member("type", Text("ai_response"));
    [OPEN] + (MemberText(m) + ([COMMA] + (Token("text") + ([COLON] + BadValue()))))
  }

  function BadValue(): bytes { [QUOTE, 97, BACKSLASH, 113, QUOTE, CLOSE] }

  lemma BadValueRead(cap: nat)
    requires cap > 1
    ensures StringAt(BadValue(), cap) == Read(false, [97])
  {
    var v := BadValue();
    var t := v[1..];
    assert t[1..] == [BACKSLASH, 113, QUOTE, CLOSE] && t[1..][1..] == [113, QUOTE, CLOSE];
    assert HeadOf(t) == Got(Raw(97), 1) && HeadOf(t[1..]) == Bad;
    assert Scan(t[1..]) == Scanned([], false);
    assert Scan(t) == Scanned([Raw(97)], false);
    assert [Raw(97)][..0] == [];
    assert Kept([Raw(97)], cap) == [97];
  }

  /** The value behind a key that the search finds first. */
  lemma ValueBehind(before: bytes, k: string, v: bytes, t: bytes)
    requires PlainKey(k) && |k| + 2 < NEEDLE_CAP && v != [] && v[0] != 32 && v[0] != 9
    requires t == before + (Token(k) + ([COLON] + v)) && FirstAt(t, Needle(k), |before|)
    ensures ValueOf(t, Ascii(k)) == Some(v)
  {
    EscapePrintable(k);
    var after := Token(k) + ([COLON] + v);
    assert t[|before| + |Needle(k)|..] == after[|Needle(k)|..] == [COLON] + v;
    ReachesText(t, k, |before|, v);
  }

  /** The value of a key that stands behind one member that is no hit. */
  lemma SecondValue(m: Member, k: string, v: bytes, t: bytes)
    requires PlainKey(k) && |k| + 2 < NEEDLE_CAP && v != [] && v[0] != 32 && v[0] != 9 && !MemberHit(m, k)
    requires t == [OPEN] + (MemberText(m) + ([COMMA] + (Token(k) + ([COLON] + v))))
    ensures ValueOf(t, Ascii(k)) == Some(v)
  {
    var before, tail := [OPEN] + (MemberText(m) + [COMMA]), Token(k) + ([COLON] + v);
    var inner := MemberText(m) + ([COMMA] + tail);
    KeyComesFirst(k, [COLON] + v);
    SkipMemberAndComma(inner, m, k, tail, 0);
    SkipPlain([OPEN], inner, k, |MemberText(m)| + 1);
    Regrouped([OPEN], MemberText(m), [COMMA], tail);
    ValueBehind(before, k, v, t);
  }

  lemma Regrouped(a: bytes, b: bytes, c: bytes, d: bytes)
    ensures a + (b + (c + d)) == (a + (b + c)) + d
  {
  }

  /** The string value of a key that stands first. */
  lemma FirstValue(k: string, s: string, rest: bytes, t: bytes, cap: nat)
    requires PlainKey(k) && |k| + 2 < NEEDLE_CAP && cap > 0
    requires t == [OPEN] + (MemberText(Member(k, Text(s))) + rest)
    ensures GetStringResult(t, Ascii(k), cap) == Read(true, Kept(ItemsOf(s), cap))
  {
    var m := Member(k, Text(s));
    MemberParts(m, rest);
    KeyComesFirst(k, [COLON] + (Token(s) + rest));
    SkipPlain([OPEN], MemberText(m) + rest, k, 0);
    ValueBehind([OPEN], k, Token(s) + rest, t);
    StringValueRead(t, Ascii(k), s, rest, cap);
  }

  lemma BadPayloadClean(m: Member, t: bytes)
    requires t == [OPEN] + (MemberText(m) + ([COMMA] + (Token("text") + ([COLON] + BadValue()))))
    ensures CText(t) == t && 0 !in t
  {
    MemberHasNoNul(m);
    TokenHasNoNul("text");
    NoNulInParts(MemberText(m), Token("text"), BadValue(), t);
    assert (t + [0])[..|t|] == t;
    CStrUnique(t + [0], |t|);
  }

  lemma MemberHasNoNul(m: Member)
    ensures 0 !in MemberText(m)
  {
    MembersHaveNoNul([m]);
    assert forall x <- MemberText(m) :: x in MembersText([m]);
  }

  lemma TokenHasNoNul(k: string)
    ensures 0 !in Token(k)
  {
    EscapeShape(k);
  }

  lemma NoNulInParts(a: bytes, b: bytes, v: bytes, t: bytes)
    requires 0 !in a && 0 !in b && 0 !in v && t == [OPEN] + (a + ([COMMA] + (b + ([COLON] + v))))
    ensures 0 !in t
  {
  }

  /** The firmware takes the payload for an answer and leaves its text without a terminator: there is
      a buffer, empty before, that holds no terminator after. */
  lemma BadPayloadUnderstood()
    ensures Understand(BadPayload(), TEXT_CAP) == Some(Message(AI_RESPONSE, None))
    ensures exists was, now :: |was| == TEXT_CAP && was[0] == 0
                               && TextLeft(AI_RESPONSE, BadPayload(), was, now) && 0 !in now
  {
    var m, t := Member("type", Text("ai_response")), BadPayload();
    BadPayloadClean(m, t);
    BadPayloadType([COMMA] + (Token("text") + ([COLON] + BadValue())), t);
    TypeIsNoText(m);
    BadPayloadText(m, t);
    LeftUnterminated(t);
  }

  lemma LeftUnterminated(t: bytes)
    requires 0 !in t && CText(t) == t && BadAfterText(t, Ascii("text"), TEXT_CAP)
    requires GetStringResult(t, Ascii("type"), TYPE_CAP) == Read(true, Ascii("ai_response"))
    requires Classify(CText(Ascii("ai_response"))) == AI_RESPONSE
    ensures Understand(t, TEXT_CAP) == Some(Message(AI_RESPONSE, None))
    ensures exists was, now :: |was| == TEXT_CAP && was[0] == 0 && TextLeft(AI_RESPONSE, t, was, now) && 0 !in now
  {
    TerminatedExact(AI_RESPONSE, t, TEXT_CAP);
  }

  lemma BadPayloadType(rest: bytes, t: bytes)
    requires t == [OPEN] + (MemberText(Member("type", Text("ai_response"))) + rest)
    ensures GetStringResult(t, Ascii("type"), TYPE_CAP) == Read(true, Ascii("ai_response"))
    ensures Classify(CText(Ascii("ai_response"))) == AI_RESPONSE
  {
    AnswerPrintable();
    FirstPlain("type", "ai_response", rest, t, TYPE_CAP);
    TypesDiffer();
  }

  lemma AnswerPrintable()
    ensures AllPrintable("type") && AllPrintable("ai_response")
  {
  }

  lemma FirstPlain(k: string, s: string, rest: bytes, t: bytes, cap: nat)
    requires PlainKey(k) && |k| + 2 < NEEDLE_CAP && AllPrintable(s) && |s| < cap
    requires t == [OPEN] + (MemberText(Member(k, Text(s))) + rest)
    ensures GetStringResult(t, Ascii(k), cap) == Read(true, Ascii(s)) && CText(Ascii(s)) == Ascii(s)
  {
    FirstValue(k, s, rest, t, cap);
    PlainText(s);
    FitsExactly(s, cap);
  }

  lemma BadPayloadText(m: Member, t: bytes)
    requires t == [OPEN] + (MemberText(m) + ([COMMA] + (Token("text") + ([COLON] + BadValue()))))
    requires !MemberHit(m, "text")
    ensures GetStringResult(t, Ascii("text"), TEXT_CAP) == Read(false, [97])
    ensures BadAfterText(t, Ascii("text"), TEXT_CAP)
  {
    SecondValue(m, "text", BadValue(), t);
    BadTextRead(t, Ascii("text"));
  }

  lemma TypeIsNoText(m: Member)
    requires m == Member("type", Text("ai_response"))
    ensures !MemberHit(m, "text")
  {
    assert AllPrintable("type") && AllPrintable("ai_response");
    PrintableNoHit("type", "text");
    PrintableNoHit("ai_response", "text");
  }

  lemma BadTextRead(t: bytes, key: bytes)
    requires ValueOf(t, key) == Some(BadValue())
    ensures GetStringResult(t, key, TEXT_CAP) == Read(false, [97]) && BadAfterText(t, key, TEXT_CAP)
  {
    BadValueRead(TEXT_CAP);
  }

  // ---------- no written message does it ----------

  /** The text `t` of some members and the text `u` of these and one more, which starts at `|t|`: they
      agree up to the closing brace of `t`. */
  ghost predicate Continues(t: bytes, u: bytes) {
    t != [] && t[|t| - 1] == CLOSE && t[..|t| - 1] <= u
  }

  lemma {:induction false} OneMoreText(ms: seq<Member>, m: Member, all: seq<Member>)
    requires ms != [] && all == ms + [m]
    ensures Continues(MembersText(ms), MembersText(all)) && KeyAt(all, |ms|) == |MembersText(ms)|
  {
    SplitMany(all);
    if |ms| == 1 {
      LoneMember(ms);
      ContinuesBehind(MemberText(ms[0]), [CLOSE], [COMMA] + MembersText(all[1..]));
      assert KeyAt(all[1..], 0) == 0;
    } else {
      OneMoreText(ms[1..], m, all[1..]);
      SplitMany(ms);
      ContinuesBehind(MemberText(ms[0]) + [COMMA], MembersText(ms[1..]), MembersText(all[1..]));
      Assoc(MemberText(ms[0]), [COMMA], MembersText(ms[1..]));
      Assoc(MemberText(ms[0]), [COMMA], MembersText(all[1..]));
    }
  }

  lemma LoneMember(ms: seq<Member>)
    requires |ms| == 1
    ensures MembersText(ms) == MemberText(ms[0]) + [CLOSE]
  {
  }

  lemma ContinuesBehind(before: bytes, t: bytes, u: bytes)
    requires Continues(t, u)
    ensures Continues(before + t, before + u)
  {
    assert (before + t)[..|before + t| - 1] == before + t[..|t| - 1];
  }

  /** A message none of whose members is a hit does not contain the quoted key at all. */
  lemma NoHitNoFind(ms: seq<Member>, k: string)
    requires PlainKey(k) && NoEarlierHit(ms, k, |ms|)
    ensures Find(Dumps(ms), Needle(k)) == None
  {
    var t := MembersText(ms);
    forall q | 0 <= q <= |t| ensures !(Needle(k) <= t[q..]) {
      if Needle(k) <= t[q..] {
        NoHitNoMatch(ms, k, q);
      }
    }
    NowhereInDumps(t, k);
  }

  lemma NowhereInDumps(t: bytes, k: string)
    requires forall q :: 0 <= q <= |t| ==> !(Needle(k) <= t[q..])
    ensures Find([OPEN] + t, Needle(k)) == None
  {
    var u := [OPEN] + t;
    forall p | 0 <= p <= |u| ensures !(Needle(k) <= u[p..]) {
      assert Needle(k)[0] == QUOTE && (p < |u| ==> u[p..][0] == u[p]);
      assert p > 0 ==> u[p..] == t[p - 1..];
    }
    if Find(u, Needle(k)).Some? {
      FindIsFirst(u, Needle(k), Find(u, Needle(k)).value);
    }
  }

  lemma NoHitNoMatch(ms: seq<Member>, k: string, q: nat)
    requires PlainKey(k) && NoEarlierHit(ms, k, |ms|) && q <= |MembersText(ms)|
    ensures !(Needle(k) <= MembersText(ms)[q..])
  {
    if ms == [] {
      assert MembersText(ms) == [CLOSE];
    } else {
      var m := Member(k, Num(0));
      var all := ms + [m];
      OneMoreText(ms, m, all);
      HitsBefore(ms, all, k);
      FindsMember(all, k, |ms|);
      NoMatchBefore(MembersText(ms), MembersText(all), k, q);
    }
  }

  lemma NoMatchBefore(t: bytes, u: bytes, k: string, q: nat)
    requires Continues(t, u) && FirstAt(u, Needle(k), |t|) && q <= |t|
    ensures !(Needle(k) <= t[q..])
  {
    if Needle(k) <= t[q..] {
      NotToTheEnd(t, k, q);
      SameMatch(t, u, Needle(k), q);
    }
  }

  lemma HitsBefore(ms: seq<Member>, all: seq<Member>, k: string)
    requires ms <= all && NoEarlierHit(ms, k, |ms|)
    ensures NoEarlierHit(all, k, |ms|)
  {
  }

  /** A quoted key never reaches the closing brace. */
  lemma NotToTheEnd(t: bytes, k: string, q: nat)
    requires t != [] && t[|t| - 1] == CLOSE && q <= |t| && Needle(k) <= t[q..]
    ensures q + |Needle(k)| < |t|
  {
    var n := Needle(k);
    assert n[|n| - 1] == t[q..][|n| - 1] == t[q + |n| - 1];
  }

  lemma SameMatch(t: bytes, u: bytes, n: bytes, q: nat)
    requires Continues(t, u) && q + |n| < |t| && n <= t[q..]
    ensures n <= u[q..]
  {
    assert n == t[q..][..|n|] == t[..|t| - 1][q..q + |n|] == u[q..q + |n|] == u[q..][..|n|];
  }

  /** The search stops in the key of the first member that is a hit there. */
  lemma {:induction false} StopsInKey(ms: seq<Member>, k: string, i: nat) returns (p: nat)
    requires PlainKey(k) && i < |ms| && NoEarlierHit(ms, k, i) && Hit(ms[i].key, k)
    ensures FirstThen(MembersText(ms), Needle(k), p, [COLON] + (ValueText(ms[i].value) + AfterMember(ms, i)))
  {
    if i == 0 {
      p := StopsInFirstKey(ms[0], k, AfterMember(ms, 0));
      FirstOf(ms, k, p, [COLON] + (ValueText(ms[0].value) + AfterMember(ms, 0)));
    } else {
      NoHitInTail(ms, k, i);
      var q := StopsInKey(ms[1..], k, i - 1);
      AfterMemberTail(ms, i);
      p := StopsLater(ms, k, q, [COLON] + (ValueText(ms[i].value) + AfterMember(ms, i)));
    }
  }

  lemma StopsInFirstKey(m: Member, k: string, rest: bytes) returns (p: nat)
    requires PlainKey(k) && Hit(m.key, k)
    ensures FirstThen(MemberText(m) + rest, Needle(k), p, [COLON] + (ValueText(m.value) + rest))
  {
    var after := [COLON] + (ValueText(m.value) + rest);
    HitEndsToken(m.key, k, after);
    MemberParts(m, rest);
    p := |Escape(m.key)| - |k|;
    BehindToken(m.key, k, after, p);
  }

  lemma BehindToken(s: string, k: string, after: bytes, p: nat)
    requires p + |k| == |Escape(s)|
    ensures p + |Needle(k)| == |Token(s)| && (Token(s) + after)[p + |Needle(k)|..] == after
  {
  }

  lemma {:induction false} EarliestHit(ms: seq<Member>, k: string, i: nat) returns (j: nat)
    requires i <= |ms| && NoEarlierHit(ms, k, i)
    ensures j <= |ms| && NoEarlierHit(ms, k, j) && (j < |ms| ==> MemberHit(ms[j], k))
    decreases |ms| - i
  {
    if i == |ms| || MemberHit(ms[i], k) {
      j := i;
    } else {
      j := EarliestHit(ms, k, i + 1);
    }
  }

  /** Whatever the reader takes for the value of a key in a written message is the value of some
      member, or nothing. */
  lemma WrittenValue(ms: seq<Member>, k: string) returns (j: nat)
    requires PlainKey(k) && |k| + 2 < NEEDLE_CAP
    ensures ValueOf(Dumps(ms), Ascii(k)) == None
            || (j < |ms| && ValueOf(Dumps(ms), Ascii(k)) == Some(ValueText(ms[j].value) + AfterMember(ms, j)))
  {
    j := EarliestHit(ms, k, 0);
    if j == |ms| {
      NoHitNoFind(ms, k);
    } else if Hit(ms[j].key, k) {
      KeyedValue(ms, k, j);
    } else {
      GoesAstray(ms, k, j);
    }
  }

  lemma KeyedValue(ms: seq<Member>, k: string, j: nat)
    requires PlainKey(k) && |k| + 2 < NEEDLE_CAP && j < |ms| && NoEarlierHit(ms, k, j) && Hit(ms[j].key, k)
    ensures ValueOf(Dumps(ms), Ascii(k)) == Some(ValueText(ms[j].value) + AfterMember(ms, j))
  {
    var t, v := MembersText(ms), ValueText(ms[j].value) + AfterMember(ms, j);
    var p := StopsInKey(ms, k, j);
    FirstInDumps(t, k, p);
    DropDrop(t, [OPEN], p, |Needle(k)|);
    assert t[p..][|Needle(k)|..] == [COLON] + v;
    FoundGives(Dumps(ms), k, 1 + p, [COLON] + v);
    ValueStart(ms[j].value);
    ColonThen(v);
  }

  /** Reading any plain key of any written message, the firmware meets no bad escape. */
  lemma WrittenRead(ms: seq<Member>, k: string, cap: nat)
    requires PlainKey(k) && |k| + 2 < NEEDLE_CAP && cap > 0
    ensures var r := GetStringResult(Dumps(ms), Ascii(k), cap); r.ok || r.out == []
  {
    var j := WrittenValue(ms, k);
    if ValueOf(Dumps(ms), Ascii(k)).Some? {
      match ms[j].value
      case Text(s) => StringValueRead(Dumps(ms), Ascii(k), s, AfterMember(ms, j), cap);
      case Num(n) => assert (Decimal(n) + AfterMember(ms, j))[0] in Decimal(n);
    }
  }

  /** So the text of any written message is terminated. */
  lemma WrittenTerminated(ms: seq<Member>, what: MsgType, cap: nat)
    requires cap > 0
    ensures 0 !in Dumps(ms) && TextFor(what, Dumps(ms), cap).Some?
  {
    DumpsHasNoNul(ms);
    match what
    case AI_RESPONSE => WrittenText(ms, what, "text", cap);
    case PLAY_AUDIO => WrittenText(ms, what, "content", cap);
    case ERROR => WrittenText(ms, what, "message", cap);
    case _ =>
  }

  lemma WrittenText(ms: seq<Member>, what: MsgType, k: string, cap: nat)
    requires cap > 0 && PlainKey(k) && |k| + 2 < NEEDLE_CAP && 0 !in Dumps(ms)
    requires what != AUDIO_BEGIN && TextKey(what) == Some(Ascii(k))
    ensures TextFor(what, Dumps(ms), cap).Some?
  {
    WrittenRead(ms, k, cap);
  }

  /** A frame such as the phone writes. */
  ghost predicate PhoneFrame(f: Frame) {
    Sendable(f) && OwnFrame(f)
  }

  ghost predicate OwnFrame(f: Frame) {
    f.kind == KIND_BINARY || exists ms: seq<Member> :: f == Control(ms)
  }

  /** However a device listens to frames of the phone, it never reads a text without terminator. */
  lemma {:induction false} ListenDefined(fs: seq<Frame>, response: bytes)
    requires (forall f <- fs :: PhoneFrame(f)) && 0 !in response
    ensures Listen(EncodeAll(fs), response).how != Undefined
  {
    if fs != [] {
      var rest := EncodeAll(fs[1..]);
      assert PhoneFrame(fs[0]);
      FrameDefined(fs[0], rest);
      assert forall f <- fs[1..] :: f in fs;
      var r := Receive(EncodeAll(fs), TEXT_CAP);
      if r.Ok? {
        ReactDefined(r.value.0, response);
        if React(r.value.0, response).GoOn? {
          ListenDefined(fs[1..], React(r.value.0, response).response);
        }
      }
      ListenOnce(EncodeAll(fs), r, response);
    }
  }

  /** With a text the reaction is defined, and so is the answer kept. */
  lemma ReactDefined(m: Message, response: bytes)
    requires 0 !in response && m.text.Some? && 0 !in m.text.value
    ensures React(m, response) != Stop(Undefined)
    ensures React(m, response).GoOn? ==> 0 !in React(m, response).response
  {
  }

  /** One step of listening. */
  lemma ListenOnce(s: bytes, r: Result<(Message, bytes), Code>, response: bytes)
    requires r == Receive(s, TEXT_CAP) && 0 !in response
    ensures r.Err? ==> Listen(s, response).how == Broken(r.error)
    ensures r.Ok? && React(r.value.0, response).Stop? ==> Listen(s, response).how == React(r.value.0, response).how
    ensures r.Ok? && React(r.value.0, response).GoOn? && 0 !in React(r.value.0, response).response
            ==> Listen(s, response) == Listen(r.value.1, React(r.value.0, response).response)
  {
  }

  lemma FrameDefined(f: Frame, rest: bytes)
    requires PhoneFrame(f)
    ensures var r := Receive(Encode(f) + rest, TEXT_CAP); r.Ok? ==> r.value.0.text.Some? && r.value.1 == rest
  {
    if f.kind == KIND_JSON && |f.payload| < RECV_CAP {
      var ms :| f == Control(ms);
      ReceiveOf(f, rest, TEXT_CAP);
      DumpsIsText(ms);
      if Understand(Dumps(ms), TEXT_CAP).Some? {
        WrittenTerminated(ms, Understand(Dumps(ms), TEXT_CAP).value.what, TEXT_CAP);
      }
    } else {
      EncodeShape(f, rest);
    }
  }

  lemma SendOwn(next: Option<Transfer>, fs: seq<Frame>, calls: seq<Call>)
    requires forall f <- fs :: OwnFrame(f)
    ensures forall f <- Send(next, fs, calls).replies :: PhoneFrame(f)
  {
    assert forall f <- Deliverable(fs) :: f in fs;
  }

  lemma ControlOwn(ms: seq<Member>)
    ensures forall f <- [Control(ms)] :: OwnFrame(f)
  {
  }

  lemma RepliesOwn(call: Call, answer: Answer, hash: bytes -> string)
    ensures forall f <- Replies(call, answer, hash) :: OwnFrame(f)
  {
    if answer.wav.Some? {
      SpokenOwn(call.id, answer.wav.value, hash);
    }
    assert OwnFrame(Control(AiResponse(answer.text)));
  }

  lemma SpokenOwn(id: Value, pcm: Pcm, hash: bytes -> string)
    ensures forall f <- Spoken(id, pcm, hash) :: OwnFrame(f)
  {
    var n := ChunkCount(|pcm.data|, CHUNK_SIZE);
    OwnPieces(AudioBegin(id, pcm, n, hash(pcm.data)), ChunkFrames(Split(pcm.data, CHUNK_SIZE, n)), AudioEnd(id),
              Spoken(id, pcm, hash));
  }

  lemma OwnPieces(first: seq<Member>, chunks: seq<Frame>, last: seq<Member>, fs: seq<Frame>)
    requires fs == [Control(first)] + chunks + [Control(last)] && forall f <- chunks :: f.kind == KIND_BINARY
    ensures forall f <- fs :: OwnFrame(f)
  {
    assert OwnFrame(Control(first)) && OwnFrame(Control(last));
  }

  lemma EventOwn(transfer: Option<Transfer>, e: Event, pipeline: Pipeline, hash: bytes -> string)
    ensures forall f <- OnEvent(transfer, e, pipeline, hash).replies :: PhoneFrame(f)
  {
    match e
    case GotChunk(payload) => ChunkOwn(transfer, payload);
    case EndImage =>
      if transfer.Some? {
        EndOwn(transfer.value, pipeline, hash);
      }
    case Garbled =>
    case BeginImage(_) =>
    case _ => QueryOwn(transfer, e, pipeline, hash);
  }

  lemma ChunkOwn(transfer: Option<Transfer>, payload: bytes)
    ensures forall f <- OnChunk(transfer, payload).replies :: PhoneFrame(f)
  {
    if transfer == None {
      StrayMeans(payload);
      OneOwn(None, CHUNK_FIRST);
    }
  }

  lemma StrayMeans(payload: bytes)
    ensures OnChunk(None, payload) == Send(None, [Control(CHUNK_FIRST)], [])
  {
  }

  lemma QueryOwn(transfer: Option<Transfer>, e: Event, pipeline: Pipeline, hash: bytes -> string)
    requires e.Ping? || e.Info? || e.Unhandled?
    ensures forall f <- OnEvent(transfer, e, pipeline, hash).replies :: PhoneFrame(f)
  {
    match e
    case Ping =>
      PingMeans(transfer, pipeline, hash);
      OneOwn(transfer, Pong());
    case Info =>
      InfoMeans(transfer, pipeline, hash);
      OneOwn(transfer, DeviceInfo());
    case Unhandled(what) =>
      UnhandledMeans(transfer, what, pipeline, hash);
      OneOwn(transfer, Unknown(what));
  }

  lemma OneOwn(transfer: Option<Transfer>, ms: seq<Member>)
    ensures forall f <- Send(transfer, [Control(ms)], []).replies :: PhoneFrame(f)
  {
    ControlOwn(ms);
    SendOwn(transfer, [Control(ms)], []);
  }

  lemma EndOwn(t: Transfer, pipeline: Pipeline, hash: bytes -> string)
    ensures forall f <- OnEnd(t, pipeline, hash).replies :: PhoneFrame(f)
  {
    var data := Finish(t.chunks, t.begin.announced, hash);
    if data.Some? {
      var call := Call(data.value, t.begin.media, t.begin.id);
      RepliesOwn(call, pipeline(call), hash);
      SendOwn(None, Replies(call, pipeline(call), hash), [call]);
    }
  }

  /** All that the phone ever writes are its own frames. */
  lemma {:induction false} ServeOwn(es: seq<Event>, pipeline: Pipeline, hash: bytes -> string)
    ensures forall f <- Serve(es, pipeline, hash).replies :: PhoneFrame(f)
  {
    if es != [] {
      var init, last := es[..|es| - 1], es[|es| - 1];
      ServeOwn(init, pipeline, hash);
      var before := Serve(init, pipeline, hash);
      if before.next.Serving? {
        EventOwn(before.next.transfer, last, pipeline, hash);
      }
    }
  }

  /** No message that the phone writes, over any run whatever, makes the device read a text without
      terminator. */
  lemma PhoneNeverUndefined(es: seq<Event>, pipeline: Pipeline, hash: bytes -> string, response: bytes)
    requires 0 !in response
    ensures Listen(EncodeAll(Serve(es, pipeline, hash).replies), response).how != Undefined
  {
    ServeOwn(es, pipeline, hash);
    ListenDefined(Serve(es, pipeline, hash).replies, response);
  }
}
