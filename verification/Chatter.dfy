/** The small talk beside a turn: ping and pong, device_info, and error replies. */
module Chatter {
  import opened Bytes
  import opened Framing
  import opened Json
  import opened JsonLookup
  import opened JsonReader
  import opened JsonRoundTrip
  import opened Messages
  import opened Server
  import opened Inbox
  import opened Device
  import opened Hearing
  import opened Exchange

  lemma OtherTypes()
    ensures Classify(Ascii("pong")) == PONG && Classify(Ascii("device_info")) == DEVICE_INFO
    ensures Classify(Ascii("error")) == ERROR
  {
    AsciiAt("device_info", "pong", 0);
    AsciiAt("error", "pong", 0);
    AsciiAt("error", "device_info", 0);
    AsciiAt("error", "ai_response", 0);
    AsciiAt("error", "play_audio", 0);
  }

  lemma PongUnderstood()
    ensures Understand(Dumps(Pong()), TEXT_CAP) == Some(Message(PONG, Some([])))
  {
    Understood(Pong(), 0, "pong", TEXT_CAP);
    OtherTypes();
  }

  lemma InfoUnderstood()
    ensures Understand(Dumps(DeviceInfo()), TEXT_CAP) == Some(Message(DEVICE_INFO, Some([])))
  {
    InfoOf(DeviceInfo());
  }

  lemma InfoOf(ms: seq<Member>)
    requires |ms| == 3 && ms[2] == Member("type", Text("device_info"))
    requires ms[0] == Member("device", Text("Sudonit Phone Brain")) && ms[1] == Member("firmware", Text("sim"))
    ensures Understand(Dumps(ms), TEXT_CAP) == Some(Message(DEVICE_INFO, Some([])))
  {
    InfoClear(ms);
    InfoRead(ms);
  }

  lemma InfoRead(ms: seq<Member>)
    requires |ms| == 3 && ms[2] == Member("type", Text("device_info")) && NoEarlierHit(ms, "type", 2)
    ensures Understand(Dumps(ms), TEXT_CAP) == Some(Message(DEVICE_INFO, Some([])))
  {
    Understood(ms, 2, "device_info", TEXT_CAP);
    OtherTypes();
  }

  lemma InfoClear(ms: seq<Member>)
    requires |ms| == 3
    requires ms[0] == Member("device", Text("Sudonit Phone Brain")) && ms[1] == Member("firmware", Text("sim"))
    ensures NoEarlierHit(ms, "type", 2)
  {
    InfoTexts();
  }

  lemma InfoTexts()
    ensures !Hit("device", "type") && !Hit("firmware", "type")
    ensures !Hit("Sudonit Phone Brain", "type") && !Hit("sim", "type")
  {
    assert AllPrintable("device") && AllPrintable("firmware");
    assert AllPrintable("Sudonit Phone Brain") && AllPrintable("sim");
    PrintableNoHit("device", "type");
    PrintableNoHit("firmware", "type");
    PrintableNoHit("Sudonit Phone Brain", "type");
    PrintableNoHit("sim", "type");
  }

  /** An error reply whose text does not hide the type is understood, with as much of the text as
      fits. */
  lemma ErrorUnderstood(code: nat, text: string)
    requires !Hit(text, "type")
    ensures Understand(Dumps(ErrorReply(code, text)), TEXT_CAP) == Some(Message(ERROR, Some(Shown(text))))
  {
    ErrorOf(ErrorReply(code, text), code, text);
  }

  lemma ErrorOf(ms: seq<Member>, code: nat, text: string)
    requires ms == [Member("code", Num(code)), Member("message", Text(text)), Member("type", Text("error"))]
    requires !Hit(text, "type")
    ensures Understand(Dumps(ms), TEXT_CAP) == Some(Message(ERROR, Some(Shown(text))))
  {
    ErrorTyped(ms, code, text);
    ErrorText(ms, code, text);
  }

  lemma ErrorTyped(ms: seq<Member>, code: nat, text: string)
    requires ms == [Member("code", Num(code)), Member("message", Text(text)), Member("type", Text("error"))]
    requires !Hit(text, "type")
    ensures 0 !in Dumps(ms)
    ensures Understand(Dumps(ms), TEXT_CAP) == Some(Message(ERROR, TextFor(ERROR, Dumps(ms), TEXT_CAP)))
  {
    assert AllPrintable("code") && AllPrintable("message");
    PrintableNoHit("code", "type");
    PrintableNoHit("message", "type");
    Understood(ms, 2, "error", TEXT_CAP);
    OtherTypes();
  }

  lemma ErrorText(ms: seq<Member>, code: nat, text: string)
    requires ms == [Member("code", Num(code)), Member("message", Text(text)), Member("type", Text("error"))]
    requires 0 !in Dumps(ms)
    ensures TextFor(ERROR, Dumps(ms), TEXT_CAP) == Some(Shown(text))
  {
    assert AllPrintable("code") && AllPrintable("message");
    PrintableNoHit("code", "message");
    StringRoundTrip(ms, "message", text, 1, TEXT_CAP);
    TextForError(Dumps(ms), Kept(ItemsOf(text), TEXT_CAP));
  }

  lemma TextForError(json: bytes, out: bytes)
    requires 0 !in json && GetStringResult(json, Ascii("message"), TEXT_CAP) == Read(true, out)
    ensures TextFor(ERROR, json, TEXT_CAP) == Some(CText(out))
  {
  }

  lemma ChatterFits()
    ensures |Dumps(Pong())| < RECV_CAP && |Dumps(DeviceInfo())| < RECV_CAP
  {
    var p, d := Pong(), DeviceInfo();
    TextMemberLength(p[0]);
    assert |Dumps(p)| == |MemberText(p[0])| + 2;
    TextMemberLength(d[0]);
    TextMemberLength(d[1]);
    TextMemberLength(d[2]);
    ThreeMembers(d);
  }

  /** While it waits for the end of its turn, the device passes over a pong or a device_info. */
  lemma ChatterIgnored(f: Frame, s: bytes, response: bytes)
    requires f == Control(Pong()) || f == Control(DeviceInfo())
    requires 0 !in response
    ensures Listen(Encode(f) + s, response) == Listen(s, response)
  {
    ChatterFits();
    if f == Control(Pong()) {
      PongUnderstood();
      Passed(f, PONG, s, response);
    } else {
      InfoUnderstood();
      Passed(f, DEVICE_INFO, s, response);
    }
  }

  lemma Passed(f: Frame, what: MsgType, s: bytes, response: bytes)
    requires f.kind == KIND_JSON && |f.payload| < RECV_CAP && 0 !in response && what in {PONG, DEVICE_INFO}
    requires Understand(f.payload, TEXT_CAP) == Some(Message(what, Some([])))
    ensures Listen(Encode(f) + s, response) == Listen(s, response)
  {
    ReceiveOf(f, s, TEXT_CAP);
  }

  /** An error reply ends its turn with an error, the answer so far kept. */
  lemma ErrorEndsTurn(code: nat, text: string, s: bytes, response: bytes)
    requires !Hit(text, "type") && |Dumps(ErrorReply(code, text))| < RECV_CAP && 0 !in response
    ensures Listen(Encode(Control(ErrorReply(code, text))) + s, response) == Turn(Refused, response, s)
  {
    ErrorUnderstood(code, text);
    RefusedBy(Control(ErrorReply(code, text)), Shown(text), s, response);
  }

  lemma RefusedBy(f: Frame, text: bytes, s: bytes, response: bytes)
    requires f.kind == KIND_JSON && |f.payload| < RECV_CAP && 0 !in response
    requires Understand(f.payload, TEXT_CAP) == Some(Message(ERROR, Some(text)))
    ensures Listen(Encode(f) + s, response) == Turn(Refused, response, s)
  {
    ReceiveOf(f, s, TEXT_CAP);
    ListenRefused(Encode(f) + s, text, s, response);
  }

  lemma ListenRefused(t: bytes, text: bytes, s: bytes, response: bytes)
    requires Receive(t, TEXT_CAP) == Ok((Message(ERROR, Some(text)), s)) && 0 !in response
    ensures Listen(t, response) == Turn(Refused, response, s)
  {
  }

  /** The firmware's ping. */
  function PingFrame(): Frame { Frame(KIND_JSON, PrintObject([TextField("type", Ascii("ping"))])) }

  lemma PingEvent()
    ensures EventOf(PingFrame()) == Ping
  {
    assert AllPrintable("type") && AllPrintable("ping");
    SameLiteral("type", "ping");
    PingRead([TextField("type", Ascii("ping"))], [Member("type", Text("ping"))]);
  }

  lemma PingRead(fs: seq<Field>, ms: seq<Member>)
    requires |fs| == 1 == |ms| && Same(fs[0], ms[0]) && ms[0] == Member("type", Text("ping"))
    ensures EventOf(Frame(KIND_JSON, PrintObject(fs))) == Ping
  {
    PrintedIsRead(fs, ms);
    GetAt(ms, 0);
  }

  lemma PongDelivered()
    ensures Deliverable([Control(Pong())]) == [Control(Pong())]
  {
    ChatterFits();
    AllDeliverable([Control(Pong())]);
  }

  /** A ping is answered by exactly a pong, at any time, and disturbs no transfer. */
  lemma PingPong(es: seq<Event>, pipeline: Pipeline, hash: bytes -> string)
    requires Serve(es, pipeline, hash).next.Serving?
    ensures var before := Serve(es, pipeline, hash);
            Serve(es + [EventOf(PingFrame())], pipeline, hash)
            == Effect(before.next, before.replies + [Control(Pong())], before.calls)
  {
    PingEvent();
    ServeStep(es, Ping, pipeline, hash);
    PongDelivered();
    var calls := Serve(es, pipeline, hash).calls;
    assert calls + [] == calls;
  }
}
