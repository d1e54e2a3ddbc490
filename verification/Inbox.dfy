/** The firmware's receiver for control messages: one frame, its type, and the text that goes with
    the type. */
module Inbox {
  import opened Bytes
  import opened Framing
  import opened Transport
  import opened Json
  import opened JsonReader
  import opened Uplink

  datatype MsgType = UNKNOWN | PONG | DEVICE_INFO | AI_RESPONSE | PLAY_AUDIO | AUDIO_BEGIN | ERROR

  const RECV_CAP: nat := 8192
  const TYPE_CAP: nat := 32

  /** The C string in a buffer that begins with these bytes and a terminator. */
  function CText(out: bytes): (t: bytes)
    ensures |t| <= |out| && 0 !in t
  {
    assert (out + [0])[|out|] == 0;
    CStr(out + [0])
  }

  function Classify(t: bytes): MsgType {
    if t == Ascii("pong") then PONG
    else if t == Ascii("device_info") then DEVICE_INFO
    else if t == Ascii("ai_response") then AI_RESPONSE
    else if t == Ascii("play_audio") then PLAY_AUDIO
    else if t == Ascii("error") then ERROR
    else if t == Ascii("audio_begin") then AUDIO_BEGIN
    else UNKNOWN
  }

  function TextKey(what: MsgType): Option<bytes> {
    match what
    case AI_RESPONSE => Some(Ascii("text"))
    case PLAY_AUDIO => Some(Ascii("content"))
    case ERROR => Some(Ascii("message"))
    case _ => None
  }

  /** The C string left in the caller's buffer of `cap` bytes, which began as the empty string. It
      is nothing when a bad escape stopped the reader after it had written bytes without a NUL: then
      no terminator is certain to follow. */
  function TextFor(what: MsgType, json: bytes, cap: nat): (r: Option<bytes>)
    requires cap > 0 && 0 !in json
    ensures r.Some? ==> |r.value| < cap && 0 !in r.value
  {
    if what == AUDIO_BEGIN then Some(json[..Min(|json|, cap - 1)])
    else match TextKey(what)
      case None => Some([])
      case Some(key) => BestEffort(GetStringResult(json, key, cap), cap)
  }

  function BestEffort(r: Read, cap: nat): (t: Option<bytes>)
    requires |r.out| < cap
    ensures t.Some? ==> |t.value| < cap && 0 !in t.value
  {
    if r.ok || r.out == [] || 0 in r.out then Some(CText(r.out)) else None
  }

  /** A message as the caller sees it. */
  datatype Message = Message(what: MsgType, text: Option<bytes>)

  /** What a payload means to the firmware; nothing if no type can be read. */
  function Understand(payload: bytes, cap: nat): (r: Option<Message>)
    requires cap > 0
    ensures r.Some? && r.value.text.Some? ==> |r.value.text.value| < cap && 0 !in r.value.text.value
  {
    var json := CText(payload);
    var t := GetStringResult(json, Ascii("type"), TYPE_CAP);
    if !t.ok then None
    else
      var what := Classify(CText(t.out));
      Some(Message(what, TextFor(what, json, cap)))
  }

  function Receive(s: bytes, cap: nat): (r: Result<(Message, bytes), Code>)
    requires cap > 0
    ensures r.Ok? ==> |r.value.1| < |s|
    ensures r.Ok? && r.value.0.text.Some? ==> |r.value.0.text.value| < cap && 0 !in r.value.0.text.value
    ensures r.Err? ==> r.error != OK
  {
    match CReceive(s, RECV_CAP - 1)
    case Failed(code) => Err(code)
    case Parsed(f, rest) =>
      if f.kind != KIND_JSON then Err(IO)
      else match Understand(f.payload, cap)
        case None => Err(IO)
        case Some(m) => Ok((m, rest))
  }

  // ---------- the firmware's code ----------

  /** The buffer begins with the C string `t`. */
  ghost predicate HoldsText(buf: bytes, t: bytes) {
    |t| < |buf| && buf[..|t|] == t && buf[|t|] == 0
  }

  lemma StoredText(now: bytes, was: bytes, out: bytes)
    requires Stored(now, was, out + [0])
    ensures HoldsText(now, CText(out))
  {
    var t := CText(out);
    assert now[..|t|] == (out + [0])[..|t|];
  }

  /** What becomes of a text buffer that held `was`: the bytes written over its beginning, with a
      terminator unless the reader failed. */
  ghost predicate TextLeft(what: MsgType, json: bytes, was: bytes, now: bytes)
    requires was != []
  {
    if what == AUDIO_BEGIN then Stored(now, was, json[..Min(|json|, |was| - 1)] + [0])
    else match TextKey(what)
      case None => now == was
      case Some(key) =>
        var r := GetStringResult(json, key, |was|);
        Stored(now, was, if r.ok then r.out + [0] else r.out)
  }

  /** Read the text that belongs to the type, as far as it goes. */
  method ReadText(json: bytes, what: MsgType, text: array<byte>)
    requires 0 !in json && text.Length > 0 && text[0] == 0
    modifies text
    ensures TextLeft(what, json, old(text[..]), text[..])
    ensures var t := TextFor(what, json, text.Length); t.Some? ==> HoldsText(text[..], t.value)
  {
    ghost var was := text[..];
    if what == AUDIO_BEGIN {
      var n := Print(text, json);
      assert text[..] == json[..Min(n, text.Length - 1)] + [0] + was[Min(n, text.Length - 1) + 1..];
    } else {
      var key := TextKey(what);
      if key.Some? {
        var err := GetString(json, key.value, text, text.Length);
      }
    }
    if TextFor(what, json, text.Length).Some? {
      TextHeld(what, json, was, text[..]);
    }
  }

  // ---------- when the text is terminated ----------

  /** Where a text is promised, the buffer holds it, whatever it held before. */
  lemma TextHeld(what: MsgType, json: bytes, was: bytes, now: bytes)
    requires 0 !in json && was != [] && was[0] == 0 && TextLeft(what, json, was, now)
    requires TextFor(what, json, |was|).Some?
    ensures HoldsText(now, TextFor(what, json, |was|).value)
  {
    if what != AUDIO_BEGIN && TextKey(what).Some? {
      BestEffortHeld(GetStringResult(json, TextKey(what).value, |was|), was, now);
    }
  }

  lemma BestEffortHeld(r: Read, was: bytes, now: bytes)
    requires |r.out| < |was| && was[0] == 0 && BestEffort(r, |was|).Some?
    requires Stored(now, was, if r.ok then r.out + [0] else r.out)
    ensures HoldsText(now, BestEffort(r, |was|).value)
  {
    if r.ok {
      StoredText(now, was, r.out);
    } else if r.out != [] {
      NulInside(r.out);
      assert now[..|r.out|] == r.out;
      assert forall i :: 0 <= i < |r.out| ==> now[i] == r.out[i];
    } else {
      assert now == was && CText([]) == [];
    }
  }

  /** With a NUL among the bytes the C string ends within them. */
  lemma NulInside(out: bytes)
    requires 0 in out
    ensures var t := CText(out); |t| < |out| && out[..|t|] == t && out[|t|] == 0
  {
    var t := CText(out);
    assert t == (out + [0])[..|t|];
    assert |t| == |out| ==> t == out;
  }

  /** A bad escape ended the value of the key after bytes were stored, none of them NUL. */
  predicate BadAfterText(json: bytes, key: bytes, cap: nat) {
    match ValueOf(json, key)
    case None => false
    case Some(v) =>
      && v != [] && v[0] == QUOTE && !Scan(v[1..]).ok
      && Kept(Scan(v[1..]).items, cap) != [] && 0 !in Kept(Scan(v[1..]).items, cap)
  }

  /** The text buffer is certain to be left terminated, whatever it held, if and only if the type has
      no text to read, or the value of its key has no bad escape, or nothing was stored before the
      bad escape, or what was stored contains a NUL. */
  lemma TerminatedExact(what: MsgType, json: bytes, cap: nat)
    requires cap > 0 && 0 !in json
    ensures (forall was, now :: |was| == cap && was[0] == 0 && TextLeft(what, json, was, now) ==> 0 in now)
            <==> !(TextKey(what).Some? && BadAfterText(json, TextKey(what).value, cap))
    ensures TextFor(what, json, cap).Some?
            <==> !(TextKey(what).Some? && BadAfterText(json, TextKey(what).value, cap))
  {
    if TextFor(what, json, cap).Some? {
      forall was, now | |was| == cap && was[0] == 0 && TextLeft(what, json, was, now) ensures 0 in now {
        TextHeld(what, json, was, now);
        assert now[|TextFor(what, json, cap).value|] == 0;
      }
    } else {
      var was, now := Unterminated(GetStringResult(json, TextKey(what).value, cap), cap);
      assert TextLeft(what, json, was, now);
    }
  }

  /** A buffer whose old content shows the missing terminator. */
  lemma Unterminated(r: Read, cap: nat) returns (was: bytes, now: bytes)
    requires |r.out| < cap && BestEffort(r, cap) == None
    ensures |was| == cap && was[0] == 0 && Stored(now, was, r.out) && 0 !in now
  {
    was := [0] + seq(cap - 1, i => 1);
    now := r.out + was[|r.out|..];
    assert forall i :: |r.out| <= i < cap ==> now[i] == was[i] == 1;
  }

  method ReadType(json: bytes) returns (err: Code, what: MsgType)
    requires 0 !in json
    ensures var t := GetStringResult(json, Ascii("type"), TYPE_CAP);
            && err == (if t.ok then OK else INVALID) && (t.ok ==> what == Classify(CText(t.out)))
  {
    var kind := new byte[TYPE_CAP];
    ghost var was := kind[..];
    what := UNKNOWN;
    err := GetString(json, Ascii("type"), kind, TYPE_CAP);
    if err != OK {
      return;
    }
    StoredText(kind[..], was, GetStringResult(json, Ascii("type"), TYPE_CAP).out);
    what := Classify(CStr(kind[..]));
    TextIsPrefix(kind[..], CText(GetStringResult(json, Ascii("type"), TYPE_CAP).out));
  }

  lemma TextIsPrefix(buf: bytes, t: bytes)
    requires HoldsText(buf, t) && 0 !in t
    ensures CStr(buf) == t
  {
    CStrUnique(buf, |t|);
  }

  method MsgRecv(t: Link, text: array<byte>) returns (err: Code, what: MsgType)
    requires text.Length > 0
    modifies t`incoming, text
    ensures err == OK ==> var r := Receive(old(t.incoming), text.Length);
                          && r.Ok? && t.incoming == r.value.1 && what == r.value.0.what
                          && (r.value.0.text.Some? ==> HoldsText(text[..], r.value.0.text.value))
    ensures err == OK ==> CReceive(old(t.incoming), RECV_CAP - 1).Parsed?
                          && TextLeft(what, CText(CReceive(old(t.incoming), RECV_CAP - 1).frame.payload),
                                      old(text[..])[0 := 0], text[..])
    ensures t.reliable && err != OK ==> Receive(old(t.incoming), text.Length) == Err(err)
  {
    text[0] := 0;
    what := UNKNOWN;
    var buf := new byte[RECV_CAP];
    var kind, len;
    err, kind, len := t.FrameRecv(buf, RECV_CAP - 1);
    if err != OK {
      return;
    }
    if kind != KIND_JSON {
      err := IO;
      return;
    }
    ghost var payload := buf[..len];
    buf[len] := 0;
    assert buf[..len + 1] == payload + [0];
    var json := CStr(buf[..len + 1]);
    err, what := ReadType(json);
    if err != OK {
      err := IO;
      return;
    }
    ReadText(json, what, text);
  }
}
