/** The control messages of the protocol: how the phone writes and reads them, and how the firmware
    prints its own. */
module Messages {
  import opened Bytes
  import opened Decimals
  import opened Framing
  import opened Chunks
  import opened Json
  import opened JsonLoads

  const KNOWN_TYPES: set<string> := {
    "ping", "pong", "device_info", "battery_status", "capture_request", "image_begin", "image_end",
    "analyze_image", "ai_response", "audio_begin", "audio_end", "play_audio", "stop_audio",
    "notification", "error"}

  // ---------- writing ----------

  /** Order of strings by code point. */
  predicate Less(a: string, b: string) {
    b != "" && (a == "" || a[0] < b[0] || (a[0] == b[0] && Less(a[1..], b[1..])))
  }

  /** A dictionary in the order it is written: keys strictly ascending. */
  ghost predicate Canonical(ms: seq<Member>) {
    forall i :: 0 <= i < |ms| - 1 ==> Less(ms[i].key, ms[i + 1].key)
  }

  /** The phone refuses to write a message of unknown type. */
  function EncodeControl(ms: seq<Member>): Option<bytes> {
    match Get(ms, "type")
    case Some(Text(t)) => if t in KNOWN_TYPES then Some(Dumps(ms)) else None
    case _ => None
  }

  function Control(ms: seq<Member>): Frame { Frame(KIND_JSON, Dumps(ms)) }

  function Pong(): seq<Member> { [Member("type", Text("pong"))] }

  function DeviceInfo(): seq<Member> {
    [Member("device", Text("Sudonit Phone Brain")), Member("firmware", Text("sim")),
     Member("type", Text("device_info"))]
  }

  function ErrorReply(code: nat, message: string): seq<Member> {
    [Member("code", Num(code)), Member("message", Text(message)), Member("type", Text("error"))]
  }

  function AiResponse(text: string): seq<Member> {
    [Member("text", Text(text)), Member("type", Text("ai_response"))]
  }

  datatype Pcm = Pcm(data: bytes, rate: nat, channels: nat)

  function AudioBegin(id: Value, pcm: Pcm, chunks: nat, sha: string): seq<Member> {
    [Member("audio_id", id), Member("channels", Num(pcm.channels)), Member("chunks", Num(chunks)),
     Member("format", Text("pcm_s16le")), Member("sample_rate", Num(pcm.rate)), Member("sha256", Text(sha)),
     Member("size", Num(|pcm.data|)), Member("type", Text("audio_begin"))]
  }

  function AudioEnd(id: Value): seq<Member> {
    [Member("audio_id", id), Member("type", Text("audio_end"))]
  }

  lemma RepliesCanonical(code: nat, s: string, id: Value)
    ensures Canonical(Pong()) && Canonical(DeviceInfo()) && Canonical(ErrorReply(code, s))
    ensures Canonical(AiResponse(s)) && Canonical(AudioEnd(id))
  {
    LessAt("device", "firmware", 0);
    LessAt("firmware", "type", 0);
    LessAt("code", "message", 0);
    LessAt("message", "type", 0);
    LessAt("text", "type", 1);
    LessAt("audio_id", "type", 0);
  }

  lemma AudioBeginCanonical(id: Value, pcm: Pcm, chunks: nat, sha: string)
    ensures Canonical(AudioBegin(id, pcm, chunks, sha))
  {
    FirstKeysAscend();
    LastKeysAscend();
  }

  lemma FirstKeysAscend()
    ensures Less("audio_id", "channels") && Less("channels", "chunks") && Less("chunks", "format")
  {
    LessAt("audio_id", "channels", 0);
    LessAt("channels", "chunks", 2);
    LessAt("chunks", "format", 0);
  }

  lemma LastKeysAscend()
    ensures Less("format", "sample_rate") && Less("sample_rate", "sha256")
    ensures Less("sha256", "size") && Less("size", "type")
  {
    LessAt("format", "sample_rate", 0);
    LessAt("sample_rate", "sha256", 1);
    LessAt("sha256", "size", 1);
    LessAt("size", "type", 0);
  }

  /** Strings that agree up to position `i` and differ there. */
  lemma {:induction false} LessAt(a: string, b: string, i: nat)
    requires i < |a| && i < |b| && a[..i] == b[..i] && a[i] < b[i]
    ensures Less(a, b)
  {
    if i > 0 {
      assert a[..i][0] == b[..i][0];
      assert a[1..][..i - 1] == a[..i][1..] == b[..i][1..] == b[1..][..i - 1];
      LessAt(a[1..], b[1..], i - 1);
    }
  }

  // ---------- reading ----------

  /** The phone accepts a flat object that has a type. */
  function DecodeControl(payload: bytes): Option<seq<Member>> {
    match Loads(payload)
    case None => None
    case Some(ms) => if Get(ms, "type") == None then None else Some(ms)
  }

  /** `int(value)` on what a flat message can hold; of strings only plain digits. */
  function IntOf(v: Value): Option<nat> {
    match v
    case Num(n) => Some(n)
    case Text(s) =>
      if s != "" && forall i :: 0 <= i < |s| ==> '0' <= s[i] <= '9' then Some(NatOf(Ascii(s))) else None
  }

  function RequireInt(ms: seq<Member>, k: string): Option<nat> {
    match Get(ms, k)
    case None => None
    case Some(v) => IntOf(v)
  }

  /** What the phone keeps of an image_begin. */
  datatype Begin = Begin(announced: Announced, id: Value, media: Value)

  /** A digest is compared as a string; what is no string equals no digest, as "" does. */
  function TextOr(v: Value): string {
    match v
    case Text(s) => s
    case Num(_) => ""
  }

  function ParseBegin(ms: seq<Member>): Option<Begin> {
    match (Get(ms, "image_id"), RequireInt(ms, "size"), RequireInt(ms, "chunks"), Get(ms, "sha256"))
    case (Some(id), Some(size), Some(chunks), Some(sha)) =>
      var media := match Get(ms, "media_type") case None => Text("image/png") case Some(v) => v;
      Some(Begin(Announced(size, chunks, TextOr(sha)), id, media))
    case _ => None
  }

  // ---------- what the firmware prints ----------

  const BEGIN_CAP: nat := 256
  const END_CAP: nat := 128

  /** `"key":"text"` with the text pasted in as it is, or `"key":number`. */
  datatype Field = TextField(key: string, text: bytes) | NumField(key: string, num: nat)

  function FieldText(f: Field): bytes {
    [QUOTE] + Ascii(f.key) + [QUOTE] + [COLON]
    + (match f case TextField(_, text) => [QUOTE] + text + [QUOTE] case NumField(_, n) => Decimal(n))
  }

  function FieldsText(fs: seq<Field>): bytes {
    if fs == [] then [CLOSE]
    else if |fs| == 1 then FieldText(fs[0]) + [CLOSE]
    else FieldText(fs[0]) + [COMMA] + FieldsText(fs[1..])
  }

  /** The object that the fields make. */
  function PrintObject(fs: seq<Field>): bytes { [OPEN] + FieldsText(fs) }

  /** The fields of the image_begin format, filled in. */
  function BeginFields(id: bytes, len: nat, chunks: nat, sha: bytes, media: bytes): seq<Field> {
    [TextField("type", Ascii("image_begin")), TextField("image_id", id), NumField("size", len),
     NumField("chunks", chunks), TextField("sha256", sha), TextField("media_type", media)]
  }

  function EndFields(id: bytes): seq<Field> {
    [TextField("type", Ascii("image_end")), TextField("image_id", id)]
  }

  function ImageBegin(id: string, len: nat, chunks: nat, sha: string, media: string): seq<Member> {
    [Member("type", Text("image_begin")), Member("image_id", Text(id)), Member("size", Num(len)),
     Member("chunks", Num(chunks)), Member("sha256", Text(sha)), Member("media_type", Text(media))]
  }

  function ImageEnd(id: string): seq<Member> {
    [Member("type", Text("image_end")), Member("image_id", Text(id))]
  }

  /** The field is that member, and no character of either needs escaping. */
  predicate Same(f: Field, m: Member) {
    && f.key == m.key && AllPrintable(f.key)
    && match (f, m.value)
       case (TextField(_, text), Text(s)) => Pasteable(s) && text == Utf8All(s)
       case (NumField(_, n), Num(n')) => n == n'
       case _ => false
  }

  lemma ParseField(f: Field, m: Member, rest: bytes)
    requires Same(f, m) && rest != [] && !IsDigit(rest[0])
    ensures ParseMember(FieldText(f) + rest) == Some((m, rest))
  {
    EscapePrintable(f.key);
    match f
    case TextField(k, text) =>
      var v := [QUOTE] + (text + ([QUOTE] + rest));
      ParsePasted(m.value.text, rest);
      assert v[1..] == text + ([QUOTE] + rest);
      TextFieldParts(k, text, rest);
      ParseFieldParts(k, m.value, v, rest);
    case NumField(k, n) =>
      var v := Decimal(n) + rest;
      ParseValueText(Num(n), rest);
      NumFieldParts(k, n, rest);
      ParseFieldParts(k, m.value, v, rest);
  }

  lemma TextFieldParts(k: string, text: bytes, rest: bytes)
    requires Escape(k) == Ascii(k)
    ensures FieldText(TextField(k, text)) + rest == Token(k) + ([COLON] + ([QUOTE] + (text + ([QUOTE] + rest))))
  {
  }

  lemma NumFieldParts(k: string, n: nat, rest: bytes)
    requires Escape(k) == Ascii(k)
    ensures FieldText(NumField(k, n)) + rest == Token(k) + ([COLON] + (Decimal(n) + rest))
  {
  }

  lemma ParseFieldParts(k: string, v: Value, t: bytes, rest: bytes)
    requires ParseValue(t) == Some((v, rest))
    ensures ParseMember(Token(k) + ([COLON] + t)) == Some((Member(k, v), rest))
  {
    ParseToken(k, [COLON] + t);
    assert ([COLON] + t)[1..] == t;
  }

  lemma {:induction false} ParseFields(fs: seq<Field>, ms: seq<Member>)
    requires fs != [] && SameAll(fs, ms)
    ensures ParseMembers(FieldsText(fs)) == Some(ms)
  {
    if |fs| == 1 {
      ParseField(fs[0], ms[0], [CLOSE]);
      assert ms == [ms[0]];
    } else {
      var rest := [COMMA] + FieldsText(fs[1..]);
      assert FieldsText(fs) == FieldText(fs[0]) + rest;
      ParseField(fs[0], ms[0], rest);
      ParseFields(fs[1..], ms[1..]);
      ParseMore(FieldsText(fs), ms[0], ms[1..], rest, FieldsText(fs[1..]));
      assert [ms[0]] + ms[1..] == ms;
    }
  }

  lemma ParseMore(t: bytes, m: Member, ms: seq<Member>, rest: bytes, more: bytes)
    requires ParseMember(t) == Some((m, rest)) && rest == [COMMA] + more && more != []
    requires ParseMembers(more) == Some(ms)
    ensures ParseMembers(t) == Some([m] + ms)
  {
    assert rest[1..] == more && |rest| > 1;
  }

  predicate Plain(m: Member) { m.value.Text? ==> AllPrintable(m.value.text) }

  lemma FieldIsMember(f: Field, m: Member)
    requires Same(f, m) && Plain(m)
    ensures FieldText(f) == MemberText(m)
  {
    EscapePrintable(f.key);
    if m.value.Text? {
      EscapePrintable(m.value.text);
    }
  }

  ghost predicate SameAll(fs: seq<Field>, ms: seq<Member>) {
    |fs| == |ms| && forall i :: 0 <= i < |fs| ==> Same(fs[i], ms[i])
  }

  lemma {:induction false} FieldsAreMembers(fs: seq<Field>, ms: seq<Member>)
    requires SameAll(fs, ms) && forall i :: 0 <= i < |ms| ==> Plain(ms[i])
    ensures FieldsText(fs) == MembersText(ms)
  {
    if fs != [] {
      FieldIsMember(fs[0], ms[0]);
      FieldsAreMembers(fs[1..], ms[1..]);
    }
  }

  /** When nothing needs escaping, the phone reads back the members meant, in whatever script they
      are; and what is printed in printable ASCII is exactly what the phone itself would write. */
  lemma PrintedIsRead(fs: seq<Field>, ms: seq<Member>)
    requires SameAll(fs, ms)
    ensures Loads(PrintObject(fs)) == Some(ms)
    ensures (forall i :: 0 <= i < |ms| ==> Plain(ms[i])) ==> PrintObject(fs) == Dumps(ms)
  {
    if fs != [] {
      ParseFields(fs, ms);
      assert PrintObject(fs)[1..] == FieldsText(fs);
      assert FieldsText(fs)[0] == QUOTE;
    }
    if forall i :: 0 <= i < |ms| ==> Plain(ms[i]) {
      FieldsAreMembers(fs, ms);
    }
  }

  lemma LiteralsPrintable()
    ensures AllPrintable("type") && AllPrintable("image_begin") && AllPrintable("image_end")
    ensures AllPrintable("image_id") && AllPrintable("size") && AllPrintable("chunks")
    ensures AllPrintable("sha256") && AllPrintable("media_type")
  {
  }

  lemma SameText(k: string, s: string)
    requires AllPrintable(k) && Pasteable(s)
    ensures Same(TextField(k, Utf8All(s)), Member(k, Text(s)))
  {
  }

  lemma SameLiteral(k: string, s: string)
    requires AllPrintable(k) && AllPrintable(s)
    ensures Same(TextField(k, Ascii(s)), Member(k, Text(s)))
  {
    EscapePrintable(s);
    PrintableIsPasteable(s);
  }

  lemma SixSame(fs: seq<Field>, ms: seq<Member>)
    requires |fs| == 6 == |ms| && Same(fs[0], ms[0]) && Same(fs[1], ms[1]) && Same(fs[2], ms[2])
    requires Same(fs[3], ms[3]) && Same(fs[4], ms[4]) && Same(fs[5], ms[5])
    ensures SameAll(fs, ms)
  {
  }

  lemma SameNumber(k: string, n: nat)
    requires AllPrintable(k)
    ensures Same(NumField(k, n), Member(k, Num(n)))
  {
  }

  /** The phone reads the firmware's image_begin back field by field. */
  lemma BeginUnderstood(id: string, len: nat, chunks: nat, sha: string, media: string)
    requires Pasteable(id) && AllPrintable(sha) && Pasteable(media)
    ensures var ms := ImageBegin(id, len, chunks, sha, media);
            && DecodeControl(PrintObject(BeginFields(Utf8All(id), len, chunks, Ascii(sha), Utf8All(media)))) == Some(ms)
            && Get(ms, "type") == Some(Text("image_begin"))
            && ParseBegin(ms) == Some(Begin(Announced(len, chunks, sha), Text(id), Text(media)))
  {
    BeginSame(id, len, chunks, sha, media);
    PrintedIsRead(BeginFields(Utf8All(id), len, chunks, Ascii(sha), Utf8All(media)),
                  ImageBegin(id, len, chunks, sha, media));
    BeginParsed(id, len, chunks, sha, media);
  }

  lemma BeginSame(id: string, len: nat, chunks: nat, sha: string, media: string)
    requires Pasteable(id) && AllPrintable(sha) && Pasteable(media)
    ensures SameAll(BeginFields(Utf8All(id), len, chunks, Ascii(sha), Utf8All(media)),
                    ImageBegin(id, len, chunks, sha, media))
  {
    LiteralsPrintable();
    SameLiteral("type", "image_begin");
    SameText("image_id", id);
    SameNumber("size", len);
    SameNumber("chunks", chunks);
    SameLiteral("sha256", sha);
    SameText("media_type", media);
    SixSame(BeginFields(Utf8All(id), len, chunks, Ascii(sha), Utf8All(media)), ImageBegin(id, len, chunks, sha, media));
  }

  lemma BeginParsed(id: string, len: nat, chunks: nat, sha: string, media: string)
    ensures var ms := ImageBegin(id, len, chunks, sha, media);
            && Get(ms, "type") == Some(Text("image_begin"))
            && ParseBegin(ms) == Some(Begin(Announced(len, chunks, sha), Text(id), Text(media)))
  {
    GetBegin(ImageBegin(id, len, chunks, sha, media));
  }

  lemma GetBegin(ms: seq<Member>)
    requires |ms| == 6 && ms[0].key == "type" && ms[1].key == "image_id" && ms[2].key == "size"
    requires ms[3].key == "chunks" && ms[4].key == "sha256" && ms[5].key == "media_type"
    ensures Get(ms, "type") == Some(ms[0].value) && Get(ms, "image_id") == Some(ms[1].value)
    ensures Get(ms, "size") == Some(ms[2].value) && Get(ms, "chunks") == Some(ms[3].value)
    ensures Get(ms, "sha256") == Some(ms[4].value) && Get(ms, "media_type") == Some(ms[5].value)
  {
    GetAt(ms, 0);
    GetAt(ms, 1);
    GetAt(ms, 2);
    GetAt(ms, 3);
    GetAt(ms, 4);
    GetAt(ms, 5);
  }

  /** With no later member of the same key, lookup gives the member's value. */
  lemma {:induction false} GetAt(ms: seq<Member>, i: nat)
    requires i < |ms| && forall j :: i < j < |ms| ==> ms[j].key != ms[i].key
    ensures Get(ms, ms[i].key) == Some(ms[i].value)
  {
    if i < |ms| - 1 {
      GetAt(ms[..|ms| - 1], i);
    }
  }

  lemma EndUnderstood(id: string)
    requires Pasteable(id)
    ensures DecodeControl(PrintObject(EndFields(Utf8All(id)))) == Some(ImageEnd(id))
    ensures Get(ImageEnd(id), "type") == Some(Text("image_end"))
  {
    EndSame(id);
    EndParsed(ImageEnd(id));
    FieldsDecoded(EndFields(Utf8All(id)), ImageEnd(id));
  }

  lemma EndSame(id: string)
    requires Pasteable(id)
    ensures SameAll(EndFields(Utf8All(id)), ImageEnd(id))
  {
    LiteralsPrintable();
    SameLiteral("type", "image_end");
    SameText("image_id", id);
    TwoSame(EndFields(Utf8All(id)), ImageEnd(id));
  }

  lemma TwoSame(fs: seq<Field>, ms: seq<Member>)
    requires |fs| == 2 == |ms| && Same(fs[0], ms[0]) && Same(fs[1], ms[1])
    ensures SameAll(fs, ms)
  {
  }

  lemma EndParsed(ms: seq<Member>)
    requires |ms| == 2 && ms[0].key == "type" && ms[1].key == "image_id"
    ensures Get(ms, "type") == Some(ms[0].value)
  {
    GetAt(ms, 0);
  }

  lemma FieldsDecoded(fs: seq<Field>, ms: seq<Member>)
    requires SameAll(fs, ms) && Get(ms, "type").Some?
    ensures DecodeControl(PrintObject(fs)) == Some(ms)
  {
    PrintedIsRead(fs, ms);
  }
}
