/** Texts pasted unescaped into the firmware's image_begin: the phone finds the id and the media type
    in it if and only if neither needs escaping, whatever members a text may add. */
module Pasted {
  import opened Bytes
  import opened Decimals
  import opened Json
  import opened JsonReader
  import opened JsonLoads
  import opened Messages

  // ---------- the end of a pasted text ----------

  /** The text ends in a closing quote, a comma and the opening quote of the next key. */
  ghost predicate Ends(t: bytes, w: bytes) {
    |t| >= |w| + 3 && t[|t| - |w| - 3..] == [QUOTE, COMMA, QUOTE] + w
  }

  /** Where reading can stand when it began before that end: still before it, just behind the closing
      quote, or behind the next key's opening quote, which it took for a closing one. */
  ghost predicate Within(t: bytes, w: bytes) {
    Ends(t, w) || t == [COMMA, QUOTE] + w || t == w
  }

  lemma DropWithin(t: bytes, w: bytes, n: nat)
    requires Ends(t, w) && n <= |t| - |w| - 2
    ensures n <= |t| - |w| - 3 ==> Ends(t[n..], w)
    ensures n == |t| - |w| - 2 ==> t[n..] == [COMMA, QUOTE] + w
  {
    var i := |t| - |w| - 3;
    if n <= i {
      assert t[n..][i - n..] == t[i..];
    } else {
      assert t[n..] == t[i..][1..];
    }
  }

  lemma QuoteAt(t: bytes, w: bytes)
    requires Ends(t, w)
    ensures t[|t| - |w| - 3] == QUOTE
  {
    assert t[|t| - |w| - 3] == t[|t| - |w| - 3..][0];
  }

  /** A quote is only ever the second of two bytes of a character. */
  lemma NoQuoteInside(t: bytes, c: char, n: nat)
    requires t != [] && t[0] != QUOTE && HeadChar(t) == Some((c, n)) && n > 2
    ensures forall i :: 0 < i < n ==> t[i] != QUOTE
  {
    if t[0] == BACKSLASH {
      NoQuoteInEscape(t[1..]);
      assert forall i :: 0 < i < n ==> t[i] == t[1..][i - 1];
    } else {
      DecodeExact(t, c, n);
      LeadByte(c as int);
      assert forall i :: 0 < i < n ==> t[i] == Utf8(c as int)[i];
    }
  }

  lemma NoQuoteInEscape(t: bytes)
    requires EscapeAt(t).Some? && EscapeAt(t).value.1 > 1
    ensures forall i :: 0 <= i < EscapeAt(t).value.1 ==> t[i] != QUOTE
  {
    NoQuoteInHex(t[1..]);
    if EscapeAt(t).value.1 > 5 {
      NoQuoteInHex(t[7..]);
      assert forall i :: 7 <= i < 11 ==> t[i] == t[7..][i - 7];
    }
    assert forall i :: 1 <= i < 5 ==> t[i] == t[1..][i - 1];
  }

  lemma NoQuoteInHex(t: bytes)
    requires Hex4(t).Some?
    ensures forall i :: 0 <= i < 4 ==> t[i] != QUOTE
  {
  }

  /** So a character that begins before the closing quote ends before it or takes it in, but no more. */
  lemma HeadWithin(t: bytes, w: bytes, c: char, n: nat)
    requires Ends(t, w) && t[0] != QUOTE && HeadChar(t) == Some((c, n))
    ensures n <= |t| - |w| - 2
  {
    var i := |t| - |w| - 3;
    QuoteAt(t, w);
    if n > 2 && i < n {
      NoQuoteInside(t, c, n);
    }
  }

  lemma CommaThenQuote(w: bytes)
    ensures ParseText([COMMA, QUOTE] + w) == Some((",", w))
  {
    var t := [COMMA, QUOTE] + w;
    assert t[1..] == [QUOTE] + w && t[1..][1..] == w;
    assert t[0] as char == ',' && HeadChar(t) == Some((',', 1));
    assert ParseText(t[1..]) == Some(("", w));
    ParseTextStep(t, 1, ',', "", w);
    assert [','] + "" == ",";
  }

  lemma {:induction false} TextWithin(t: bytes, w: bytes, s: string, rest: bytes)
    requires Ends(t, w) && ParseText(t) == Some((s, rest))
    ensures Within(rest, w)
    decreases |t|
  {
    if t[0] == QUOTE {
      DropWithin(t, w, 1);
    } else {
      var (c, n) := HeadChar(t).value;
      var (more, end) := ParseText(t[n..]).value;
      HeadWithin(t, w, c, n);
      DropWithin(t, w, n);
      if n == |t| - |w| - 2 {
        CommaThenQuote(w);
      } else {
        TextWithin(t[n..], w, more, end);
      }
    }
  }

  /** A text whose opening quote stands at the head, which may be the closing quote itself. */
  lemma QuotedWithin(t: bytes, w: bytes, s: string, rest: bytes)
    requires Ends(t, w) && ParseText(t[1..]) == Some((s, rest))
    ensures Within(rest, w)
  {
    DropWithin(t, w, 1);
    if |t| == |w| + 3 {
      CommaThenQuote(w);
    } else {
      TextWithin(t[1..], w, s, rest);
    }
  }

  lemma {:induction false} DigitsBefore(t: bytes, i: nat)
    requires i < |t| && !IsDigit(t[i])
    ensures LeadingDigits(t) <= i
  {
    if i > 0 && IsDigit(t[0]) {
      DigitsBefore(t[1..], i - 1);
    }
  }

  lemma ValueWithin(t: bytes, w: bytes, v: Value, rest: bytes)
    requires Ends(t, w) && ParseValue(t) == Some((v, rest))
    ensures Within(rest, w)
  {
    if t[0] == QUOTE {
      QuotedWithin(t, w, v.text, rest);
    } else {
      QuoteAt(t, w);
      DigitsBefore(t, |t| - |w| - 3);
      DropWithin(t, w, LeadingDigits(t));
    }
  }

  /** What stands behind the next key's opening quote cannot go on or end a member. */
  ghost predicate Dull(w: bytes) {
    w != [] && w[0] !in {COLON, COMMA, CLOSE}
  }

  /** A member that begins before the closing quote ends at it or before it, or nothing is read. */
  lemma MemberWithin(t: bytes, w: bytes, m: Member, rest: bytes)
    requires Ends(t, w) && Dull(w) && ParseMember(t) == Some((m, rest))
    ensures Within(rest, w)
  {
    var (k, colon) := ParseText(t[1..]).value;
    QuotedWithin(t, w, k, colon);
    assert colon[0] == COLON && Ends(colon, w);
    QuoteAt(colon, w);
    DropWithin(colon, w, 1);
    ValueWithin(colon[1..], w, m.value, rest);
  }

  /** A member takes more bytes than its text. */
  lemma MemberLength(t: bytes, m: Member, rest: bytes)
    requires ParseMember(t) == Some((m, rest)) && m.value.Text?
    ensures |t| >= |Utf8All(m.value.text)| + 4 + |rest|
  {
    var (k, colon) := ParseText(t[1..]).value;
    ReadLength(t[1..], k, colon);
    ReadLength(colon[1..][1..], m.value.text, rest);
  }

  /** The texts among some members all take fewer than `n` bytes. */
  ghost predicate Shorter(ms: seq<Member>, n: int) {
    forall i :: 0 <= i < |ms| && ms[i].value.Text? ==> |Utf8All(ms[i].value.text)| < n
  }

  lemma {:induction false} MembersShorter(t: bytes, ms: seq<Member>)
    requires ParseMembers(t) == Some(ms)
    ensures ms != [] && Shorter(ms, |t| - 3)
    decreases |t|
  {
    var (m, rest) := ParseMember(t).value;
    if m.value.Text? {
      MemberLength(t, m, rest);
    }
    if rest != [CLOSE] {
      MembersShorter(rest[1..], ms[1..]);
      assert forall i :: 0 < i < |ms| ==> ms[i] == ms[1..][i - 1];
    }
  }

  /** Members read from before the closing quote: those that end before the next key, and those from
      there on, which are read as if they stood alone. */
  lemma {:induction false} MembersWithin(t: bytes, w: bytes, ms: seq<Member>) returns (k: nat)
    requires Ends(t, w) && Dull(w) && ParseMembers(t) == Some(ms)
    ensures 0 < k <= |ms| && ParseMembers([QUOTE] + w) == Some(ms[k..])
    ensures Shorter(ms[..k], |t| - |w| - 3)
    decreases |t|
  {
    var (m, rest) := ParseMember(t).value;
    MemberWithin(t, w, m, rest);
    if m.value.Text? {
      MemberLength(t, m, rest);
    }
    assert rest[0] == COMMA && ms[0] == m;
    if Ends(rest, w) {
      QuoteAt(rest, w);
      DropWithin(rest, w, 1);
      var j := MembersWithin(rest[1..], w, ms[1..]);
      k := j + 1;
      Prepended(ms, j, |t| - |w| - 3);
    } else {
      k := 1;
      assert rest[1..] == [QUOTE] + w;
    }
  }

  lemma Prepended(ms: seq<Member>, j: nat, n: int)
    requires j < |ms| && Shorter(ms[1..][..j], n) && (ms[0].value.Text? ==> |Utf8All(ms[0].value.text)| < n)
    ensures ms[1..][j..] == ms[j + 1..] && Shorter(ms[..j + 1], n)
  {
    var front, back := ms[..j + 1], ms[1..][..j];
    assert forall i :: 0 < i <= j ==> front[i] == back[i - 1];
  }

  // ---------- lookup ----------

  lemma {:induction false} GetLast(ms: seq<Member>, k: string) returns (i: nat)
    requires Get(ms, k).Some?
    ensures i < |ms| && ms[i].key == k && Get(ms, k) == Some(ms[i].value)
    ensures forall j :: i < j < |ms| ==> ms[j].key != k
  {
    i := |ms| - 1;
    if ms[i].key != k {
      i := GetLast(ms[..i], k);
    }
  }

  // ---------- a pasted field ----------

  /** The field `"k":"text"` and what follows it, as it is read. */
  lemma PastedField(k: string, text: bytes, rest: bytes)
    requires AllPrintable(k)
    ensures var t := FieldText(TextField(k, text)) + rest;
            ParseMember(t) == match ParseText(text + ([QUOTE] + rest))
                              case None => None
                              case Some((s, end)) => Some((Member(k, Text(s)), end))
  {
    var v := [QUOTE] + (text + ([QUOTE] + rest));
    EscapePrintable(k);
    TextFieldParts(k, text, rest);
    ParseToken(k, [COLON] + v);
    assert ([COLON] + v)[1..] == v && v[1..] == text + ([QUOTE] + rest);
  }

  /** A field that is read as meant leaves the members behind it to be read as if they stood alone. */
  lemma FieldFirst(f: Field, m: Member, more: bytes, ms: seq<Member>)
    requires Same(f, m) && more != [] && ParseMembers(FieldText(f) + ([COMMA] + more)) == Some(ms)
    ensures ms != [] && ms[0] == m && ParseMembers(more) == Some(ms[1..])
  {
    var rest := [COMMA] + more;
    ParseField(f, m, rest);
    assert rest[1..] == more && |rest| > 1;
  }

  /** The last field: if the last value of its key is the text pasted in, the text needs no escaping,
      and no further member was read. */
  lemma LastField(k: string, s: string, ms: seq<Member>)
    requires AllPrintable(k) && ParseMembers(FieldText(TextField(k, Utf8All(s))) + [CLOSE]) == Some(ms)
    requires exists i :: 0 <= i < |ms| && ms[i] == Member(k, Text(s))
    ensures Pasteable(s) && ms == [Member(k, Text(s))]
  {
    var t := FieldText(TextField(k, Utf8All(s))) + [CLOSE];
    PastedField(k, Utf8All(s), [CLOSE]);
    var (m, rest) := ParseMember(t).value;
    var i :| 0 <= i < |ms| && ms[i] == Member(k, Text(s));
    var v := Utf8All(s) + ([QUOTE] + [CLOSE]);
    ReadLength(v, m.value.text, rest);
    LaterShorter(rest, ms, |Utf8All(s)|);
    assert i == 0;
    ParsePasted(s, [CLOSE]);
  }

  lemma LaterShorter(rest: bytes, ms: seq<Member>, n: nat)
    requires |ms| > 0 && |rest| <= n + 1
    requires |ms| > 1 ==> |rest| > 1 && ParseMembers(rest[1..]) == Some(ms[1..])
    ensures forall i :: 0 < i < |ms| && ms[i].value.Text? ==> |Utf8All(ms[i].value.text)| < n
  {
    if |ms| > 1 {
      MembersShorter(rest[1..], ms[1..]);
      assert forall i :: 0 < i < |ms| ==> ms[i] == ms[1..][i - 1];
    }
  }

  /** A field with more behind it: if some value read before the next key is the text pasted in, the
      text needs no escaping. */
  lemma InnerField(k: string, s: string, w: bytes, ms: seq<Member>) returns (n: nat)
    requires AllPrintable(k) && Dull(w)
    requires ParseMembers(FieldText(TextField(k, Utf8All(s))) + ([COMMA, QUOTE] + w)) == Some(ms)
    ensures 0 < n <= |ms| && ParseMembers([QUOTE] + w) == Some(ms[n..]) && ms[0].key == k
    ensures forall i :: 0 <= i < n && ms[i].value == Text(s) ==> Pasteable(s)
  {
    var next := [COMMA, QUOTE] + w;
    var t, v := FieldText(TextField(k, Utf8All(s))) + next, Utf8All(s) + ([QUOTE] + next);
    PastedField(k, Utf8All(s), next);
    var (m, rest) := ParseMember(t).value;
    PastedEnds(Utf8All(s), w, v);
    TextWithin(v, w, m.value.text, rest);
    ReadLength(v, m.value.text, rest);
    assert rest[0] == COMMA && ms[0] == m;
    n := 1;
    if Ends(rest, w) {
      n := InnerRest(s, w, ms, rest);
    } else {
      assert rest[1..] == [QUOTE] + w;
    }
  }

  lemma PastedEnds(text: bytes, w: bytes, v: bytes)
    requires v == text + ([QUOTE] + ([COMMA, QUOTE] + w))
    ensures Ends(v, w) && |v| == |text| + |w| + 3
  {
    assert v[|text|..] == [QUOTE, COMMA, QUOTE] + w;
  }

  /** What is read between the pasted text's first part and the next key is shorter than the text. */
  lemma InnerRest(s: string, w: bytes, ms: seq<Member>, rest: bytes) returns (n: nat)
    requires Ends(rest, w) && Dull(w) && rest[0] == COMMA && |rest| <= |Utf8All(s)| + |w| + 2
    requires ms != [] && ParseMembers(rest[1..]) == Some(ms[1..])
    ensures 1 < n <= |ms| && ParseMembers([QUOTE] + w) == Some(ms[n..])
    ensures forall i :: 0 < i < n ==> ms[i].value != Text(s)
  {
    QuoteAt(rest, w);
    DropWithin(rest, w, 1);
    var j := MembersWithin(rest[1..], w, ms[1..]);
    n := j + 1;
    assert ms[n..] == ms[1..][j..];
    assert forall i :: 0 < i < n ==> ms[i] == ms[1..][..j][i - 1];
  }

  // ---------- the begin message ----------

  /** The message gives back this id and this media type. */
  predicate GivesBack(payload: bytes, id: string, media: string) {
    match DecodeControl(payload)
    case None => false
    case Some(ms) => Get(ms, "image_id") == Some(Text(id)) && Get(ms, "media_type") == Some(Text(media))
  }

  /** The fields behind the id. */
  function Behind(len: nat, chunks: nat, sha: string, media: string): seq<Field> {
    [NumField("size", len), NumField("chunks", chunks), TextField("sha256", Ascii(sha)),
     TextField("media_type", Utf8All(media))]
  }

  /** Whatever is read of the fields behind the id, the members in front of the media type are those
      meant. */
  lemma ReadBehind(len: nat, chunks: nat, sha: string, media: string, ms: seq<Member>)
    requires AllPrintable(sha) && ParseMembers(FieldsText(Behind(len, chunks, sha, media))) == Some(ms)
    ensures |ms| > 3 && ms[0] == Member("size", Num(len)) && ms[1] == Member("chunks", Num(chunks))
    ensures ms[2] == Member("sha256", Text(sha))
    ensures ParseMembers(FieldText(TextField("media_type", Utf8All(media))) + [CLOSE]) == Some(ms[3..])
  {
    LiteralsPrintable();
    SameNumber("size", len);
    SameNumber("chunks", chunks);
    SameLiteral("sha256", sha);
    var fs := Behind(len, chunks, sha, media);
    ReadThree(fs, Member("size", Num(len)), Member("chunks", Num(chunks)), Member("sha256", Text(sha)), ms);
    assert fs[3..] == [TextField("media_type", Utf8All(media))];
  }

  lemma ReadThree(fs: seq<Field>, a: Member, b: Member, c: Member, ms: seq<Member>)
    requires |fs| > 3 && Same(fs[0], a) && Same(fs[1], b) && Same(fs[2], c) && ParseMembers(FieldsText(fs)) == Some(ms)
    ensures |ms| > 3 && ms[0] == a && ms[1] == b && ms[2] == c && ParseMembers(FieldsText(fs[3..])) == Some(ms[3..])
  {
    ReadOne(fs, a, ms);
    ReadOne(fs[1..], b, ms[1..]);
    ReadOne(fs[2..], c, ms[2..]);
    assert fs[1..][1..] == fs[2..] && fs[2..][1..] == fs[3..];
    assert ms[1..][1..] == ms[2..] && ms[2..][1..] == ms[3..];
    assert ParseMembers(FieldsText(fs[3..])) != Some([]);
  }

  lemma ReadOne(fs: seq<Field>, m: Member, ms: seq<Member>)
    requires |fs| > 1 && Same(fs[0], m) && ParseMembers(FieldsText(fs)) == Some(ms)
    ensures ms != [] && ms[0] == m && ParseMembers(FieldsText(fs[1..])) == Some(ms[1..])
  {
    FieldsSplit(fs);
    FieldFirst(fs[0], m, FieldsText(fs[1..]), ms);
  }

  lemma FieldsSplit(fs: seq<Field>)
    requires |fs| > 1
    ensures FieldsText(fs) == FieldText(fs[0]) + ([COMMA] + FieldsText(fs[1..]))
    ensures FieldsText(fs[1..]) != []
  {
    FieldsStart(fs[1..]);
    assert FieldsText(fs) == FieldText(fs[0]) + [COMMA] + FieldsText(fs[1..]);
    Assoc(FieldText(fs[0]), [COMMA], FieldsText(fs[1..]));
  }

  lemma FieldsStart(fs: seq<Field>)
    ensures FieldsText(fs) != []
  {
    if |fs| > 0 {
      assert |FieldText(fs[0])| > 0;
    }
  }

  /** The fields behind the id begin with a quote and the first letter of `size`. */
  lemma BehindIsDull(len: nat, chunks: nat, sha: string, media: string) returns (w: bytes)
    ensures FieldsText(Behind(len, chunks, sha, media)) == [QUOTE] + w && Dull(w)
  {
    var t := FieldsText(Behind(len, chunks, sha, media));
    FieldsSplit(Behind(len, chunks, sha, media));
    SizeFirst(len, t);
    w := t[1..];
  }

  lemma SizeFirst(len: nat, t: bytes)
    requires FieldText(NumField("size", len)) <= t
    ensures |t| > 1 && t[0] == QUOTE && t[1] == 115
  {
    var u := FieldText(NumField("size", len));
    assert u[0] == QUOTE && u[1] == 's' as int;
  }

  /** Where the looked-up values stand when the whole message was read: the id's before the size, the
      media type's behind the hash. */
  lemma ReadParts(id: string, len: nat, chunks: nat, sha: string, media: string, ms: seq<Member>) returns (n: nat)
    requires AllPrintable(sha)
    requires ParseMembers(FieldsText(BeginFields(Utf8All(id), len, chunks, Ascii(sha), Utf8All(media)))) == Some(ms)
    ensures 1 < n && n + 3 < |ms| && ms[1].key == "image_id"
    ensures ms[n].key == "size" && ms[n + 1].key == "chunks" && ms[n + 2].key == "sha256"
    ensures forall i :: 0 < i < n && ms[i].value == Text(id) ==> Pasteable(id)
    ensures ParseMembers(FieldText(TextField("media_type", Utf8All(media))) + [CLOSE]) == Some(ms[n + 3..])
  {
    var fs := BeginFields(Utf8All(id), len, chunks, Ascii(sha), Utf8All(media));
    ReadType(fs, ms);
    var j := ReadId(id, fs[1..], Behind(len, chunks, sha, media), ms[1..]);
    ReadBehind(len, chunks, sha, media, ms[1..][j..]);
    n := j + 1;
    PartsOf(ms, j);
  }

  lemma ReadType(fs: seq<Field>, ms: seq<Member>)
    requires |fs| > 1 && fs[0] == TextField("type", Ascii("image_begin")) && ParseMembers(FieldsText(fs)) == Some(ms)
    ensures ms != [] && ParseMembers(FieldsText(fs[1..])) == Some(ms[1..])
  {
    LiteralsPrintable();
    SameLiteral("type", "image_begin");
    ReadOne(fs, Member("type", Text("image_begin")), ms);
  }

  lemma ReadId(id: string, fs: seq<Field>, behind: seq<Field>, ms: seq<Member>) returns (n: nat)
    requires fs == [TextField("image_id", Utf8All(id))] + behind && ParseMembers(FieldsText(fs)) == Some(ms)
    requires exists len, chunks, sha, media :: behind == Behind(len, chunks, sha, media)
    ensures 0 < n <= |ms| && ParseMembers(FieldsText(behind)) == Some(ms[n..]) && ms[0].key == "image_id"
    ensures forall i :: 0 <= i < n && ms[i].value == Text(id) ==> Pasteable(id)
  {
    var len, chunks, sha, media :| behind == Behind(len, chunks, sha, media);
    var w := BehindIsDull(len, chunks, sha, media);
    FieldsSplit(fs);
    assert fs[1..] == behind && [COMMA] + ([QUOTE] + w) == [COMMA, QUOTE] + w;
    LiteralsPrintable();
    n := InnerField("image_id", id, w, ms);
  }

  lemma PartsOf(ms: seq<Member>, j: nat)
    requires ms != [] && j <= |ms| - 1
    ensures ms[1..][j..] == ms[j + 1..] && (|ms[j + 1..]| >= 3 ==> ms[j + 1..][3..] == ms[j + 4..])
    ensures forall i :: 0 < i <= j ==> ms[i] == ms[1..][i - 1]
  {
  }

  lemma OnlyPasteable(id: string, len: nat, chunks: nat, sha: string, media: string, ms: seq<Member>)
    requires AllPrintable(sha)
    requires ParseMembers(FieldsText(BeginFields(Utf8All(id), len, chunks, Ascii(sha), Utf8All(media)))) == Some(ms)
    requires Get(ms, "image_id") == Some(Text(id)) && Get(ms, "media_type") == Some(Text(media))
    ensures Pasteable(id) && Pasteable(media)
  {
    var n := ReadParts(id, len, chunks, sha, media, ms);
    var own := ms[n + 3..];
    LiteralsPrintable();
    PastedField("media_type", Utf8All(media), [CLOSE]);
    assert ms[n + 3] == own[0] && own[0].key == "media_type";
    var i := GetLast(ms, "media_type");
    assert own[i - n - 3] == Member("media_type", Text(media));
    LastField("media_type", media, own);
    var j := GetLast(ms, "image_id");
    IdBefore(ms, n, j);
  }

  lemma IdBefore(ms: seq<Member>, n: nat, j: nat)
    requires 1 < n && |ms| == n + 4 && j < |ms| && ms[j].key == "image_id" && ms[1].key == "image_id"
    requires forall i :: j < i < |ms| ==> ms[i].key != "image_id"
    requires ms[n].key == "size" && ms[n + 1].key == "chunks" && ms[n + 2].key == "sha256"
    requires ms[n + 3].key == "media_type"
    ensures 0 < j < n
  {
  }

  /** The phone gets the id and the media type back from the firmware's image_begin if and only if
      neither has a character that JSON escapes. No other text could make up for it by adding members:
      a value it adds is shorter than the text itself. */
  lemma BeginExact(id: string, len: nat, chunks: nat, sha: string, media: string)
    requires AllPrintable(sha)
    ensures GivesBack(PrintObject(BeginFields(Utf8All(id), len, chunks, Ascii(sha), Utf8All(media))), id, media)
            <==> Pasteable(id) && Pasteable(media)
  {
    var fs := BeginFields(Utf8All(id), len, chunks, Ascii(sha), Utf8All(media));
    if Pasteable(id) && Pasteable(media) {
      BeginUnderstood(id, len, chunks, sha, media);
      GetBegin(ImageBegin(id, len, chunks, sha, media));
    }
    if GivesBack(PrintObject(fs), id, media) {
      var ms := DecodeControl(PrintObject(fs)).value;
      LoadsFields(fs, ms);
      OnlyPasteable(id, len, chunks, sha, media, ms);
    }
  }

  lemma LoadsFields(fs: seq<Field>, ms: seq<Member>)
    requires fs != [] && DecodeControl(PrintObject(fs)) == Some(ms)
    ensures ParseMembers(FieldsText(fs)) == Some(ms)
  {
    assert PrintObject(fs)[1..] == FieldsText(fs);
    assert FieldsText(fs)[0] == QUOTE;
  }
}
