/** The phone's reader for flat messages, and its inverse relation to the writers. */
module JsonLoads {
  import opened Bytes
  import opened Decimals
  import opened Json
  import opened JsonLookup
  import opened JsonReader
  import opened JsonRoundTrip

  // ---------- the reader (flat objects of strings and non-negative integers, no blanks) ----------

  /** The character at the head of a text and the bytes it takes: an escape, or a raw character in
      UTF-8 that is no control character. Lone surrogates are not modelled. */
  function HeadChar(t: bytes): (r: Option<(char, nat)>)
    requires t != []
    ensures r.Some? ==> 1 <= r.value.1 <= |t|
  {
    if t[0] == BACKSLASH then
      match EscapeAt(t[1..])
      case None => None
      case Some((cp, n)) => Scalar(cp, 0, 1 + n)
    else if t[0] < 32 then None
    else Decode(t)
  }

  /** The text up to the closing quote, and what follows it. */
  function ParseText(t: bytes): (r: Option<(string, bytes)>)
    ensures r.Some? ==> |r.value.1| < |t|
  {
    if t == [] then None
    else if t[0] == QUOTE then Some(("", t[1..]))
    else match HeadChar(t)
      case None => None
      case Some((c, n)) =>
        match ParseText(t[n..])
        case None => None
        case Some((s, rest)) => Some(([c] + s, rest))
  }

  /** A number has no leading zero, and no fraction or exponent here. */
  function ParseNat(t: bytes): (r: Option<(nat, bytes)>)
    ensures r.Some? ==> |r.value.1| < |t|
  {
    var n := LeadingDigits(t);
    if n == 0 || (n > 1 && t[0] == 48) then None else Some((NatOf(t[..n]), t[n..]))
  }

  function ParseValue(t: bytes): (r: Option<(Value, bytes)>)
    ensures r.Some? ==> |r.value.1| < |t|
  {
    if t != [] && t[0] == QUOTE then
      match ParseText(t[1..])
      case None => None
      case Some((s, rest)) => Some((Text(s), rest))
    else
      match ParseNat(t)
      case None => None
      case Some((n, rest)) => Some((Num(n), rest))
  }

  function ParseAfterKey(k: string, t: bytes): (r: Option<(Member, bytes)>)
    ensures r.Some? ==> |r.value.1| < |t|
  {
    if t == [] || t[0] != COLON then None
    else match ParseValue(t[1..])
      case None => None
      case Some((v, rest)) => Some((Member(k, v), rest))
  }

  function ParseMember(t: bytes): (r: Option<(Member, bytes)>)
    ensures r.Some? ==> |r.value.1| < |t|
  {
    if t == [] || t[0] != QUOTE then None
    else match ParseText(t[1..])
      case None => None
      case Some((k, afterKey)) => ParseAfterKey(k, afterKey)
  }

  function ParseMembers(t: bytes): Option<seq<Member>>
    decreases |t|
  {
    match ParseMember(t)
    case None => None
    case Some((m, rest)) =>
      if rest == [CLOSE] then Some([m])
      else if rest == [] || rest[0] != COMMA then None
      else match ParseMembers(rest[1..])
        case None => None
        case Some(ms) => Some([m] + ms)
  }

  function Loads(t: bytes): Option<seq<Member>> {
    if t == [OPEN, CLOSE] then Some([])
    else if t == [] || t[0] != OPEN then None
    else ParseMembers(t[1..])
  }

  /** Dictionary lookup: a repeated key keeps its last value. */
  function Get(ms: seq<Member>, k: string): Option<Value> {
    if ms == [] then None
    else if ms[|ms| - 1].key == k then Some(ms[|ms| - 1].value)
    else Get(ms[..|ms| - 1], k)
  }

  // ---------- reading inverts writing ----------

  lemma {:induction false} ParseEscape(s: string, rest: bytes)
    ensures ParseText(Escape(s) + ([QUOTE] + rest)) == Some((s, rest))
  {
    var end := [QUOTE] + rest;
    if s == "" {
      assert Escape(s) + end == end;
      assert end[1..] == rest;
    } else {
      var u, t := EscapeChar(s[0]), Escape(s[1..]) + end;
      assert Escape(s) + end == u + t;
      ParseEscape(s[1..], rest);
      EscapedHead(s[0], t);
      DropHead(u, t);
      ParseTextStep(u + t, |u|, s[0], s[1..], rest);
      assert [s[0]] + s[1..] == s;
    }
  }

  lemma EscapedHead(c: char, t: bytes)
    ensures var e := EscapeChar(c) + t; e[0] != QUOTE && HeadChar(e) == Some((c, |EscapeChar(c)|))
  {
    HeadOfChar(c, t);
    EscapeCharShape(c);
    assert (EscapeChar(c) + t)[0] == EscapeChar(c)[0];
  }

  /** Characters that stand for themselves in a JSON text, when they are written in UTF-8. */
  predicate Pasteable(s: string) {
    forall c <- s :: c as int >= 32 && c != '"' && c != '\\'
  }

  lemma PrintableIsPasteable(s: string)
    requires AllPrintable(s)
    ensures Pasteable(s)
  {
  }

  lemma RawHead(c: char, t: bytes)
    requires c as int >= 32 && c != '"' && c != '\\'
    ensures var e := Utf8(c as int) + t; e[0] != QUOTE && HeadChar(e) == Some((c, |Utf8(c as int)|))
  {
    var e := Utf8(c as int) + t;
    LeadByte(c as int);
    DecodeExact(e, c, |Utf8(c as int)|);
    assert e[0] == Utf8(c as int)[0];
  }

  /** A text pasted in unescaped is read back as it is meant. */
  lemma {:induction false} ParsePasted(s: string, rest: bytes)
    requires Pasteable(s)
    ensures ParseText(Utf8All(s) + ([QUOTE] + rest)) == Some((s, rest))
  {
    var end := [QUOTE] + rest;
    if s == "" {
      assert Utf8All(s) + end == end;
      assert end[1..] == rest;
    } else {
      var u, t := Utf8(s[0] as int), Utf8All(s[1..]) + end;
      assert Utf8All(s) + end == u + t;
      assert s[0] in s && forall c <- s[1..] :: c in s;
      ParsePasted(s[1..], rest);
      RawHead(s[0], t);
      DropHead(u, t);
      ParseTextStep(u + t, |u|, s[0], s[1..], rest);
      assert [s[0]] + s[1..] == s;
    }
  }

  /** An escape takes more bytes than its character in UTF-8, so only raw characters take as many. */
  lemma HeadLength(t: bytes, c: char, n: nat)
    requires t != [] && t[0] != QUOTE && HeadChar(t) == Some((c, n))
    ensures n >= |Utf8(c as int)|
    ensures n == |Utf8(c as int)| ==> c as int >= 32 && c != '"' && c != '\\'
  {
    if t[0] != BACKSLASH {
      DecodeExact(t, c, n);
      LeadByte(c as int);
      assert t[0] == Utf8(c as int)[0];
    }
  }

  lemma {:induction false} ReadLength(t: bytes, s: string, rest: bytes)
    requires ParseText(t) == Some((s, rest))
    ensures |t| >= |Utf8All(s)| + 1 + |rest|
    ensures |t| == |Utf8All(s)| + 1 + |rest| ==> Pasteable(s)
    decreases |t|
  {
    if t[0] != QUOTE {
      var (c, n) := HeadChar(t).value;
      var (more, end) := ParseText(t[n..]).value;
      HeadLength(t, c, n);
      ReadLength(t[n..], more, end);
      assert s == [c] + more && s[1..] == more;
    }
  }

  /** A text pasted in unescaped is read back as it is meant if and only if it needs no escaping. */
  lemma PastedExact(s: string, rest: bytes)
    ensures ParseText(Utf8All(s) + ([QUOTE] + rest)) == Some((s, rest)) <==> Pasteable(s)
  {
    if Pasteable(s) {
      ParsePasted(s, rest);
    } else if ParseText(Utf8All(s) + ([QUOTE] + rest)) == Some((s, rest)) {
      ReadLength(Utf8All(s) + ([QUOTE] + rest), s, rest);
    }
  }

  lemma ParseTextStep(e: bytes, n: nat, c: char, s: string, rest: bytes)
    requires e != [] && e[0] != QUOTE && HeadChar(e) == Some((c, n))
    requires ParseText(e[n..]) == Some((s, rest))
    ensures ParseText(e) == Some(([c] + s, rest))
  {
  }

  lemma ParseToken(s: string, rest: bytes)
    ensures var t := Token(s) + rest; t[0] == QUOTE && ParseText(t[1..]) == Some((s, rest))
  {
    ParseEscape(s, rest);
    assert (Token(s) + rest)[1..] == Escape(s) + ([QUOTE] + rest);
  }

  lemma ParseDecimal(n: nat, rest: bytes)
    requires rest == [] || !IsDigit(rest[0])
    ensures ParseNat(Decimal(n) + rest) == Some((n, rest))
  {
    var d := Decimal(n);
    LeadingAll(d, rest);
    NatOfDecimal(n);
    assert (d + rest)[..|d|] == d && (d + rest)[|d|..] == rest;
  }

  lemma ParseValueText(v: Value, rest: bytes)
    requires rest != [] && !IsDigit(rest[0])
    ensures ParseValue(ValueText(v) + rest) == Some((v, rest))
  {
    match v
    case Text(s) => ParseToken(s, rest);
    case Num(n) =>
      ParseDecimal(n, rest);
      assert Decimal(n)[0] in Decimal(n);
  }

  lemma ParseColonValue(m: Member, rest: bytes)
    requires rest != [] && !IsDigit(rest[0])
    ensures ParseAfterKey(m.key, [COLON] + (ValueText(m.value) + rest)) == Some((m, rest))
  {
    var v := ValueText(m.value) + rest;
    assert ([COLON] + v)[1..] == v;
    ParseValueText(m.value, rest);
  }

  lemma ParseMemberText(m: Member, rest: bytes)
    requires rest != [] && !IsDigit(rest[0])
    ensures ParseMember(MemberText(m) + rest) == Some((m, rest))
  {
    MemberParts(m, rest);
    ParseMemberParts(MemberText(m) + rest, m, rest);
  }

  lemma ParseMemberParts(t: bytes, m: Member, rest: bytes)
    requires rest != [] && !IsDigit(rest[0])
    requires t == Token(m.key) + ([COLON] + (ValueText(m.value) + rest))
    ensures ParseMember(t) == Some((m, rest))
  {
    ParseToken(m.key, [COLON] + (ValueText(m.value) + rest));
    ParseColonValue(m, rest);
  }

  lemma {:induction false} ParseMembersText(ms: seq<Member>)
    requires ms != []
    ensures ParseMembers(MembersText(ms)) == Some(ms)
  {
    if |ms| == 1 {
      ParseMemberText(ms[0], [CLOSE]);
      assert ms == [ms[0]];
    } else {
      var rest := [COMMA] + MembersText(ms[1..]);
      assert MembersText(ms) == MemberText(ms[0]) + rest;
      ParseMemberText(ms[0], rest);
      assert rest[1..] == MembersText(ms[1..]);
      ParseMembersText(ms[1..]);
      assert [ms[0]] + ms[1..] == ms;
    }
  }

  /** Whatever flat message was written, reading it gives it back, for all strings. */
  lemma LoadsInvertsDumps(ms: seq<Member>)
    ensures Loads(Dumps(ms)) == Some(ms)
  {
    if ms != [] {
      ParseMembersText(ms);
      assert Dumps(ms)[1..] == MembersText(ms);
      assert MembersText(ms)[0] == QUOTE;
    }
  }

  /** So no two messages are written alike. */
  lemma DumpsInjective(a: seq<Member>, b: seq<Member>)
    requires Dumps(a) == Dumps(b)
    ensures a == b
  {
    LoadsInvertsDumps(a);
    LoadsInvertsDumps(b);
  }
}
