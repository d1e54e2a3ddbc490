/** Finding a member by searching for its quoted key: when the first occurrence is the member. */
module JsonLookup {
  import opened Bytes
  import opened Decimals
  import opened Json

  /** C's strstr: the first position at which `needle` occurs. */
  function Find(t: bytes, needle: bytes): Option<nat> {
    if needle <= t then Some(0)
    else if t == [] then None
    else match Find(t[1..], needle)
      case None => None
      case Some(i) => Some(i + 1)
  }

  /** The needle occurs at `p` and nowhere before. */
  ghost predicate FirstAt(t: bytes, needle: bytes, p: nat) {
    p <= |t| && needle <= t[p..] && forall q :: 0 <= q < p ==> !(needle <= t[q..])
  }

  /** `Find` returns the first occurrence, or nothing when there is none. */
  lemma {:induction false} FindIsFirst(t: bytes, needle: bytes, p: nat)
    ensures Find(t, needle) == Some(p) <==> FirstAt(t, needle, p)
    ensures p <= |t| && needle <= t[p..] ==> Find(t, needle).Some? && Find(t, needle).value <= p
  {
    assert t[0..] == t;
    if t != [] && p > 0 {
      FindIsFirst(t[1..], needle, p - 1);
      assert p <= |t| ==> t[1..][p - 1..] == t[p..];
      assert forall q :: 0 <= q < |t| ==> t[1..][q..] == t[q + 1..];
      if FirstAt(t[1..], needle, p - 1) && !(needle <= t) {
        forall q | 0 <= q < p ensures !(needle <= t[q..]) {
          assert q > 0 ==> t[1..][q - 1..] == t[q..];
        }
      }
    }
  }

  ghost predicate NoMatchIn(seg: bytes, rest: bytes, needle: bytes) {
    forall i :: 0 <= i < |seg| ==> !(needle <= (seg + rest)[i..])
  }

  lemma FirstSkip(seg: bytes, rest: bytes, needle: bytes, p: nat)
    requires NoMatchIn(seg, rest, needle) && FirstAt(rest, needle, p)
    ensures FirstAt(seg + rest, needle, |seg| + p)
  {
    var t := seg + rest;
    assert t[|seg| + p..] == rest[p..];
    forall q | |seg| <= q < |seg| + p ensures !(needle <= t[q..]) {
      assert t[q..] == rest[q - |seg|..];
    }
  }

  // ---------- keys ----------

  /** A key that needs no escaping and does not begin like the text after a string. */
  predicate PlainKey(k: string) {
    k != "" && AllPrintable(k) && k[0] !in {':', ',', '}'}
  }

  function Needle(k: string): bytes { [QUOTE] + Ascii(k) + [QUOTE] }

  /** The text ends in a quote followed by the key. */
  predicate EndsQuoted(s: string, k: string) {
    |s| > |k| && s[|s| - |k| - 1] == '"' && s[|s| - |k|..] == k
  }

  /** The same for bytes. */
  predicate EndsQuotedBytes(b: bytes, k: bytes) {
    |b| > |k| && b[|b| - |k| - 1] == QUOTE && b[|b| - |k|..] == k
  }

  /** A string in which the quoted key turns up: it is the key, or it ends in a quote and the key. */
  predicate Hit(s: string, k: string) {
    s == k || EndsQuoted(s, k)
  }

  lemma PrintableBytes(k: string, i: nat)
    requires AllPrintable(k) && i < |k|
    ensures Ascii(k)[i] == k[i] as int && Ascii(k)[i] != QUOTE && Ascii(k)[i] != BACKSLASH
  {
    assert k[i] in k;
  }

  /** The last escape of a text that ends in a quote and a plain key is the key's last character,
      or the quote itself. */
  lemma LastEscape(e: bytes, c: char, k: string)
    requires AllPrintable(k)
    requires var u := EscapeChar(c); |u| <= |e| && u == e[|e| - |u|..]
    requires EndsQuotedBytes(e, Ascii(k))
    ensures k == "" ==> c == '"'
    ensures k != "" ==> Printable(c) && c == k[|k| - 1]
  {
    var u, tail := EscapeChar(c), Ascii(k);
    if k == "" {
      assert u[|u| - 1] == e[|e| - 1] == QUOTE;
      EscapeCharShape(c);
    } else if |k| >= |u| {
      assert u[|u| - 1] == e[|e| - 1] == tail[|k| - 1];
      assert u[0] == e[|e| - |u|] == tail[|k| - |u|];
      PrintableBytes(k, |k| - |u|);
      PrintableBytes(k, |k| - 1);
      EscapeCharShape(c);
    } else {
      assert u[|u| - |k| - 1] == e[|e| - |k| - 1] == QUOTE;
      EscapeCharShape(c);
      assert false;
    }
  }

  lemma EndsQuotedOneMore(s: string, k: string, c: char)
    ensures EndsQuoted(s, k) <==> EndsQuoted(s + [c], k + [c])
  {
    if |s| > |k| {
      assert (s + [c])[|s| - |k|..] == s[|s| - |k|..] + [c];
      assert (s[|s| - |k|..] + [c])[..|k|] == s[|s| - |k|..] && (k + [c])[..|k|] == k;
    }
  }

  lemma BytesOneMore(e: bytes, k: bytes, c: byte)
    ensures EndsQuotedBytes(e, k) <==> EndsQuotedBytes(e + [c], k + [c])
  {
    if |e| > |k| {
      assert (e + [c])[|e| - |k|..] == e[|e| - |k|..] + [c];
      assert (e[|e| - |k|..] + [c])[..|k|] == e[|e| - |k|..] && (k + [c])[..|k|] == k;
    }
  }

  lemma SuffixStep(s: string, c: char, k: string, e: bytes)
    requires AllPrintable(k)
    requires k != "" ==> (EndsQuotedBytes(e, Ascii(k[..|k| - 1])) <==> EndsQuoted(s, k[..|k| - 1]))
    ensures EndsQuotedBytes(e + EscapeChar(c), Ascii(k)) <==> EndsQuoted(s + [c], k)
  {
    if EndsQuotedBytes(e + EscapeChar(c), Ascii(k)) {
      LastEscape(e + EscapeChar(c), c, k);
    }
    if k == "" {
      EscapeCharShape(c);
    } else if c == k[|k| - 1] {
      var k' := k[..|k| - 1];
      assert k == k' + [c] && c in k;
      SameLast(s, c, k', e);
    } else if |s| >= |k| {
      assert (s + [c])[|s| + 1 - |k|..][|k| - 1] == c;
    }
  }

  lemma SameLast(s: string, c: char, k: string, e: bytes)
    requires Printable(c) && (EndsQuotedBytes(e, Ascii(k)) <==> EndsQuoted(s, k))
    ensures EndsQuotedBytes(e + EscapeChar(c), Ascii(k + [c])) <==> EndsQuoted(s + [c], k + [c])
  {
    assert Ascii(k + [c]) == Ascii(k) + [c as int];
    EndsQuotedOneMore(s, k, c);
    BytesOneMore(e, Ascii(k), c as int);
  }

  /** Escaped text ends in a quote and a plain key exactly when the text does. */
  lemma {:induction false} SuffixOfEscape(s: string, k: string)
    requires AllPrintable(k)
    ensures EndsQuotedBytes(Escape(s), Ascii(k)) <==> EndsQuoted(s, k)
  {
    if s != "" {
      var s', c := s[..|s| - 1], s[|s| - 1];
      assert s == s' + [c];
      EscapeAppend(s', c);
      if k != "" {
        assert forall y <- k[..|k| - 1] :: y in k;
        SuffixOfEscape(s', k[..|k| - 1]);
      }
      SuffixStep(s', c, k, Escape(s'));
    }
  }

  predicate AfterString(rest: bytes) {
    rest != [] && rest[0] in {COLON, COMMA, CLOSE}
  }

  /** In a written string that is no hit, the quoted key starts nowhere: not at its own quotes, and
      not at an escaped quote inside. */
  lemma TokenNoMatch(s: string, k: string, rest: bytes, i: nat)
    requires PlainKey(k) && !Hit(s, k) && AfterString(rest) && i < |Token(s)|
    ensures !(Needle(k) <= (Token(s) + rest)[i..])
  {
    var e := Escape(s);
    EscapeShape(s);
    if Needle(k) <= (Token(s) + rest)[i..] {
      assert Token(s) + rest == Quoted(e, rest);
      MatchByElements(e, rest, k, i);
      KeyEndsAtQuote(e, rest, k, i);
      KeyStarts(e, rest, k, i);
      KeyFillsRest(s, k, i);
    }
  }

  function Quoted(e: bytes, rest: bytes): (t: bytes)
    ensures |t| == |e| + 2 + |rest|
  {
    [QUOTE] + e + [QUOTE] + rest
  }

  /** The needle stands at position `i` of a quoted string and what follows it. */
  ghost predicate Matches(e: bytes, rest: bytes, k: string, i: nat) {
    && i + |k| + 2 <= |e| + 2 + |rest|
    && Quoted(e, rest)[i] == QUOTE
    && (forall j :: 0 <= j < |k| ==> Quoted(e, rest)[i + 1 + j] == Ascii(k)[j])
    && Quoted(e, rest)[i + 1 + |k|] == QUOTE
  }

  lemma MatchByElements(e: bytes, rest: bytes, k: string, i: nat)
    requires i < |e| + 2 && Needle(k) <= Quoted(e, rest)[i..]
    ensures Matches(e, rest, k, i)
  {
    var t, n := Quoted(e, rest), Needle(k);
    assert |n| == |k| + 2 && n[0] == QUOTE && n[|k| + 1] == QUOTE;
    assert forall j :: 0 <= j < |k| ==> n[1 + j] == Ascii(k)[j];
    assert forall j :: 0 <= j < |n| ==> t[i..][j] == n[j];
    assert t[i..][0] == t[i];
    assert t[i..][|k| + 1] == t[i + 1 + |k|];
    forall j | 0 <= j < |k| ensures t[i + 1 + j] == Ascii(k)[j] {
      assert t[i..][1 + j] == t[i + 1 + j];
    }
  }

  lemma QuotedAt(e: bytes, rest: bytes, q: nat)
    requires q < |e| + 2 + |rest|
    ensures 1 <= q <= |e| ==> Quoted(e, rest)[q] == e[q - 1]
    ensures q == |e| + 1 ==> Quoted(e, rest)[q] == QUOTE
    ensures q == |e| + 2 ==> Quoted(e, rest)[q] == rest[0]
  {
  }

  /** Wherever the needle matches from inside a string, its closing quote is the string's. */
  lemma KeyEndsAtQuote(e: bytes, rest: bytes, k: string, i: nat)
    requires PlainKey(k) && AfterString(rest) && i < |e| + 2 && QuotesEscaped(e)
    requires Matches(e, rest, k, i)
    ensures i + |k| == |e|
  {
    if i == |e| + 1 {
      QuotedAt(e, rest, i + 1 + 0);
      PrintableBytes(k, 0);
      assert false;
    } else if i + |k| < |e| {
      QuotedAt(e, rest, i + 1 + |k|);
      QuotedAt(e, rest, i + 1 + (|k| - 1));
      PrintableBytes(k, |k| - 1);
      assert false;
    } else if |e| < i + |k| {
      QuotedAt(e, rest, i + 1 + (|e| - i));
      PrintableBytes(k, |e| - i);
      assert false;
    }
  }

  lemma KeyStarts(e: bytes, rest: bytes, k: string, i: nat)
    requires Matches(e, rest, k, i) && i + |k| == |e|
    ensures e[i..] == Ascii(k)
    ensures i > 0 ==> e[i - 1] == QUOTE
  {
    forall j | 0 <= j < |k| ensures e[i..][j] == Ascii(k)[j] {
      QuotedAt(e, rest, i + 1 + j);
    }
    QuotedAt(e, rest, i);
  }

  lemma KeyFillsRest(s: string, k: string, i: nat)
    requires PlainKey(k) && i <= |Escape(s)| && Escape(s)[i..] == Ascii(k)
    requires i > 0 ==> Escape(s)[i - 1] == QUOTE
    ensures Hit(s, k)
  {
    var e := Escape(s);
    if i == 0 {
      assert e == Ascii(k);
      forall j | 0 <= j < |e| ensures e[j] != BACKSLASH {
        PrintableBytes(k, j);
      }
      UnescapedIsPrintable(s);
      EscapePrintable(s);
      SameAscii(s, k);
    } else {
      SuffixOfEscape(s, k);
    }
  }

  lemma SameAscii(a: string, b: string)
    requires AllPrintable(a) && AllPrintable(b) && Ascii(a) == Ascii(b)
    ensures a == b
  {
    AsciiInjective(a, b);
  }

  /** In a written string that is a hit, the quoted key does occur. */
  lemma TokenMatch(s: string, k: string, rest: bytes) returns (i: nat)
    requires PlainKey(k) && Hit(s, k)
    ensures i < |Token(s)| && Needle(k) <= (Token(s) + rest)[i..]
    ensures s == k ==> i == 0
  {
    var e := Escape(s);
    if s == k {
      EscapePrintable(s);
      i := 0;
    } else {
      SuffixOfEscape(s, k);
      i := |e| - |k|;
    }
    assert Token(s) + rest == Quoted(e, rest);
    KeyAtEnd(e, rest, Ascii(k), i);
  }

  lemma KeyAtEnd(e: bytes, rest: bytes, a: bytes, i: nat)
    requires i <= |e| && e[i..] == a && (i > 0 ==> e[i - 1] == QUOTE)
    ensures [QUOTE] + a + [QUOTE] <= Quoted(e, rest)[i..]
  {
    if i == 0 {
      assert Quoted(e, rest)[0..] == [QUOTE] + a + [QUOTE] + rest;
    } else {
      assert Quoted(e, rest)[i..] == e[i - 1..] + [QUOTE] + rest;
      assert e[i - 1..] == [e[i - 1]] + e[i..];
    }
  }

  // ---------- a whole message ----------

  /** Does the quoted key turn up in this member, in its key or in its string value? */
  predicate MemberHit(m: Member, k: string) {
    Hit(m.key, k) || (m.value.Text? && Hit(m.value.text, k))
  }

  /** No member before the `j`-th contains the quoted key. */
  ghost predicate NoEarlierHit(ms: seq<Member>, k: string, j: nat)
    requires j <= |ms|
  {
    forall i :: 0 <= i < j ==> !MemberHit(ms[i], k)
  }

  /** Where the `j`-th member starts. */
  function KeyAt(ms: seq<Member>, j: nat): nat
    requires j < |ms|
  {
    if j == 0 then 0 else |MemberText(ms[0])| + 1 + KeyAt(ms[1..], j - 1)
  }

  /** What follows the `j`-th member. */
  function AfterMember(ms: seq<Member>, j: nat): (b: bytes)
    requires j < |ms|
    ensures b != [] && b[0] in {COMMA, CLOSE}
  {
    if j + 1 == |ms| then [CLOSE] else [COMMA] + MembersText(ms[j + 1..])
  }

  lemma MembersSplit(ms: seq<Member>)
    requires ms != []
    ensures MembersText(ms) == MemberText(ms[0]) + AfterMember(ms, 0)
  {
  }

  lemma NoQuoteNoMatch(seg: bytes, rest: bytes, k: string)
    requires QUOTE !in seg
    ensures NoMatchIn(seg, rest, Needle(k))
  {
    forall i | 0 <= i < |seg| ensures !(Needle(k) <= (seg + rest)[i..]) {
      assert (seg + rest)[i..][0] == seg[i] && Needle(k)[0] == QUOTE;
    }
  }

  /** The search passes over a string that is no hit. */
  lemma SkipToken(s: string, k: string, rest: bytes, p: nat)
    requires PlainKey(k) && !Hit(s, k) && AfterString(rest) && FirstAt(rest, Needle(k), p)
    ensures FirstAt(Token(s) + rest, Needle(k), |Token(s)| + p)
  {
    forall i | 0 <= i < |Token(s)| ensures !(Needle(k) <= (Token(s) + rest)[i..]) {
      TokenNoMatch(s, k, rest, i);
    }
    FirstSkip(Token(s), rest, Needle(k), p);
  }

  lemma SkipPlain(seg: bytes, rest: bytes, k: string, p: nat)
    requires QUOTE !in seg && FirstAt(rest, Needle(k), p)
    ensures FirstAt(seg + rest, Needle(k), |seg| + p)
  {
    NoQuoteNoMatch(seg, rest, k);
    FirstSkip(seg, rest, Needle(k), p);
  }

  lemma SkipValue(v: Value, k: string, rest: bytes, p: nat)
    requires PlainKey(k) && AfterString(rest) && (v.Text? ==> !Hit(v.text, k)) && FirstAt(rest, Needle(k), p)
    ensures FirstAt(ValueText(v) + rest, Needle(k), |ValueText(v)| + p)
  {
    match v
    case Text(s) => SkipToken(s, k, rest, p);
    case Num(n) => SkipPlain(Decimal(n), rest, k, p);
  }

  lemma MemberParts(m: Member, rest: bytes)
    ensures MemberText(m) + rest == Token(m.key) + ([COLON] + (ValueText(m.value) + rest))
    ensures |MemberText(m)| == |Token(m.key)| + 1 + |ValueText(m.value)|
  {
  }

  /** The search passes over a member that is no hit. */
  lemma SkipMember(m: Member, k: string, rest: bytes, p: nat)
    requires PlainKey(k) && !MemberHit(m, k) && AfterString(rest) && FirstAt(rest, Needle(k), p)
    ensures FirstAt(MemberText(m) + rest, Needle(k), |MemberText(m)| + p)
  {
    var v, c := ValueText(m.value) + rest, [COLON];
    SkipValue(m.value, k, rest, p);
    SkipPlain(c, v, k, |ValueText(m.value)| + p);
    SkipToken(m.key, k, c + v, 1 + |ValueText(m.value)| + p);
    MemberParts(m, rest);
  }

  lemma SkipMemberAndComma(t: bytes, m: Member, k: string, after: bytes, p: nat)
    requires PlainKey(k) && !MemberHit(m, k) && t == MemberText(m) + ([COMMA] + after)
    requires FirstAt(after, Needle(k), p)
    ensures FirstAt(t, Needle(k), |MemberText(m)| + 1 + p)
  {
    SkipPlain([COMMA], after, k, p);
    SkipMember(m, k, [COMMA] + after, 1 + p);
  }

  lemma SplitMany(ms: seq<Member>)
    requires |ms| > 1
    ensures MembersText(ms) == MemberText(ms[0]) + ([COMMA] + MembersText(ms[1..]))
  {
  }

  /** No hit before the member: the search ends at the member. */
  lemma {:induction false} FindsMember(ms: seq<Member>, k: string, j: nat)
    requires PlainKey(k) && j < |ms| && ms[j].key == k
    requires NoEarlierHit(ms, k, j)
    ensures FirstAt(MembersText(ms), Needle(k), KeyAt(ms, j))
  {
    if j == 0 {
      MembersSplit(ms);
      MatchesKey(ms[0], k, AfterMember(ms, 0));
    } else {
      NoHitInTail(ms, k, j);
      FindsMember(ms[1..], k, j - 1);
      FindsLater(ms, k, KeyAt(ms[1..], j - 1));
    }
  }

  lemma NoHitInTail(ms: seq<Member>, k: string, j: nat)
    requires 0 < j < |ms| && NoEarlierHit(ms, k, j)
    ensures !MemberHit(ms[0], k) && NoEarlierHit(ms[1..], k, j - 1)
    ensures ms[1..][j - 1] == ms[j]
  {
  }

  lemma FindsLater(ms: seq<Member>, k: string, p: nat)
    requires PlainKey(k) && |ms| > 1 && !MemberHit(ms[0], k)
    requires FirstAt(MembersText(ms[1..]), Needle(k), p)
    ensures FirstAt(MembersText(ms), Needle(k), |MemberText(ms[0])| + 1 + p)
  {
    var t, after := MembersText(ms), MembersText(ms[1..]);
    assert t == MemberText(ms[0]) + ([COMMA] + after) by { SplitMany(ms); }
    SkipMemberAndComma(t, ms[0], k, after, p);
  }

  lemma MatchesKey(m: Member, k: string, rest: bytes)
    requires PlainKey(k) && m.key == k
    ensures FirstAt(MemberText(m) + rest, Needle(k), 0)
  {
    MemberParts(m, rest);
    KeyComesFirst(k, [COLON] + (ValueText(m.value) + rest));
  }

  lemma KeyComesFirst(k: string, rest: bytes)
    requires PlainKey(k)
    ensures FirstAt(Token(k) + rest, Needle(k), 0)
  {
    EscapePrintable(k);
  }

  /** A hit in a member is an occurrence within that member's text. */
  lemma HitOccurs(m: Member, k: string, rest: bytes) returns (p: nat)
    requires PlainKey(k) && MemberHit(m, k)
    ensures p < |MemberText(m)| && Needle(k) <= (MemberText(m) + rest)[p..]
  {
    if Hit(m.key, k) {
      var after := [COLON] + (ValueText(m.value) + rest);
      MemberParts(m, rest);
      p := TokenMatch(m.key, k, after);
    } else {
      p := HitInValue(m, k, rest);
    }
  }

  lemma HitInValue(m: Member, k: string, rest: bytes) returns (p: nat)
    requires PlainKey(k) && m.value.Text? && Hit(m.value.text, k)
    ensures p < |MemberText(m)| && Needle(k) <= (MemberText(m) + rest)[p..]
  {
    var before, text := Token(m.key) + [COLON], Token(m.value.text) + rest;
    var q := TokenMatch(m.value.text, k, rest);
    p := |before| + q;
    OccursLater(before, text, Needle(k), q);
    TextMember(m, rest);
  }

  lemma TextMember(m: Member, rest: bytes)
    requires m.value.Text?
    ensures MemberText(m) + rest == (Token(m.key) + [COLON]) + (Token(m.value.text) + rest)
    ensures |MemberText(m)| == |Token(m.key)| + 1 + |Token(m.value.text)|
  {
  }

  lemma OccursLater(before: bytes, text: bytes, needle: bytes, q: nat)
    requires q <= |text| && needle <= text[q..]
    ensures needle <= (before + text)[|before| + q..]
  {
    assert (before + text)[|before| + q..] == text[q..];
  }

  lemma KeysLater(ms: seq<Member>, i: nat, q: nat)
    requires 0 < i < |ms| && forall j :: i - 1 < j < |ms| - 1 ==> q < KeyAt(ms[1..], j)
    ensures forall j :: i < j < |ms| ==> |MemberText(ms[0])| + 1 + q < KeyAt(ms, j)
  {
    forall j | i < j < |ms| ensures |MemberText(ms[0])| + 1 + q < KeyAt(ms, j) {
      assert q < KeyAt(ms[1..], j - 1);
    }
  }

  /** An occurrence within the `i`-th member. */
  lemma {:induction false} OccursAt(ms: seq<Member>, k: string, i: nat) returns (p: nat)
    requires PlainKey(k) && i < |ms| && MemberHit(ms[i], k)
    ensures p < |MembersText(ms)| && Needle(k) <= MembersText(ms)[p..]
    ensures forall j :: i < j < |ms| ==> p < KeyAt(ms, j)
  {
    if i == 0 {
      p := OccursInFirst(ms, k);
    } else {
      var q := OccursAt(ms[1..], k, i - 1);
      p := OccursBehind(ms, k, q);
      KeysLater(ms, i, q);
    }
  }

  lemma OccursInFirst(ms: seq<Member>, k: string) returns (p: nat)
    requires PlainKey(k) && ms != [] && MemberHit(ms[0], k)
    ensures p < |MemberText(ms[0])| <= |MembersText(ms)| && Needle(k) <= MembersText(ms)[p..]
  {
    MembersSplit(ms);
    p := HitOccurs(ms[0], k, AfterMember(ms, 0));
  }

  lemma OccursBehind(ms: seq<Member>, k: string, q: nat) returns (p: nat)
    requires |ms| > 1 && q < |MembersText(ms[1..])| && Needle(k) <= MembersText(ms[1..])[q..]
    ensures p == |MemberText(ms[0])| + 1 + q && p < |MembersText(ms)| && Needle(k) <= MembersText(ms)[p..]
  {
    p := |MemberText(ms[0])| + 1 + q;
    SuffixAfterMember(ms, q);
  }

  lemma SuffixAfterMember(ms: seq<Member>, q: nat)
    requires |ms| > 1 && q <= |MembersText(ms[1..])|
    ensures |MembersText(ms)| == |MemberText(ms[0])| + 1 + |MembersText(ms[1..])|
    ensures MembersText(ms)[|MemberText(ms[0])| + 1 + q..] == MembersText(ms[1..])[q..]
  {
    var before, after := MemberText(ms[0]) + [COMMA], MembersText(ms[1..]);
    assert MembersText(ms) == before + after;
  }

  lemma LookupInMembers(ms: seq<Member>, k: string, j: nat, t: bytes, p: nat)
    requires PlainKey(k) && j < |ms| && ms[j].key == k && t == MembersText(ms) && p == KeyAt(ms, j)
    ensures FirstAt(t, Needle(k), p) <==> NoEarlierHit(ms, k, j)
  {
    if i :| 0 <= i < j && MemberHit(ms[i], k) {
      var q := OccursAt(ms, k, i);
      assert q < p;
    } else {
      FindsMember(ms, k, j);
    }
  }

  lemma FirstInDumps(t: bytes, k: string, p: nat)
    ensures FirstAt([OPEN] + t, Needle(k), 1 + p) <==> FirstAt(t, Needle(k), p)
  {
    if FirstAt(t, Needle(k), p) {
      SkipPlain([OPEN], t, k, p);
    }
    assert forall q :: 0 <= q <= |t| ==> ([OPEN] + t)[1 + q..] == t[q..];
  }

  /** The search for a plain key in a written message finds the member itself if and only if no
      earlier member has the key, or a quote and the key at the end, in its key or its string
      value. Escaped quotes never make another occurrence. */
  lemma LookupExact(ms: seq<Member>, k: string, j: nat, text: bytes, p: nat)
    requires PlainKey(k) && j < |ms| && ms[j].key == k && text == Dumps(ms) && p == KeyAt(ms, j)
    ensures Find(text, Needle(k)) == Some(1 + p) <==> NoEarlierHit(ms, k, j)
  {
    LookupInMembers(ms, k, j, MembersText(ms), p);
    FoundBehindBrace(MembersText(ms), text, k, p, NoEarlierHit(ms, k, j));
  }

  lemma FoundBehindBrace(t: bytes, text: bytes, k: string, p: nat, clear: bool)
    requires text == [OPEN] + t && (FirstAt(t, Needle(k), p) <==> clear)
    ensures Find(text, Needle(k)) == Some(1 + p) <==> clear
  {
    FirstInDumps(t, k, p);
    FindIsFirst(text, Needle(k), 1 + p);
  }

  /** The `j`-th member stands at position `p` of the text `t`. */
  ghost predicate StandsAt(ms: seq<Member>, j: nat, t: bytes, p: nat)
    requires j < |ms|
  {
    p <= |t| && t[p..] == MemberText(ms[j]) + AfterMember(ms, j)
  }

  lemma MemberAt(ms: seq<Member>, j: nat, t: bytes, p: nat)
    requires j < |ms| && t == MembersText(ms) && p == KeyAt(ms, j)
    ensures StandsAt(ms, j, t, p)
  {
    var ps := Texts(ms);
    ListedMembers(ms, ps);
    KeyAtListed(ms, j, ps);
    AfterListed(ms, j, ps);
    var before := ListedAt(ps, j);
    BehindText(before, ps[j] + AfterPart(ps, j), t);
  }

  // A message as the texts of its members, so that what is inside them plays no part.

  function Texts(ms: seq<Member>): (ps: seq<bytes>)
    ensures |ps| == |ms| && forall i :: 0 <= i < |ms| ==> ps[i] == MemberText(ms[i])
  {
    seq(|ms|, i requires 0 <= i < |ms| => MemberText(ms[i]))
  }

  function Listed(ps: seq<bytes>): bytes
    decreases |ps|, 1
  {
    if ps == [] then [CLOSE] else ps[0] + AfterPart(ps, 0)
  }

  function AfterPart(ps: seq<bytes>, j: nat): bytes
    requires j < |ps|
    decreases |ps|, 0
  {
    if j + 1 == |ps| then [CLOSE] else [COMMA] + Listed(ps[j + 1..])
  }

  function PartAt(ps: seq<bytes>, j: nat): nat
    requires j < |ps|
  {
    if j == 0 then 0 else |ps[0]| + 1 + PartAt(ps[1..], j - 1)
  }

  lemma {:induction false} ListedAt(ps: seq<bytes>, j: nat) returns (before: bytes)
    requires j < |ps|
    ensures Listed(ps) == before + (ps[j] + AfterPart(ps, j)) && |before| == PartAt(ps, j)
  {
    if j == 0 {
      before := [];
    } else {
      var b := ListedAt(ps[1..], j - 1);
      AfterPartTail(ps, j);
      before := ps[0] + ([COMMA] + b);
      ThreeParts(ps[0], [COMMA], b, ps[j] + AfterPart(ps, j));
    }
  }

  lemma AfterPartTail(ps: seq<bytes>, j: nat)
    requires 0 < j < |ps|
    ensures AfterPart(ps[1..], j - 1) == AfterPart(ps, j)
  {
    assert ps[1..][j..] == ps[j + 1..];
  }

  lemma {:induction false} ListedMembers(ms: seq<Member>, ps: seq<bytes>)
    requires ms != [] && ps == Texts(ms)
    ensures Listed(ps) == MembersText(ms)
  {
    if |ms| > 1 {
      assert ps[1..] == Texts(ms[1..]);
      ListedMembers(ms[1..], ps[1..]);
      SplitMany(ms);
    }
  }

  lemma {:induction false} KeyAtListed(ms: seq<Member>, j: nat, ps: seq<bytes>)
    requires j < |ms| && ps == Texts(ms)
    ensures PartAt(ps, j) == KeyAt(ms, j)
  {
    if j > 0 {
      assert ps[1..] == Texts(ms[1..]);
      KeyAtListed(ms[1..], j - 1, ps[1..]);
    }
  }

  lemma AfterListed(ms: seq<Member>, j: nat, ps: seq<bytes>)
    requires j < |ms| && ps == Texts(ms)
    ensures AfterPart(ps, j) == AfterMember(ms, j)
  {
    if j + 1 < |ms| {
      assert ps[j + 1..] == Texts(ms[j + 1..]);
      ListedMembers(ms[j + 1..], ps[j + 1..]);
    }
  }

  lemma BehindText(before: bytes, after: bytes, t: bytes)
    requires t == before + after
    ensures |before| <= |t| && t[|before|..] == after
  {
  }

  lemma ThreeParts(a: bytes, b: bytes, c: bytes, d: bytes)
    ensures a + (b + (c + d)) == a + (b + c) + d
  {
  }

  /** What stands after the needle once it has found its member. */
  lemma TextAfterKey(ms: seq<Member>, k: string, j: nat, text: bytes, p: nat)
    requires PlainKey(k) && j < |ms| && ms[j].key == k && text == Dumps(ms) && p == KeyAt(ms, j)
    ensures 1 + p + |Needle(k)| <= |text|
    ensures text[1 + p + |Needle(k)|..] == [COLON] + (ValueText(ms[j].value) + AfterMember(ms, j))
  {
    var t := MembersText(ms);
    EscapePrintable(k);
    MemberAt(ms, j, t, p);
    AfterToken(ms[j], AfterMember(ms, j));
    DropDrop(t, [OPEN], p, |Needle(k)|);
  }

  lemma DropDrop(t: bytes, before: bytes, p: nat, n: nat)
    requires p <= |t| && n <= |t[p..]|
    ensures |before| + p + n <= |before + t|
    ensures (before + t)[|before| + p + n..] == t[p..][n..]
  {
  }

  lemma AfterMemberTail(ms: seq<Member>, j: nat)
    requires 0 < j < |ms|
    ensures AfterMember(ms[1..], j - 1) == AfterMember(ms, j)
  {
    assert ms[1..][j..] == ms[j + 1..];
  }

  lemma AfterToken(m: Member, rest: bytes)
    ensures |Token(m.key)| <= |MemberText(m) + rest|
    ensures (MemberText(m) + rest)[|Token(m.key)|..] == [COLON] + (ValueText(m.value) + rest)
  {
  }
}
