/** Flat JSON messages: the phone's writer, and the text facts its readers rely on. */
module Json {
  import opened Bytes
  import opened Decimals

  const QUOTE: byte := 34
  const BACKSLASH: byte := 92
  const COLON: byte := 58
  const COMMA: byte := 44
  const OPEN: byte := 123
  const CLOSE: byte := 125

  datatype Value = Text(text: string) | Num(num: nat)

  datatype Member = Member(key: string, value: Value)

  // ---------- UTF-8 (RFC 3629, section 3) ----------

  type CodePoint = n: int | 0 <= n <= 0x10FFFF

  /** The bytes of one code point. Shifts and masks are written as division and remainder. */
  function Utf8(cp: CodePoint): (b: bytes)
    ensures 1 <= |b| <= 4
  {
    if cp < 0x80 then [cp]
    else if cp < 0x800 then [0xC0 + cp / 0x40, 0x80 + cp % 0x40]
    else if cp < 0x10000 then [0xE0 + cp / 0x1000, 0x80 + cp / 0x40 % 0x40, 0x80 + cp % 0x40]
    else [0xF0 + cp / 0x40000, 0x80 + cp / 0x1000 % 0x40, 0x80 + cp / 0x40 % 0x40, 0x80 + cp % 0x40]
  }

  function Utf8All(s: string): bytes {
    if s == "" then [] else Utf8(s[0] as int) + Utf8All(s[1..])
  }

  predicate IsContinuation(b: byte) { 0x80 <= b < 0xC0 }

  predicate IsScalar(cp: int) { 0 <= cp < 0xD800 || 0xE000 <= cp <= 0x10FFFF }

  function Join2(a: byte, b: byte): int { (a as int - 0xC0) * 0x40 + (b as int - 0x80) }

  function Join3(a: byte, b: byte, c: byte): int {
    (a as int - 0xE0) * 0x1000 + (b as int - 0x80) * 0x40 + (c as int - 0x80)
  }

  function Join4(a: byte, b: byte, c: byte, d: byte): int {
    (a as int - 0xF0) * 0x40000 + (b as int - 0x80) * 0x1000 + (c as int - 0x80) * 0x40 + (d as int - 0x80)
  }

  /** The character at the head of some bytes and how many it takes: no overlong form, no surrogate,
      nothing above U+10FFFF. */
  function Decode(t: bytes): (r: Option<(char, nat)>)
    ensures r.Some? ==> 1 <= r.value.1 <= |t|
  {
    if t == [] then None
    else if t[0] < 0x80 then Some((t[0] as char, 1))
    else if t[0] < 0xE0 then
      if |t| < 2 || !IsContinuation(t[1]) then None else Scalar(Join2(t[0], t[1]), 0x80, 2)
    else if t[0] < 0xF0 then
      if |t| < 3 || !IsContinuation(t[1]) || !IsContinuation(t[2]) then None
      else Scalar(Join3(t[0], t[1], t[2]), 0x800, 3)
    else
      if |t| < 4 || !IsContinuation(t[1]) || !IsContinuation(t[2]) || !IsContinuation(t[3]) then None
      else Scalar(Join4(t[0], t[1], t[2], t[3]), 0x10000, 4)
  }

  function Scalar(cp: int, least: int, n: nat): (r: Option<(char, nat)>)
    ensures r.Some? ==> r.value.1 == n
  {
    if cp < least || !IsScalar(cp) then None else Some((cp as char, n))
  }

  lemma Exact2(a: byte, b: byte, cp: CodePoint)
    requires 0x80 <= a < 0xE0 && IsContinuation(b)
    ensures Utf8(cp) == [a, b] <==> Join2(a, b) == cp && cp >= 0x80
  {
  }

  lemma Exact3(a: byte, b: byte, c: byte, cp: CodePoint)
    requires 0xE0 <= a < 0xF0 && IsContinuation(b) && IsContinuation(c)
    ensures Utf8(cp) == [a, b, c] <==> Join3(a, b, c) == cp && cp >= 0x800
  {
    if 0x800 <= cp < 0x10000 {
      InParts3(a as int - 0xE0, b as int - 0x80, c as int - 0x80, cp);
    }
  }

  lemma InParts3(a: nat, b: nat, c: nat, cp: nat)
    requires a < 0x10 && b < 0x40 && c < 0x40
    ensures (cp / 0x1000 == a && cp / 0x40 % 0x40 == b && cp % 0x40 == c) <==> a * 0x1000 + b * 0x40 + c == cp
  {
    Parts3(cp);
    if a * 0x1000 + b * 0x40 + c == cp {
      JoinParts(cp, 0, a, b, c);
    }
  }

  lemma Exact4(a: byte, b: byte, c: byte, d: byte, cp: CodePoint)
    requires 0xF0 <= a && IsContinuation(b) && IsContinuation(c) && IsContinuation(d)
    ensures Utf8(cp) == [a, b, c, d] <==> Join4(a, b, c, d) == cp && cp >= 0x10000
  {
    if cp >= 0x10000 {
      InParts4(a as int - 0xF0, b as int - 0x80, c as int - 0x80, d as int - 0x80, cp);
    }
  }

  lemma InParts4(a: nat, b: nat, c: nat, d: nat, cp: nat)
    requires b < 0x40 && c < 0x40 && d < 0x40
    ensures (cp / 0x40000 == a && cp / 0x1000 % 0x40 == b && cp / 0x40 % 0x40 == c && cp % 0x40 == d)
            <==> a * 0x40000 + b * 0x1000 + c * 0x40 + d == cp
  {
    SixBits(cp);
    if a * 0x40000 + b * 0x1000 + c * 0x40 + d == cp {
      JoinParts(cp, a, b, c, d);
    }
  }

  lemma Parts3(cp: nat)
    ensures cp == cp / 0x1000 * 0x1000 + cp / 0x40 % 0x40 * 0x40 + cp % 0x40
  {
    assert cp / 0x40 == cp / 0x1000 * 0x40 + cp / 0x40 % 0x40;
  }

  lemma SixBits(cp: nat)
    ensures cp == ((cp / 0x40000 * 0x40 + cp / 0x1000 % 0x40) * 0x40 + cp / 0x40 % 0x40) * 0x40 + cp % 0x40
  {
    assert cp == cp / 0x40 * 0x40 + cp % 0x40;
    assert cp / 0x40 == cp / 0x1000 * 0x40 + cp / 0x40 % 0x40;
    assert cp / 0x1000 == cp / 0x40000 * 0x40 + cp / 0x1000 % 0x40;
  }

  lemma JoinParts(cp: nat, a: nat, b: nat, c: nat, d: nat)
    requires b < 0x40 && c < 0x40 && d < 0x40 && cp == a * 0x40000 + b * 0x1000 + c * 0x40 + d
    ensures cp / 0x40000 == a && cp / 0x1000 % 0x40 == b && cp / 0x40 % 0x40 == c && cp % 0x40 == d
  {
    DivModUnique(cp, 0x40, a * 0x1000 + b * 0x40 + c, d);
    DivModUnique(a * 0x1000 + b * 0x40 + c, 0x40, a * 0x40 + b, c);
    DivModUnique(cp, 0x1000, a * 0x40 + b, c * 0x40 + d);
    DivModUnique(a * 0x40 + b, 0x40, a, b);
    DivModUnique(cp, 0x40000, a, b * 0x1000 + c * 0x40 + d);
  }

  /** The first byte tells the length, and only continuations follow. */
  lemma LeadByte(cp: CodePoint)
    ensures var u := Utf8(cp);
            && |u| == (if u[0] < 0x80 then 1 else if u[0] < 0xE0 then 2 else if u[0] < 0xF0 then 3 else 4)
            && (forall i :: 1 <= i < |u| ==> IsContinuation(u[i])) && (|u| == 1 ==> u == [cp])
  {
  }

  lemma DecodeExact2(t: bytes, c: char)
    requires t != [] && 0x80 <= t[0] < 0xE0
    ensures Decode(t) == Some((c, 2)) <==> Utf8(c as int) <= t
  {
    LeadByte(c as int);
    if |t| >= 2 && IsContinuation(t[1]) {
      Exact2(t[0], t[1], c as int);
      assert Utf8(c as int) <= t <==> Utf8(c as int) == [t[0], t[1]];
    }
  }

  lemma DecodeExact3(t: bytes, c: char)
    requires t != [] && 0xE0 <= t[0] < 0xF0
    ensures Decode(t) == Some((c, 3)) <==> Utf8(c as int) <= t
  {
    LeadByte(c as int);
    if |t| >= 3 && IsContinuation(t[1]) && IsContinuation(t[2]) {
      Exact3(t[0], t[1], t[2], c as int);
      assert Utf8(c as int) <= t <==> Utf8(c as int) == [t[0], t[1], t[2]];
    }
  }

  lemma DecodeExact4(t: bytes, c: char)
    requires t != [] && 0xF0 <= t[0]
    ensures Decode(t) == Some((c, 4)) <==> Utf8(c as int) <= t
  {
    LeadByte(c as int);
    if |t| >= 4 && IsContinuation(t[1]) && IsContinuation(t[2]) && IsContinuation(t[3]) {
      Exact4(t[0], t[1], t[2], t[3], c as int);
      assert Utf8(c as int) <= t <==> Utf8(c as int) == [t[0], t[1], t[2], t[3]];
    }
  }

  /** Decoding reads exactly what encoding writes: a character is found at the head of some bytes if
      and only if its encoding stands there. */
  lemma DecodeExact(t: bytes, c: char, n: nat)
    ensures Decode(t) == Some((c, n)) <==> n == |Utf8(c as int)| && Utf8(c as int) <= t
  {
    var u := Utf8(c as int);
    LeadByte(c as int);
    if t != [] {
      if t[0] < 0x80 {
        assert u <= t <==> u == [t[0]];
      } else if t[0] < 0xE0 {
        DecodeExact2(t, c);
      } else if t[0] < 0xF0 {
        DecodeExact3(t, c);
      } else {
        DecodeExact4(t, c);
      }
    }
  }

  // ---------- escaping (RFC 8259, section 7; ASCII only) ----------

  function HexDigit(d: nat): byte
    requires d < 16
  {
    if d < 10 then 48 + d else 87 + d
  }

  /** `\uXXXX` in lower case. */
  function EscapeUnit(u: nat): (b: bytes)
    requires u < 0x10000
    ensures |b| == 6
  {
    [BACKSLASH, 117, HexDigit(u / 0x1000), HexDigit(u / 0x100 % 16), HexDigit(u / 0x10 % 16), HexDigit(u % 16)]
  }

  /** A surrogate pair for code point 0x10000 + v. */
  function EscapePair(v: nat): (b: bytes)
    requires v < 0x100000
    ensures |b| == 12
  {
    EscapeUnit(0xD800 + v / 0x400) + EscapeUnit(0xDC00 + v % 0x400)
  }

  predicate Printable(c: char) {
    ' ' <= c <= '~' && c != '"' && c != '\\'
  }

  function ShortEscape(c: char): Option<byte> {
    if c == '"' then Some(QUOTE)
    else if c == '\\' then Some(BACKSLASH)
    else if c == '\n' then Some(110)
    else if c == '\r' then Some(114)
    else if c == '\t' then Some(116)
    else if c as int == 12 then Some(102)
    else if c as int == 8 then Some(98)
    else None
  }

  function EscapeChar(c: char): (b: bytes)
    ensures b != []
  {
    if Printable(c) then [c as int]
    else if ShortEscape(c).Some? then [BACKSLASH, ShortEscape(c).value]
    else if c as int < 0x10000 then EscapeUnit(c as int)
    else EscapePair(c as int - 0x10000)
  }

  function Escape(s: string): bytes {
    if s == "" then [] else EscapeChar(s[0]) + Escape(s[1..])
  }

  function Token(s: string): bytes { [QUOTE] + Escape(s) + [QUOTE] }

  function ValueText(v: Value): bytes {
    match v
    case Text(s) => Token(s)
    case Num(n) => Decimal(n)
  }

  function MemberText(m: Member): bytes {
    Token(m.key) + [COLON] + ValueText(m.value)
  }

  /** The members, comma-separated, and the closing brace. */
  function MembersText(ms: seq<Member>): (b: bytes)
    ensures b != []
  {
    if ms == [] then [CLOSE]
    else if |ms| == 1 then MemberText(ms[0]) + [CLOSE]
    else MemberText(ms[0]) + [COMMA] + MembersText(ms[1..])
  }

  function Dumps(ms: seq<Member>): bytes { [OPEN] + MembersText(ms) }

  // ---------- what escaped text looks like ----------

  lemma {:induction false} EscapeAppend(s: string, c: char)
    ensures Escape(s + [c]) == Escape(s) + EscapeChar(c)
  {
    if s == "" {
      assert s + [c] == [c];
      assert Escape([c]) == EscapeChar(c) + Escape("");
    } else {
      assert (s + [c])[1..] == s[1..] + [c];
      EscapeAppend(s[1..], c);
    }
  }

  /** Inside escaped text every quote follows a backslash, and everything is printable ASCII. */
  ghost predicate QuotesEscaped(b: bytes) {
    && (forall i :: 0 <= i < |b| ==> 32 <= b[i] < 127)
    && (forall i :: 0 <= i < |b| && b[i] == QUOTE ==> i > 0 && b[i - 1] == BACKSLASH)
  }

  lemma EscapeCharShape(c: char)
    ensures QuotesEscaped(EscapeChar(c))
    ensures !Printable(c) ==> |EscapeChar(c)| >= 2 && EscapeChar(c)[0] == BACKSLASH
    ensures forall i :: 0 <= i < |EscapeChar(c)| && EscapeChar(c)[i] == QUOTE ==> i == 1 && c == '"'
    ensures c == '"' ==> EscapeChar(c) == [BACKSLASH, QUOTE]
  {
    if ShortEscape(c).Some? {
      assert ShortEscape(c).value >= 32;
    } else if !Printable(c) && c as int < 0x10000 {
      UnitShape(c as int, EscapeChar(c));
    } else if !Printable(c) {
      PairShape(c as int - 0x10000, EscapeChar(c));
    }
  }

  lemma UnitShape(u: nat, b: bytes)
    requires u < 0x10000 && b == EscapeUnit(u)
    ensures b[0] == BACKSLASH && forall i :: 0 <= i < |b| ==> 32 <= b[i] < 127 && b[i] != QUOTE
  {
  }

  lemma PairShape(v: nat, b: bytes)
    requires v < 0x100000 && b == EscapePair(v)
    ensures b[0] == BACKSLASH && forall i :: 0 <= i < |b| ==> 32 <= b[i] < 127 && b[i] != QUOTE
  {
    UnitShape(0xD800 + v / 0x400, b[..6]);
    UnitShape(0xDC00 + v % 0x400, b[6..]);
    assert b == b[..6] + b[6..];
  }

  lemma {:induction false} EscapeShape(s: string)
    ensures QuotesEscaped(Escape(s))
  {
    if s != "" {
      EscapeCharShape(s[0]);
      EscapeShape(s[1..]);
    }
  }

  predicate AllPrintable(s: string) {
    forall c <- s :: Printable(c)
  }

  lemma {:induction false} EscapePrintable(s: string)
    requires AllPrintable(s)
    ensures Escape(s) == Ascii(s)
    ensures Utf8All(s) == Ascii(s)
  {
    if s != "" {
      assert s[0] in s;
      EscapePrintable(s[1..]);
      assert Ascii(s) == [s[0] as int] + Ascii(s[1..]);
    }
  }

  /** Escaped text without a backslash is the text itself. */
  lemma {:induction false} UnescapedIsPrintable(s: string)
    requires BACKSLASH !in Escape(s)
    ensures AllPrintable(s)
  {
    if s != "" {
      EscapeCharShape(s[0]);
      assert forall b <- EscapeChar(s[0]) :: b in Escape(s);
      assert forall b <- Escape(s[1..]) :: b in Escape(s);
      UnescapedIsPrintable(s[1..]);
      assert s == [s[0]] + s[1..];
    }
  }
}
