/** The firmware's JSON reader: substring search for the key, then an unescaper that writes UTF-8
    into a bounded buffer. */
module JsonReader {
  import opened Bytes
  import opened Decimals
  import opened Framing
  import opened Json
  import opened JsonLookup

  const NEEDLE_CAP: nat := 64

  // ---------- what the reader computes ----------

  function HexValue(b: byte): (d: Option<nat>)
    ensures d.Some? ==> d.value < 16
  {
    if 48 <= b <= 57 then Some(b - 48)
    else if 97 <= b <= 102 then Some(b - 87)
    else if 65 <= b <= 70 then Some(b - 55)
    else None
  }

  /** Four hex digits; the end of the text is not a digit. */
  function Hex4(t: bytes): (v: Option<nat>)
    ensures v.Some? ==> v.value < 0x10000 && |t| >= 4
  {
    if |t| < 4 then None else
      match (HexValue(t[0]), HexValue(t[1]), HexValue(t[2]), HexValue(t[3]))
      case (Some(a), Some(b), Some(c), Some(d)) => Some(((a * 16 + b) * 16 + c) * 16 + d)
      case _ => None
  }

  function SimpleEscape(b: byte): Option<CodePoint> {
    if b == 34 then Some(34)
    else if b == 92 then Some(92)
    else if b == 47 then Some(47)
    else if b == 98 then Some(8)
    else if b == 102 then Some(12)
    else if b == 110 then Some(10)
    else if b == 114 then Some(13)
    else if b == 116 then Some(9)
    else None
  }

  /** The escape at the head of `t` (after its backslash): the code point and the bytes it takes. A
      high surrogate escape directly followed by a low one makes one code point. */
  function EscapeAt(t: bytes): (r: Option<(CodePoint, nat)>)
    ensures r.Some? ==> 1 <= r.value.1 <= |t|
  {
    if t == [] then None
    else if t[0] != 117 then
      match SimpleEscape(t[0])
      case Some(cp) => Some((cp, 1))
      case None => None
    else match Hex4(t[1..])
      case None => None
      case Some(hi) =>
        if 0xD800 <= hi <= 0xDBFF && |t| >= 7 && t[5] == BACKSLASH && t[6] == 117 then
          match Hex4(t[7..])
          case Some(lo) =>
            if 0xDC00 <= lo <= 0xDFFF then Some((0x10000 + (hi - 0xD800) * 0x400 + (lo - 0xDC00), 11))
            else Some((hi, 5))
          case None => Some((hi, 5))
        else Some((hi, 5))
  }

  /** One thing the reader appends: a byte copied as it stands, or a decoded escape. */
  datatype Item = Raw(b: byte) | Point(cp: CodePoint)

  function ItemBytes(it: Item): (b: bytes)
    ensures b != []
  {
    match it
    case Raw(b) => [b]
    case Point(cp) => Utf8(cp)
  }

  /** What stands at the head of the text: its end, a bad escape, or an item of `n` bytes. */
  datatype Head = End | Bad | Got(it: Item, n: nat)

  function HeadOf(t: bytes): (h: Head)
    ensures h.Got? ==> 1 <= h.n <= |t|
  {
    if t == [] || t[0] == QUOTE then End
    else if t[0] != BACKSLASH then Got(Raw(t[0]), 1)
    else match EscapeAt(t[1..])
      case None => Bad
      case Some((cp, n)) => Got(Point(cp), 1 + n)
  }

  /** The items up to the closing quote, the end of the text or a bad escape; `ok` unless the last. */
  datatype Scanned = Scanned(items: seq<Item>, ok: bool)

  function Scan(t: bytes): Scanned {
    match HeadOf(t)
    case End => Scanned([], true)
    case Bad => Scanned([], false)
    case Got(it, n) =>
      var rest := Scan(t[n..]);
      Scanned([it] + rest.items, rest.ok)
  }

  /** Append one item if it fits with room for the terminator, else drop it whole. */
  function Put(acc: bytes, it: Item, cap: nat): bytes {
    if |acc| + |ItemBytes(it)| < cap then acc + ItemBytes(it) else acc
  }

  function Kept(items: seq<Item>, cap: nat): (b: bytes)
    ensures cap > 0 ==> |b| < cap
  {
    if items == [] then [] else Put(Kept(items[..|items| - 1], cap), items[|items| - 1], cap)
  }

  /** What follows a colon, if the text begins with one after blanks. */
  function AfterColon(t: bytes): Option<bytes> {
    var p := SkipBlanks(t);
    if p == [] || p[0] != COLON then None else Some(SkipBlanks(p[1..]))
  }

  /** The position after the quoted key. */
  function AfterKey(t: bytes, key: bytes): (r: Option<nat>)
    ensures r.Some? ==> r.value <= |t|
  {
    match Find(t, [QUOTE] + key + [QUOTE])
    case None => None
    case Some(i) =>
      FindIsFirst(t, [QUOTE] + key + [QUOTE], i);
      Some(i + |key| + 2)
  }

  /** The text of the value of a key, if the search and the colon succeed. */
  function ValueOf(t: bytes, key: bytes): Option<bytes> {
    if |key| + 2 >= NEEDLE_CAP then None
    else match AfterKey(t, key)
      case None => None
      case Some(i) => AfterColon(t[i..])
  }

  /** `Read(true, out)`: success with these bytes and a terminator in the buffer. `Read(false, out)`:
      an error, after these bytes were already written, without terminator. */
  datatype Read = Read(ok: bool, out: bytes)

  /** The string that a text begins with. */
  function StringAt(v: bytes, cap: nat): (r: Read)
    ensures cap > 0 ==> |r.out| < cap
  {
    if v == [] || v[0] != QUOTE then Read(false, [])
    else
      var s := Scan(v[1..]);
      Read(s.ok, Kept(s.items, cap))
  }

  function GetStringResult(t: bytes, key: bytes, cap: nat): (r: Read)
    ensures cap > 0 ==> |r.out| < cap
  {
    if cap == 0 then Read(false, [])
    else match ValueOf(t, key)
      case None => Read(false, [])
      case Some(v) => StringAt(v, cap)
  }

  /** One more decimal digit in a 32-bit accumulator. */
  function NextValue(acc: nat, b: byte): nat
    requires IsDigit(b)
  {
    (acc * 10 + (b - 48)) % TWO32
  }

  function DigitsValue(t: bytes, acc: nat): (v: nat)
    ensures acc < TWO32 ==> v < TWO32
  {
    if t != [] && IsDigit(t[0]) then DigitsValue(t[1..], NextValue(acc, t[0])) else acc
  }

  function GetUintResult(t: bytes, key: bytes): (r: Option<nat>)
    ensures r.Some? ==> r.value < TWO32
  {
    match ValueOf(t, key)
    case None => None
    case Some(v) => if v == [] || !IsDigit(v[0]) then None else Some(DigitsValue(v, 0))
  }

  // ---------- the firmware's code ----------

  /** The character at position `i` of a C string: the terminator stands at its end, and nothing
      beyond it may be read. */
  function CharAt(t: bytes, i: nat): byte
    requires i <= |t|
  {
    if i < |t| then t[i] else 0
  }

  lemma Suffix(t: bytes, p: nat, n: nat)
    requires p + n <= |t|
    ensures t[p..][n..] == t[p + n..]
    ensures p + n < |t| ==> t[p..][n] == t[p + n]
  {
  }

  /** The buffer `was` with `w` written over its beginning. */
  ghost predicate Stored(now: bytes, was: bytes, w: bytes) {
    |w| <= |was| && now == w + was[|w|..]
  }

  /** Some more bytes stored: the buffer was `prior` before and is `now`. */
  lemma StoredMore(prior: bytes, now: bytes, was: bytes, w: bytes, more: bytes)
    requires Stored(prior, was, w) && |w| + |more| <= |was| && |now| == |prior|
    requires forall i :: 0 <= i < |more| ==> now[|w| + i] == more[i]
    requires forall i :: 0 <= i < |now| && !(|w| <= i < |w| + |more|) ==> now[i] == prior[i]
    ensures Stored(now, was, w + more)
  {
    var all := w + more;
    forall i | 0 <= i < |now| ensures now[i] == (all + was[|all|..])[i] {
      if i < |w| {
        assert prior[i] == w[i];
      } else if i < |all| {
        assert now[|w| + (i - |w|)] == more[i - |w|];
      }
    }
  }

  method AppendUtf8(out: array<byte>, cap: nat, pos: nat, cp: CodePoint, ghost was: bytes, ghost w: bytes)
    returns (end: nat)
    requires cap <= out.Length == |was| && pos == |w| < cap && Stored(out[..], was, w)
    modifies out
    ensures end == |Put(w, Point(cp), cap)| < cap && Stored(out[..], was, Put(w, Point(cp), cap))
  {
    ghost var prior := out[..];
    end := pos;
    if cp < 0x80 {
      if end + 1 < cap {
        out[end] := cp;
        end := end + 1;
      }
    } else if cp < 0x800 {
      if end + 2 < cap {
        out[end], out[end + 1] := 0xC0 + cp / 0x40, 0x80 + cp % 0x40;
        end := end + 2;
      }
    } else if cp < 0x10000 {
      if end + 3 < cap {
        out[end] := 0xE0 + cp / 0x1000;
        out[end + 1] := 0x80 + cp / 0x40 % 0x40;
        out[end + 2] := 0x80 + cp % 0x40;
        end := end + 3;
      }
    } else {
      if end + 4 < cap {
        out[end] := 0xF0 + cp / 0x40000;
        out[end + 1] := 0x80 + cp / 0x1000 % 0x40;
        out[end + 2] := 0x80 + cp / 0x40 % 0x40;
        out[end + 3] := 0x80 + cp % 0x40;
        end := end + 4;
      }
    }
    if end > pos {
      StoredMore(prior, out[..], was, w, Utf8(cp));
    }
  }

  /** Copy one byte that is no escape. */
  method AppendRaw(out: array<byte>, cap: nat, pos: nat, b: byte, ghost was: bytes, ghost w: bytes)
    returns (end: nat)
    requires cap <= out.Length == |was| && pos == |w| < cap && Stored(out[..], was, w)
    modifies out
    ensures end == |Put(w, Raw(b), cap)| < cap && Stored(out[..], was, Put(w, Raw(b), cap))
  {
    ghost var prior := out[..];
    end := pos;
    if pos + 1 < cap {
      out[pos] := b;
      end := pos + 1;
      StoredMore(prior, out[..], was, w, [b]);
    }
  }

  /** Read four hex digits from position `p`; stops at the first byte that is not one, so it never
      reads past the terminator. */
  method ReadHex4(json: bytes, p: nat) returns (v: Option<nat>)
    requires 0 !in json && p <= |json|
    ensures v == Hex4(json[p..])
  {
    ghost var t := json[p..];
    var acc := 0;
    for i := 0 to 4
      invariant i <= |t| && AllHex(t, i)
      invariant acc == HexPrefix(t, i)
    {
      Suffix(json, p, i);
      var d := HexValue(CharAt(json, p + i));
      if d.None? {
        return None;
      }
      acc := acc * 16 + d.value;
    }
    Hex4Succeeds(t);
    return Some(acc);
  }

  ghost predicate AllHex(t: bytes, n: nat)
    requires n <= |t|
  {
    forall j :: 0 <= j < n ==> HexValue(t[j]).Some?
  }

  /** The value of the first `n` hex digits. */
  ghost function HexPrefix(t: bytes, n: nat): nat
    requires n <= |t| && AllHex(t, n)
  {
    if n == 0 then 0 else HexPrefix(t, n - 1) * 16 + HexValue(t[n - 1]).value
  }

  lemma Hex4Succeeds(t: bytes)
    requires |t| >= 4 && AllHex(t, 4)
    ensures Hex4(t) == Some(HexPrefix(t, 4))
  {
    assert HexPrefix(t, 0) == 0;
    assert HexPrefix(t, 1) == HexValue(t[0]).value;
    assert HexPrefix(t, 2) == HexPrefix(t, 1) * 16 + HexValue(t[1]).value;
    assert HexPrefix(t, 3) == HexPrefix(t, 2) * 16 + HexValue(t[2]).value;
  }

  /** The escape after the backslash at `p - 1`. */
  method ReadEscape(json: bytes, p: nat) returns (r: Option<(CodePoint, nat)>)
    requires 0 !in json && p <= |json|
    ensures r == EscapeAt(json[p..])
  {
    ghost var t := json[p..];
    assert p < |json| ==> t[0] == json[p];
    if CharAt(json, p) != 117 {
      match SimpleEscape(CharAt(json, p)) {
        case Some(cp) => return Some((cp, 1));
        case None => return None;
      }
    }
    Suffix(json, p, 1);
    var hi := ReadHex4(json, p + 1);
    if hi.None? {
      return None;
    }
    var cp := hi.value;
    Suffix(json, p, 5);
    if 0xD800 <= cp <= 0xDBFF && CharAt(json, p + 5) == BACKSLASH {
      Suffix(json, p, 6);
      if CharAt(json, p + 6) == 117 {
        Suffix(json, p, 7);
        var lo := ReadHex4(json, p + 7);
        if lo.Some? && 0xDC00 <= lo.value <= 0xDFFF {
          return Some((0x10000 + (cp - 0xD800) * 0x400 + (lo.value - 0xDC00), 11));
        }
      }
    }
    return Some((cp, 5));
  }

  /** Position of the first byte at or after `p` that is no blank. */
  method PassBlanks(json: bytes, p: nat) returns (q: nat)
    requires p <= |json|
    ensures p <= q <= |json| && json[q..] == SkipBlanks(json[p..])
  {
    q := p;
    while IsBlank(CharAt(json, q))
      invariant p <= q <= |json|
      invariant SkipBlanks(json[q..]) == SkipBlanks(json[p..])
      decreases |json| - q
    {
      Suffix(json, q, 1);
      q := q + 1;
    }
  }

  /** Past blanks, a colon and blanks. */
  method PassColon(json: bytes, p: nat) returns (r: Option<nat>)
    requires p <= |json|
    ensures r.Some? ==> r.value <= |json|
    ensures AfterColon(json[p..]) == if r.None? then None else Some(json[r.value..])
  {
    var q := PassBlanks(json, p);
    if CharAt(json, q) != COLON {
      return None;
    }
    Suffix(json, q, 1);
    q := PassBlanks(json, q + 1);
    return Some(q);
  }

  /** Position of the value of `key`. */
  method FindValue(json: bytes, key: bytes) returns (r: Option<nat>)
    ensures r.Some? ==> r.value <= |json|
    ensures ValueOf(json, key) == if r.None? then None else Some(json[r.value..])
  {
    if |key| + 2 >= NEEDLE_CAP {
      return None;
    }
    var hit := AfterKey(json, key);
    if hit.None? {
      return None;
    }
    r := PassColon(json, hit.value);
  }

  lemma KeptOneMore(items: seq<Item>, it: Item, cap: nat)
    ensures Kept(items + [it], cap) == Put(Kept(items, cap), it, cap)
  {
    assert (items + [it])[..|items|] == items;
  }

  /** What is left to scan at position `q`, after `done`, makes up the whole. */
  ghost predicate ScanSplit(all: Scanned, done: seq<Item>, t: bytes) {
    all == Scanned(done + Scan(t).items, Scan(t).ok)
  }

  lemma ScanStep(all: Scanned, done: seq<Item>, json: bytes, q: nat, next: nat, it: Item)
    requires q <= next <= |json| && ScanSplit(all, done, json[q..]) && HeadOf(json[q..]) == Got(it, next - q)
    ensures ScanSplit(all, done + [it], json[next..])
  {
    Suffix(json, q, next - q);
    var rest := Scan(json[next..]).items;
    assert done + ([it] + rest) == done + [it] + rest;
  }

  lemma ScanStop(all: Scanned, done: seq<Item>, t: bytes, ok: bool)
    requires ScanSplit(all, done, t) && HeadOf(t) == if ok then End else Bad
    ensures all == Scanned(done, ok)
  {
    assert done + [] == done;
  }

  /** One turn of the unescape loop at position `q`: nothing on a bad escape. */
  method UnescapeOne(json: bytes, q: nat, out: array<byte>, cap: nat, pos: nat, ghost was: bytes, ghost w: bytes)
    returns (next: Option<nat>, end: nat, ghost it: Item)
    requires 0 !in json && q < |json| && json[q] != QUOTE
    requires cap <= out.Length == |was| && pos == |w| < cap && Stored(out[..], was, w)
    modifies out
    ensures next == None ==> HeadOf(json[q..]) == Bad
    ensures next == None ==> end == pos && Stored(out[..], was, w)
    ensures next.Some? ==> q < next.value <= |json| && HeadOf(json[q..]) == Got(it, next.value - q)
    ensures next.Some? ==> end == |Put(w, it, cap)| < cap && Stored(out[..], was, Put(w, it, cap))
  {
    Suffix(json, q, 1);
    if json[q] == BACKSLASH {
      var e := ReadEscape(json, q + 1);
      if e == None {
        return None, pos, Raw(0);
      }
      it := Point(e.value.0);
      end := AppendUtf8(out, cap, pos, e.value.0, was, w);
      next := Some(q + 1 + e.value.1);
    } else {
      it := Raw(json[q]);
      end := AppendRaw(out, cap, pos, json[q], was, w);
      next := Some(q + 1);
    }
  }

  /** The unescape loop from position `p`, writing at the start of `out`. */
  method Unescape(json: bytes, p: nat, out: array<byte>, cap: nat) returns (ok: bool, pos: nat)
    requires 0 !in json && p <= |json| && 0 < cap <= out.Length
    modifies out
    ensures var s := Scan(json[p..]);
            ok == s.ok && pos == |Kept(s.items, cap)| < cap && Stored(out[..], old(out[..]), Kept(s.items, cap))
  {
    ghost var all, done, was := Scan(json[p..]), [], out[..];
    var q := p;
    pos := 0;
    while CharAt(json, q) != 0 && CharAt(json, q) != QUOTE
      invariant p <= q <= |json|
      invariant ScanSplit(all, done, json[q..])
      invariant pos == |Kept(done, cap)| < cap && Stored(out[..], was, Kept(done, cap))
      decreases |json| - q
    {
      var next;
      ghost var it;
      next, pos, it := UnescapeOne(json, q, out, cap, pos, was, Kept(done, cap));
      if next == None {
        ScanStop(all, done, json[q..], false);
        return false, pos;
      }
      ScanStep(all, done, json, q, next.value, it);
      KeptOneMore(done, it, cap);
      done := done + [it];
      q := next.value;
    }
    ScanStop(all, done, json[q..], true);
    return true, pos;
  }

  method GetString(json: bytes, key: bytes, out: array<byte>, cap: nat) returns (err: Code)
    requires 0 !in json && cap <= out.Length
    modifies out
    ensures var r := GetStringResult(json, key, cap);
            && err == (if r.ok then OK else INVALID)
            && Stored(out[..], old(out[..]), if r.ok then r.out + [0] else r.out)
  {
    if cap == 0 {
      return INVALID;
    }
    var v := FindValue(json, key);
    if v.None? {
      return INVALID;
    }
    err := ReadString(json, v.value, out, cap);
  }

  /** Read the string at position `p`. */
  method ReadString(json: bytes, p: nat, out: array<byte>, cap: nat) returns (err: Code)
    requires 0 !in json && p <= |json| && 0 < cap <= out.Length
    modifies out
    ensures var r := StringAt(json[p..], cap);
            && err == (if r.ok then OK else INVALID)
            && Stored(out[..], old(out[..]), if r.ok then r.out + [0] else r.out)
  {
    if CharAt(json, p) != QUOTE {
      return INVALID;
    }
    Suffix(json, p, 1);
    var ok, pos := Unescape(json, p + 1, out, cap);
    if !ok {
      return INVALID;
    }
    Terminate(out, pos, old(out[..]), out[..pos]);
    return OK;
  }

  method Terminate(out: array<byte>, pos: nat, ghost was: bytes, ghost w: bytes)
    requires pos == |w| < out.Length == |was| && Stored(out[..], was, w)
    modifies out
    ensures Stored(out[..], was, w + [0])
  {
    ghost var prior := out[..];
    out[pos] := 0;
    StoredMore(prior, out[..], was, w, [0]);
  }

  method GetUint(json: bytes, key: bytes) returns (r: Option<nat>)
    ensures r == GetUintResult(json, key)
  {
    var v := FindValue(json, key);
    if v.None? {
      return None;
    }
    var p := v.value;
    if !IsDigit(CharAt(json, p)) {
      return None;
    }
    ghost var start := json[p..];
    var value: nat := 0;
    while IsDigit(CharAt(json, p))
      invariant p <= |json|
      invariant DigitsValue(start, 0) == DigitsValue(json[p..], value)
      decreases |json| - p
    {
      Suffix(json, p, 1);
      value := NextValue(value, CharAt(json, p));
      p := p + 1;
    }
    return Some(value);
  }
}
