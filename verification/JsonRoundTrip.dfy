/** What the phone writes, the firmware reads: strings, numbers, and what a full buffer keeps. */
module JsonRoundTrip {
  import opened Bytes
  import opened Decimals
  import opened Json
  import opened JsonLookup
  import opened JsonReader

  // ---------- unescaping inverts escaping ----------

  function ItemOf(c: char): Item {
    if Printable(c) then Raw(c as int) else Point(c as int)
  }

  function ItemsOf(s: string): (items: seq<Item>)
    ensures |items| == |s|
  {
    seq(|s|, i requires 0 <= i < |s| => ItemOf(s[i]))
  }

  lemma HexDigitValue(d: nat)
    requires d < 16
    ensures HexValue(HexDigit(d)) == Some(d)
  {
  }

  lemma FourDigits(u: nat)
    ensures u == ((u / 0x1000 * 16 + u / 0x100 % 16) * 16 + u / 0x10 % 16) * 16 + u % 16
  {
    LastDigit(u, u / 0x10);
    LastDigit(u / 0x10, u / 0x100);
    LastDigit(u / 0x100, u / 0x1000);
  }

  lemma LastDigit(u: nat, d: nat)
    requires d == u / 16
    ensures u == d * 16 + u % 16
  {
  }

  lemma Hex4OfUnit(u: nat, t: bytes)
    requires u < 0x10000
    ensures Hex4((EscapeUnit(u) + t)[2..]) == Some(u)
  {
    var a, b, c, d := u / 0x1000, u / 0x100 % 16, u / 0x10 % 16, u % 16;
    FourDigits(u);
    HexDigitValue(a);
    HexDigitValue(b);
    HexDigitValue(c);
    HexDigitValue(d);
    assert (EscapeUnit(u) + t)[2..] == [HexDigit(a), HexDigit(b), HexDigit(c), HexDigit(d)] + t;
  }

  /** A written character is read back as one item, and reading goes on behind it. */
  lemma EscapeAtUnit(u: nat, t: bytes)
    requires u < 0x10000 && !(0xD800 <= u <= 0xDBFF)
    ensures EscapeAt((EscapeUnit(u) + t)[1..]) == Some((u, 5))
  {
    var e := (EscapeUnit(u) + t)[1..];
    Hex4OfUnit(u, t);
    assert e[1..] == (EscapeUnit(u) + t)[2..] && e[0] == 117;
  }

  lemma EscapeAtPair(v: nat, t: bytes)
    requires v < 0x100000
    ensures EscapeAt((EscapePair(v) + t)[1..]) == Some((0x10000 + v, 11))
  {
    var hi, lo := 0xD800 + v / 0x400, 0xDC00 + v % 0x400;
    var low := EscapeUnit(lo) + t;
    assert EscapePair(v) + t == EscapeUnit(hi) + low;
    Hex4OfUnit(hi, low);
    Hex4OfUnit(lo, t);
    UnitParts(hi, low);
    PairAt((EscapeUnit(hi) + low)[1..], low, hi, lo);
  }

  lemma UnitParts(u: nat, t: bytes)
    requires u < 0x10000
    ensures var e := (EscapeUnit(u) + t)[1..];
            e[0] == 117 && e[1..] == (EscapeUnit(u) + t)[2..] && |e| == 5 + |t| && e[5..] == t
  {
  }

  lemma PairAt(e: bytes, low: bytes, hi: nat, lo: nat)
    requires 0xD800 <= hi <= 0xDBFF && 0xDC00 <= lo <= 0xDFFF
    requires |e| == 5 + |low| && e[0] == 117 && e[5..] == low && Hex4(e[1..]) == Some(hi)
    requires |low| >= 6 && low[0] == BACKSLASH && low[1] == 117 && Hex4(low[2..]) == Some(lo)
    ensures EscapeAt(e) == Some((0x10000 + (hi - 0xD800) * 0x400 + (lo - 0xDC00), 11))
  {
    assert e[5] == low[0] && e[6] == low[1] && e[7..] == low[2..];
  }

  /** A backslash and a readable escape make one item. */
  lemma HeadEscape(e: bytes, cp: CodePoint, n: nat)
    requires e != [] && e[0] == BACKSLASH && n > 0
    requires EscapeAt(e[1..]) == Some((cp, n - 1))
    ensures HeadOf(e) == Got(Point(cp), n)
  {
  }

  lemma SimpleInvertsShort(c: char)
    requires ShortEscape(c).Some?
    ensures ShortEscape(c).value != 117 && SimpleEscape(ShortEscape(c).value) == Some(c as int)
  {
  }

  lemma HeadShort(c: char, t: bytes)
    requires !Printable(c) && ShortEscape(c).Some?
    ensures HeadOf(EscapeChar(c) + t) == Got(Point(c as int), |EscapeChar(c)|)
  {
    var u := EscapeChar(c);
    SimpleInvertsShort(c);
    assert (u + t)[1..][0] == ShortEscape(c).value;
    HeadEscape(u + t, c as int, 2);
  }

  lemma HeadPair(v: nat, t: bytes)
    requires v < 0x100000
    ensures HeadOf(EscapePair(v) + t) == Got(Point(0x10000 + v), 12)
  {
    EscapeAtPair(v, t);
    assert (EscapePair(v) + t)[0] == BACKSLASH;
    HeadEscape(EscapePair(v) + t, 0x10000 + v, 12);
  }

  lemma HeadRaw(c: char, t: bytes)
    requires Printable(c)
    ensures HeadOf(EscapeChar(c) + t) == Got(Raw(c as int), |EscapeChar(c)|)
  {
    assert ([c as int] + t)[0] == c as int;
  }

  lemma HeadUnit(c: char, t: bytes)
    requires !Printable(c) && ShortEscape(c) == None && c as int < 0x10000
    ensures HeadOf(EscapeChar(c) + t) == Got(Point(c as int), |EscapeChar(c)|)
  {
    EscapeAtUnit(c as int, t);
    HeadEscape(EscapeUnit(c as int) + t, c as int, 6);
  }

  /** A written character is one item. */
  lemma HeadOfChar(c: char, t: bytes)
    ensures HeadOf(EscapeChar(c) + t) == Got(ItemOf(c), |EscapeChar(c)|)
  {
    if Printable(c) {
      HeadRaw(c, t);
    } else if ShortEscape(c).Some? {
      HeadShort(c, t);
    } else if c as int < 0x10000 {
      HeadUnit(c, t);
    } else {
      HeadPair(c as int - 0x10000, t);
    }
  }

  lemma DropHead(u: bytes, t: bytes)
    ensures (u + t)[|u|..] == t
  {
  }

  lemma {:induction false} ScanEscape(s: string, rest: bytes)
    ensures Scan(Escape(s) + ([QUOTE] + rest)) == Scanned(ItemsOf(s), true)
  {
    var end := [QUOTE] + rest;
    if s == "" {
      assert Escape(s) + end == end;
      assert ItemsOf(s) == [];
    } else {
      var u, t := EscapeChar(s[0]), Escape(s[1..]) + end;
      assert Escape(s) + end == u + t;
      ScanEscape(s[1..], rest);
      HeadOfChar(s[0], t);
      DropHead(u, t);
      assert ItemsOf(s) == [ItemOf(s[0])] + ItemsOf(s[1..]);
    }
  }

  // ---------- what a bounded buffer keeps ----------

  function Concat(items: seq<Item>): bytes {
    if items == [] then [] else Concat(items[..|items| - 1]) + ItemBytes(items[|items| - 1])
  }

  /** `sub` is `items` with some left out, in order. */
  ghost predicate Subsequence(sub: seq<Item>, items: seq<Item>)
    decreases items
  {
    if items == [] then sub == []
    else
      var init, last := items[..|items| - 1], items[|items| - 1];
      Subsequence(sub, init) || (sub != [] && sub[|sub| - 1] == last && Subsequence(sub[..|sub| - 1], init))
  }

  /** Whatever the text decodes to, the buffer ends up with whole items only, in order, and room for
      the terminator; a character is never split. */
  lemma {:induction false} KeptIsSubsequence(items: seq<Item>, cap: nat) returns (sub: seq<Item>)
    requires cap > 0
    ensures Subsequence(sub, items) && Kept(items, cap) == Concat(sub)
    ensures |Kept(items, cap)| < cap
  {
    if items == [] {
      sub := [];
    } else {
      var init, last := items[..|items| - 1], items[|items| - 1];
      sub := KeptIsSubsequence(init, cap);
      if |Kept(init, cap)| + |ItemBytes(last)| < cap {
        var more := sub + [last];
        assert more[..|more| - 1] == sub;
        sub := more;
      }
    }
  }

  /** Everything is kept exactly when everything fits. */
  lemma {:induction false} KeptAll(items: seq<Item>, cap: nat)
    requires cap > 0
    ensures |Concat(items)| < cap <==> Kept(items, cap) == Concat(items)
    ensures |Kept(items, cap)| <= |Concat(items)|
  {
    if items != [] {
      var init, last := items[..|items| - 1], items[|items| - 1];
      KeptAll(init, cap);
      var sub := KeptIsSubsequence(items, cap);
    }
  }

  lemma {:induction false} KeptGrows(items: seq<Item>, k: nat, cap: nat)
    requires cap > 0 && k <= |items|
    ensures Kept(items[..k], cap) <= Kept(items, cap)
  {
    if k < |items| {
      var init := items[..|items| - 1];
      assert init[..k] == items[..k];
      KeptGrows(init, k, cap);
    } else {
      assert items[..k] == items;
    }
  }

  /** No item from position `k` on fits behind `n` bytes. */
  ghost predicate NoneFits(items: seq<Item>, k: nat, n: nat, cap: nat) {
    forall j :: k <= j < |items| ==> n + |ItemBytes(items[j])| >= cap
  }

  /** What is kept is exactly the first `k` items if and only if these fit and behind them no later
      item fits by itself. */
  lemma {:induction false} KeptPrefixExact(items: seq<Item>, k: nat, cap: nat)
    requires cap > 0 && k <= |items|
    ensures Kept(items, cap) == Concat(items[..k])
            <==> |Concat(items[..k])| < cap && NoneFits(items, k, |Concat(items[..k])|, cap)
  {
    var c := Concat(items[..k]);
    if k == |items| {
      assert items[..k] == items;
      KeptAll(items, cap);
    } else {
      var init, last := items[..|items| - 1], items[|items| - 1];
      assert init[..k] == items[..k];
      KeptPrefixExact(init, k, cap);
      NoneFitsLast(items, k, |c|, cap);
      if Kept(items, cap) == c {
        KeptEarlier(items, k, cap);
      }
    }
  }

  lemma NoneFitsLast(items: seq<Item>, k: nat, n: nat, cap: nat)
    requires k < |items|
    ensures var init, last := items[..|items| - 1], items[|items| - 1];
            NoneFits(items, k, n, cap) <==> NoneFits(init, k, n, cap) && n + |ItemBytes(last)| >= cap
  {
  }

  /** If the first `k` items are what is kept in the end, they are so before the last item too. */
  lemma KeptEarlier(items: seq<Item>, k: nat, cap: nat)
    requires cap > 0 && k < |items| && Kept(items, cap) == Concat(items[..k])
    ensures Kept(items[..|items| - 1], cap) == Concat(items[..k])
  {
    var init := items[..|items| - 1];
    assert init[..k] == items[..k];
    KeptAll(items[..k], cap);
    KeptGrows(init, k, cap);
  }

  /** How many leading items fit one after the other. */
  function Fitting(items: seq<Item>, cap: nat): (n: nat)
    ensures n <= |items|
  {
    if items == [] then 0
    else
      var n := Fitting(items[..|items| - 1], cap);
      if n == |items| - 1 && |Concat(items)| < cap then |items| else n
  }

  lemma {:induction false} ConcatGrows(items: seq<Item>, k: nat)
    requires k <= |items|
    ensures |Concat(items[..k])| + |items| - k <= |Concat(items)|
  {
    if k < |items| {
      var init := items[..|items| - 1];
      assert init[..k] == items[..k];
      ConcatGrows(init, k);
    } else {
      assert items[..k] == items;
    }
  }

  /** That number is the only one whose items fit while those of one more do not. */
  lemma {:induction false} FittingExact(items: seq<Item>, k: nat, cap: nat)
    requires cap > 0 && k <= |items|
    ensures Fitting(items, cap) == k
            <==> |Concat(items[..k])| < cap && (k < |items| ==> |Concat(items[..k + 1])| >= cap)
  {
    if items == [] {
      assert items[..k] == [];
    } else {
      var init := items[..|items| - 1];
      assert items[..|items|] == items;
      if k < |items| {
        FittingExact(init, k, cap);
        assert init[..k] == items[..k] && (k < |init| ==> init[..k + 1] == items[..k + 1]);
        if k < |init| {
          ConcatGrows(items, k + 1);
        }
      } else {
        FittingExact(init, |init|, cap);
        ConcatGrows(items, |init|);
        assert init[..|init|] == init;
      }
    }
  }

  /** What is kept is a beginning of the items, and not merely some of them, if and only if behind
      the leading items that fit no later item fits by itself. */
  lemma KeptIsPrefixExact(items: seq<Item>, cap: nat)
    requires cap > 0
    ensures var n := Fitting(items, cap);
            (exists k :: 0 <= k <= |items| && Kept(items, cap) == Concat(items[..k]))
            <==> NoneFits(items, n, |Concat(items[..n])|, cap)
  {
    var n := Fitting(items, cap);
    FittingExact(items, n, cap);
    KeptPrefixExact(items, n, cap);
    if k :| 0 <= k <= |items| && Kept(items, cap) == Concat(items[..k]) {
      KeptPrefixExact(items, k, cap);
      FittingExact(items, k, cap);
      if k < |items| {
        assert items[..k + 1][..k] == items[..k];
      }
    }
  }

  /** So what is kept need not be a prefix: a character that no longer fits is skipped, a shorter one
      behind it is still stored. */
  lemma KeptIsNotPrefix()
    ensures Kept([Point(0x20AC), Raw(97)], 3) == [97]
    ensures !([97] <= Concat([Point(0x20AC), Raw(97)]))
  {
    var items := [Point(0x20AC), Raw(97)];
    assert items[..1] == [Point(0x20AC)] && [Point(0x20AC)][..0] == [];
    assert Kept([Point(0x20AC)], 3) == [];
    assert Concat([Point(0x20AC)]) == [0xE2, 0x82, 0xAC];
    assert Concat(items)[0] == 0xE2;
  }

  lemma {:induction false} ConcatIsUtf8(s: string)
    ensures Concat(ItemsOf(s)) == Utf8All(s)
  {
    if s != "" {
      var init, c := s[..|s| - 1], s[|s| - 1];
      assert s == init + [c];
      ConcatIsUtf8(init);
      assert ItemsOf(s)[..|s| - 1] == ItemsOf(init);
      Utf8Append(init, c);
      assert ItemBytes(ItemOf(c)) == Utf8(c as int);
    } else {
      assert ItemsOf(s) == [];
    }
  }

  lemma {:induction false} Utf8Append(s: string, c: char)
    ensures Utf8All(s + [c]) == Utf8All(s) + Utf8(c as int)
  {
    if s == "" {
      assert s + [c] == [c];
      assert Utf8All([c]) == Utf8(c as int) + Utf8All("");
    } else {
      assert (s + [c])[1..] == s[1..] + [c];
      Utf8Append(s[1..], c);
    }
  }

  predicate HasNoNul(s: string) {
    forall i :: 0 <= i < |s| ==> s[i] as int != 0
  }

  lemma {:induction false} NoNulByte(s: string)
    requires HasNoNul(s)
    ensures 0 !in Utf8All(s)
  {
    if s != "" {
      NoNulByte(s[1..]);
    }
  }

  /** Only U+0000 puts a NUL into the text, so any other text is a C string as it stands. */
  lemma NoNul(s: string)
    requires HasNoNul(s)
    ensures CStr(Utf8All(s) + [0]) == Utf8All(s)
  {
    var b := Utf8All(s);
    NoNulByte(s);
    assert (b + [0])[..|b|] == b;
    CStrUnique(b + [0], |b|);
  }

  // ---------- reading a member of a written message ----------

  lemma {:induction false} DumpsHasNoNul(ms: seq<Member>)
    ensures 0 !in Dumps(ms)
  {
    MembersHaveNoNul(ms);
  }

  lemma {:induction false} MembersHaveNoNul(ms: seq<Member>)
    ensures 0 !in MembersText(ms)
  {
    if ms != [] {
      EscapeShape(ms[0].key);
      if ms[0].value.Text? {
        EscapeShape(ms[0].value.text);
      }
      assert 0 !in ValueText(ms[0].value);
      assert 0 !in MemberText(ms[0]);
      MembersHaveNoNul(ms[1..]);
    }
  }

  lemma FoundGives(t: bytes, k: string, p: nat, rest: bytes)
    requires |k| + 2 < NEEDLE_CAP && FirstThen(t, Needle(k), p, rest)
    ensures ValueOf(t, Ascii(k)) == AfterColon(rest)
  {
    FindIsFirst(t, Needle(k), p);
    assert Needle(k) == [QUOTE] + Ascii(k) + [QUOTE];
  }

  lemma ReachesValue(ms: seq<Member>, k: string, j: nat)
    requires PlainKey(k) && |k| + 2 < NEEDLE_CAP && j < |ms| && ms[j].key == k && NoEarlierHit(ms, k, j)
    ensures ValueOf(Dumps(ms), Ascii(k)) == Some(ValueText(ms[j].value) + AfterMember(ms, j))
  {
    ReachesValueAt(ms, k, j, Dumps(ms), KeyAt(ms, j), ValueText(ms[j].value) + AfterMember(ms, j));
  }

  lemma ReachesValueAt(ms: seq<Member>, k: string, j: nat, text: bytes, p: nat, v: bytes)
    requires PlainKey(k) && |k| + 2 < NEEDLE_CAP && j < |ms| && ms[j].key == k && NoEarlierHit(ms, k, j)
    requires text == Dumps(ms) && p == KeyAt(ms, j) && v == ValueText(ms[j].value) + AfterMember(ms, j)
    ensures ValueOf(text, Ascii(k)) == Some(v)
  {
    FirstInMessage(ms, k, j, text, p);
    TextAfterKey(ms, k, j, text, p);
    ValueStart(ms[j].value);
    ReachesText(text, k, 1 + p, v);
  }

  lemma FirstInMessage(ms: seq<Member>, k: string, j: nat, text: bytes, p: nat)
    requires PlainKey(k) && j < |ms| && ms[j].key == k && NoEarlierHit(ms, k, j)
    requires text == Dumps(ms) && p == KeyAt(ms, j)
    ensures FirstAt(text, Needle(k), 1 + p)
  {
    FindsMember(ms, k, j);
    FirstInDumps(MembersText(ms), k, p);
  }

  lemma ReachesText(t: bytes, k: string, p: nat, v: bytes)
    requires |k| + 2 < NEEDLE_CAP && FirstAt(t, Needle(k), p)
    requires p + |Needle(k)| <= |t| && t[p + |Needle(k)|..] == [COLON] + v
    requires v != [] && v[0] != 32 && v[0] != 9
    ensures ValueOf(t, Ascii(k)) == Some(v)
  {
    FoundGives(t, k, p, [COLON] + v);
    ColonThen(v);
  }

  lemma ValueStart(v: Value)
    ensures ValueText(v) != [] && ValueText(v)[0] != 32 && ValueText(v)[0] != 9
  {
    if v.Num? {
      assert Decimal(v.num)[0] in Decimal(v.num);
    }
  }

  lemma ColonThen(v: bytes)
    requires v != [] && v[0] != 32 && v[0] != 9
    ensures AfterColon([COLON] + v) == Some(v)
  {
    assert ([COLON] + v)[1..] == v;
  }

  /** Reading a string member whose quoted key does not turn up earlier: the firmware gets the
      items of the text, as many as fit; if the UTF-8 form fits, it gets exactly that. */
  lemma StringRoundTrip(ms: seq<Member>, k: string, s: string, j: nat, cap: nat)
    requires PlainKey(k) && |k| + 2 < NEEDLE_CAP && cap > 0
    requires j < |ms| && ms[j] == Member(k, Text(s)) && NoEarlierHit(ms, k, j)
    ensures GetStringResult(Dumps(ms), Ascii(k), cap) == Read(true, Kept(ItemsOf(s), cap))
    ensures |Utf8All(s)| < cap <==> GetStringResult(Dumps(ms), Ascii(k), cap) == Read(true, Utf8All(s))
  {
    var after := AfterMember(ms, j);
    ReachesValue(ms, k, j);
    StringValueRead(Dumps(ms), Ascii(k), s, after, cap);
  }

  lemma StringValueRead(t: bytes, key: bytes, s: string, after: bytes, cap: nat)
    requires cap > 0 && ValueOf(t, key) == Some(Token(s) + after)
    ensures GetStringResult(t, key, cap) == Read(true, Kept(ItemsOf(s), cap))
    ensures |Utf8All(s)| < cap <==> Kept(ItemsOf(s), cap) == Utf8All(s)
  {
    ScanToken(s, after);
    FitsExactly(s, cap);
  }

  lemma ScanToken(s: string, after: bytes)
    ensures var v := Token(s) + after; v[0] == QUOTE && Scan(v[1..]) == Scanned(ItemsOf(s), true)
  {
    ScanEscape(s, after);
    assert (Token(s) + after)[1..] == Escape(s) + ([QUOTE] + after);
  }

  lemma FitsExactly(s: string, cap: nat)
    requires cap > 0
    ensures |Utf8All(s)| < cap <==> Kept(ItemsOf(s), cap) == Utf8All(s)
  {
    ConcatIsUtf8(s);
    KeptAll(ItemsOf(s), cap);
  }

  lemma DecimalRead(n: nat, rest: bytes)
    requires rest != [] && !IsDigit(rest[0])
    ensures DigitsValue(Decimal(n) + rest, 0) == n % TWO32
  {
    DigitsFold(n, rest);
    DigitsStop(rest, n % TWO32);
  }

  lemma DigitsStop(rest: bytes, acc: nat)
    requires rest != [] && !IsDigit(rest[0])
    ensures DigitsValue(rest, acc) == acc
  {
  }

  lemma {:induction false} DigitsFold(n: nat, rest: bytes)
    ensures DigitsValue(Decimal(n) + rest, 0) == DigitsValue(rest, n % TWO32)
  {
    if n < 10 {
      assert ([48 + n] + rest)[1..] == rest;
    } else {
      var d := [48 + n % 10] + rest;
      assert Decimal(n) + rest == Decimal(n / 10) + d;
      DigitsFold(n / 10, d);
      assert d[1..] == rest;
      DigitMod(n);
    }
  }

  lemma DigitMod(n: nat)
    ensures (n / 10 % TWO32 * 10 + n % 10) % TWO32 == n % TWO32
  {
    var q, r := n / 10 / TWO32, n / 10 % TWO32;
    assert n == n / 10 * 10 + n % 10 && n / 10 == q * TWO32 + r;
    assert n == q * 10 * TWO32 + (r * 10 + n % 10);
    var m := r * 10 + n % 10;
    assert n == (q * 10 + m / TWO32) * TWO32 + m % TWO32;
    DivModUnique(n, TWO32, q * 10 + m / TWO32, m % TWO32);
  }

  /** Reading a number member gives the number modulo 2^32. */
  lemma NumberRoundTrip(ms: seq<Member>, k: string, n: nat, j: nat)
    requires PlainKey(k) && |k| + 2 < NEEDLE_CAP
    requires j < |ms| && ms[j] == Member(k, Num(n)) && NoEarlierHit(ms, k, j)
    ensures GetUintResult(Dumps(ms), Ascii(k)) == Some(n % TWO32)
  {
    ReachesValue(ms, k, j);
    DecimalRead(n, AfterMember(ms, j));
    assert Decimal(n)[0] in Decimal(n);
  }

  // ---------- and when the search goes astray ----------

  /** In a string that is a hit the first occurrence of the quoted key ends at the closing quote. */
  lemma HitEndsToken(s: string, k: string, rest: bytes)
    requires PlainKey(k) && Hit(s, k) && AfterString(rest)
    ensures |Escape(s)| >= |k| && FirstAt(Token(s) + rest, Needle(k), |Escape(s)| - |k|)
  {
    var e := Escape(s);
    EscapeShape(s);
    var i := TokenMatch(s, k, rest);
    assert Token(s) + rest == Quoted(e, rest);
    MatchByElements(e, rest, k, i);
    KeyEndsAtQuote(e, rest, k, i);
    forall q | 0 <= q < i ensures !(Needle(k) <= (Token(s) + rest)[q..]) {
      if Needle(k) <= (Token(s) + rest)[q..] {
        MatchByElements(e, rest, k, q);
        KeyEndsAtQuote(e, rest, k, q);
      }
    }
  }

  /** The first occurrence of the needle, and what follows it. */
  ghost predicate FirstThen(t: bytes, needle: bytes, p: nat, after: bytes) {
    FirstAt(t, needle, p) && p + |needle| <= |t| && t[p + |needle|..] == after
  }

  /** The search stops in the value of the first member that is a hit there. */
  lemma {:induction false} StopsInValue(ms: seq<Member>, k: string, i: nat) returns (p: nat)
    requires PlainKey(k) && i < |ms| && NoEarlierHit(ms, k, i)
    requires !Hit(ms[i].key, k) && ms[i].value.Text? && Hit(ms[i].value.text, k)
    ensures FirstThen(MembersText(ms), Needle(k), p, AfterMember(ms, i))
  {
    if i == 0 {
      p := StopsInFirst(ms[0], k, AfterMember(ms, 0));
      FirstOf(ms, k, p, AfterMember(ms, 0));
    } else {
      NoHitInTail(ms, k, i);
      var q := StopsInValue(ms[1..], k, i - 1);
      AfterMemberTail(ms, i);
      p := StopsLater(ms, k, q, AfterMember(ms, i));
    }
  }

  lemma FirstOf(ms: seq<Member>, k: string, p: nat, after: bytes)
    requires ms != [] && FirstThen(MemberText(ms[0]) + AfterMember(ms, 0), Needle(k), p, after)
    ensures FirstThen(MembersText(ms), Needle(k), p, after)
  {
    MembersSplit(ms);
  }

  lemma StopsLater(ms: seq<Member>, k: string, q: nat, after: bytes) returns (p: nat)
    requires PlainKey(k) && |ms| > 1 && !MemberHit(ms[0], k)
    requires FirstThen(MembersText(ms[1..]), Needle(k), q, after)
    ensures FirstThen(MembersText(ms), Needle(k), p, after)
  {
    FindsLater(ms, k, q);
    SuffixAfterMember(ms, q + |Needle(k)|);
    p := |MemberText(ms[0])| + 1 + q;
  }

  lemma StopsInFirst(m: Member, k: string, rest: bytes) returns (p: nat)
    requires PlainKey(k) && AfterString(rest)
    requires !Hit(m.key, k) && m.value.Text? && Hit(m.value.text, k)
    ensures FirstThen(MemberText(m) + rest, Needle(k), p, rest)
  {
    var s := m.value.text;
    var i, v := |Escape(s)| - |k|, Token(s) + rest;
    HitEndsToken(s, k, rest);
    SkipPlain([COLON], v, k, i);
    SkipToken(m.key, k, [COLON] + v, 1 + i);
    p := |Token(m.key)| + (1 + i);
    TextMember(m, rest);
    MemberParts(m, rest);
    DropTail(Token(m.key) + [COLON] + Token(s), rest, p + |Needle(k)|);
    Assoc(Token(m.key) + [COLON], Token(s), rest);
  }

  lemma DropTail(t: bytes, rest: bytes, n: nat)
    requires n == |t|
    ensures (t + rest)[n..] == rest
  {
  }

  /** When no key before the member contains the quoted key, the firmware's reader reaches the
      member exactly when no string value before it equals the key or ends in a quote and the key;
      otherwise it reports an error, whatever the member holds. */
  lemma ReadExact(ms: seq<Member>, k: string, j: nat)
    requires PlainKey(k) && |k| + 2 < NEEDLE_CAP && j < |ms| && ms[j].key == k
    requires forall i :: 0 <= i < j ==> !Hit(ms[i].key, k)
    ensures ValueOf(Dumps(ms), Ascii(k)).Some?
            <==> forall i :: 0 <= i < j && ms[i].value.Text? ==> !Hit(ms[i].value.text, k)
  {
    if i :| 0 <= i < j && ms[i].value.Text? && Hit(ms[i].value.text, k) {
      var first := FirstHit(ms, k, i);
      GoesAstray(ms, k, first);
    } else {
      ReachesValue(ms, k, j);
    }
  }

  lemma GoesAstray(ms: seq<Member>, k: string, i: nat)
    requires PlainKey(k) && |k| + 2 < NEEDLE_CAP && i < |ms| && NoEarlierHit(ms, k, i)
    requires !Hit(ms[i].key, k) && ms[i].value.Text? && Hit(ms[i].value.text, k)
    ensures ValueOf(Dumps(ms), Ascii(k)) == None
  {
    var t, after := MembersText(ms), AfterMember(ms, i);
    var p := StopsInValue(ms, k, i);
    FirstInDumps(t, k, p);
    DropDrop(t, [OPEN], p, |Needle(k)|);
    assert t[p..][|Needle(k)|..] == after;
    FoundGives(Dumps(ms), k, 1 + p, after);
    NoColon(after);
  }

  lemma NoColon(t: bytes)
    requires t != [] && t[0] in {COMMA, CLOSE}
    ensures AfterColon(t) == None
  {
  }

  lemma {:induction false} FirstHit(ms: seq<Member>, k: string, i: nat) returns (first: nat)
    requires i < |ms| && ms[i].value.Text? && Hit(ms[i].value.text, k)
    requires forall j :: 0 <= j <= i ==> !Hit(ms[j].key, k)
    ensures first <= i && NoEarlierHit(ms, k, first)
    ensures ms[first].value.Text? && Hit(ms[first].value.text, k)
  {
    if j :| 0 <= j < i && MemberHit(ms[j], k) {
      first := FirstHit(ms, k, j);
    } else {
      first := i;
    }
  }
}
