/** The provisioning console: a tokenizer that cuts the line in place, one command per line, and
    what holds over every session. */
module Console {
  import opened Bytes
  import opened Decimals
  import opened Framing
  import opened Config

  const LINE_CAP: nat := 256
  const OUT_CAP: nat := 160
  const VALUE_CAP: nat := 128

  // ---------- tokens ----------

  function WordLength(t: bytes): (n: nat)
    ensures n <= |t|
    ensures n < |t| ==> IsBlank(t[n])
    ensures forall i :: 0 <= i < n ==> !IsBlank(t[i])
  {
    if t == [] || IsBlank(t[0]) then 0 else 1 + WordLength(t[1..])
  }

  /** The next word of a string, and what follows it and one separator. */
  function NextTokenOf(t: bytes): Option<(bytes, bytes)> {
    var s := SkipBlanks(t);
    if s == [] then None
    else
      var n := WordLength(s);
      Some((s[..n], if n < |s| then s[n + 1..] else []))
  }

  predicate AllBlank(t: bytes) { forall b <- t :: IsBlank(b) }

  predicate NoBlank(t: bytes) { forall b <- t :: !IsBlank(b) }

  /** Blanks, a word, at most one separating blank, and the rest. */
  ghost predicate Splits(t: bytes, blanks: bytes, word: bytes, sep: bytes, rest: bytes) {
    && AllBlank(blanks) && word != [] && NoBlank(word)
    && |sep| <= 1 && AllBlank(sep) && (sep == [] ==> rest == [])
    && t == blanks + (word + (sep + rest))
  }

  lemma {:induction false} SkipBlanksOf(blanks: bytes, s: bytes)
    requires AllBlank(blanks) && (s == [] || !IsBlank(s[0]))
    ensures SkipBlanks(blanks + s) == s
  {
    if blanks == [] {
      assert blanks + s == s;
    } else {
      assert (blanks + s)[0] in blanks && (blanks + s)[1..] == blanks[1..] + s;
      assert forall b <- blanks[1..] :: b in blanks;
      SkipBlanksOf(blanks[1..], s);
    }
  }

  lemma {:induction false} WordLengthOf(word: bytes, s: bytes)
    requires NoBlank(word) && (s == [] || IsBlank(s[0]))
    ensures WordLength(word + s) == |word|
  {
    if word == [] {
      assert word + s == s;
    } else {
      assert (word + s)[0] in word && (word + s)[1..] == word[1..] + s;
      assert forall b <- word[1..] :: b in word;
      WordLengthOf(word[1..], s);
    }
  }

  lemma FrontBlank(t: bytes, more: bytes, s: bytes)
    requires t != [] && IsBlank(t[0]) && AllBlank(more) && t[1..] == more + s
    ensures AllBlank([t[0]] + more) && t == [t[0]] + more + s
  {
    assert t == [t[0]] + t[1..];
    assert [t[0]] + (more + s) == [t[0]] + more + s;
  }

  lemma {:induction false} BlanksSkipped(t: bytes) returns (blanks: bytes)
    ensures AllBlank(blanks) && t == blanks + SkipBlanks(t)
  {
    if t != [] && IsBlank(t[0]) {
      var more := BlanksSkipped(t[1..]);
      blanks := [t[0]] + more;
      FrontBlank(t, more, SkipBlanks(t[1..]));
    } else {
      blanks := [];
    }
  }

  /** The tokenizer yields exactly the first word between blanks and what follows one separator. */
  lemma TokenExact(t: bytes, word: bytes, rest: bytes)
    ensures NextTokenOf(t) == Some((word, rest)) <==> exists blanks, sep :: Splits(t, blanks, word, sep, rest)
    ensures NextTokenOf(t) == None <==> AllBlank(t)
  {
    if blanks, sep :| Splits(t, blanks, word, sep, rest) {
      TokenOfSplit(t, blanks, word, sep, rest);
    }
    if NextTokenOf(t) == Some((word, rest)) {
      var blanks, sep := SplitOfToken(t, word, rest);
    }
    var before := BlanksSkipped(t);
    assert before + [] == before;
    if AllBlank(t) {
      SkipBlanksOf(t, []);
      assert t + [] == t;
    }
  }

  lemma TokenOfSplit(t: bytes, blanks: bytes, word: bytes, sep: bytes, rest: bytes)
    requires Splits(t, blanks, word, sep, rest)
    ensures NextTokenOf(t) == Some((word, rest))
  {
    var after := sep + rest;
    assert word[0] in word;
    SkipBlanksOf(blanks, word + after);
    assert sep != [] ==> sep[0] in sep;
    WordLengthOf(word, after);
    assert (word + after)[..|word|] == word;
    assert sep != [] ==> (word + after)[|word| + 1..] == rest;
  }

  lemma SplitOfToken(t: bytes, word: bytes, rest: bytes) returns (blanks: bytes, sep: bytes)
    requires NextTokenOf(t) == Some((word, rest))
    ensures Splits(t, blanks, word, sep, rest)
  {
    blanks := BlanksSkipped(t);
    sep := SplitOfWord(SkipBlanks(t), word, rest);
  }

  lemma SplitOfWord(s: bytes, word: bytes, rest: bytes) returns (sep: bytes)
    requires s != [] && !IsBlank(s[0])
    requires var n := WordLength(s); word == s[..n] && rest == if n < |s| then s[n + 1..] else []
    ensures word != [] && NoBlank(word) && |sep| <= 1 && AllBlank(sep) && (sep == [] ==> rest == [])
    ensures s == word + (sep + rest)
  {
    var n := WordLength(s);
    sep := if n < |s| then [s[n]] else [];
  }

  /** The C string that starts at `p`. */
  function StringAt(buf: bytes, p: nat): bytes
    requires p <= |buf|
  {
    CStr(buf[p..])
  }

  /** Positions `p` to `p + n` hold exactly the string `t` and its terminator. */
  ghost predicate HoldsAt(buf: bytes, p: nat, t: bytes) {
    p + |t| < |buf| && buf[p..p + |t|] == t && buf[p + |t|] == 0 && 0 !in t
  }

  lemma HoldsString(buf: bytes, p: nat, t: bytes)
    requires HoldsAt(buf, p, t)
    ensures StringAt(buf, p) == t
  {
    var b := buf[p..];
    assert b[..|t|] == t && b[|t|] == 0;
    CStrUnique(b, |t|);
  }

  /** The first position at or after `p` that holds no blank. */
  method PassBlanks(buf: array<byte>, p: nat, ghost t: bytes) returns (s: nat)
    requires HoldsAt(buf[..], p, t)
    ensures p <= s < buf.Length && HoldsAt(buf[..], s, SkipBlanks(t))
  {
    s := p;
    ghost var left := t;
    while IsBlank(buf[s])
      invariant p <= s < buf.Length && s + |left| == p + |t|
      invariant HoldsAt(buf[..], s, left) && SkipBlanks(left) == SkipBlanks(t)
      decreases |left|
    {
      HoldsTail(buf[..], s, left, 1);
      HoldsHead(buf[..], s, left);
      left := left[1..];
      s := s + 1;
    }
    HoldsHead(buf[..], s, left);
  }

  /** The end of the word that starts at `p`. */
  method PassWord(buf: array<byte>, p: nat, ghost t: bytes) returns (s: nat)
    requires HoldsAt(buf[..], p, t)
    ensures s == p + WordLength(t) < buf.Length && (buf[s] == 0 <==> WordLength(t) == |t|)
  {
    s := p;
    ghost var left, b := t, buf[..];
    HoldsHead(b, s, left);
    while buf[s] != 0 && !IsBlank(buf[s])
      invariant s < buf.Length && s + |left| == p + |t|
      invariant HoldsAt(b, s, left) && s + WordLength(left) == p + WordLength(t)
      decreases |left|
    {
      WordStep(b, s, left);
      left := left[1..];
      s := s + 1;
    }
    HoldsHead(b, s, left);
  }

  lemma WordStep(b: bytes, s: nat, left: bytes)
    requires HoldsAt(b, s, left) && b[s] != 0 && !IsBlank(b[s])
    ensures left != [] && HoldsAt(b, s + 1, left[1..]) && WordLength(left) == 1 + WordLength(left[1..])
    ensures s + 1 < |b|
  {
    HoldsHead(b, s, left);
    HoldsTail(b, s, left, 1);
  }

  lemma HoldsHead(buf: bytes, p: nat, t: bytes)
    requires HoldsAt(buf, p, t)
    ensures p < |buf| && buf[p] == (if t == [] then 0 else t[0]) && (buf[p] == 0 <==> t == [])
  {
    assert t != [] ==> buf[p..p + |t|][0] == buf[p];
  }

  /** Cut the next word out of the buffer by writing a terminator behind it. */
  method NextToken(buf: array<byte>, p: nat, ghost t: bytes) returns (tok: Option<nat>, q: nat, ghost rest: bytes)
    requires HoldsAt(buf[..], p, t)
    modifies buf
    ensures HoldsAt(buf[..], q, rest)
    ensures match NextTokenOf(t)
            case None => tok == None && rest == []
            case Some((word, after)) => tok.Some? && HoldsAt(buf[..], tok.value, word) && rest == after
  {
    var start := PassBlanks(buf, p, t);
    ghost var word := SkipBlanks(t);
    HoldsHead(buf[..], start, word);
    if buf[start] == 0 {
      return None, start, [];
    }
    var end := PassWord(buf, start, word);
    ghost var was, n := buf[..], WordLength(word);
    if buf[end] != 0 {
      buf[end] := 0;
      CutWord(was, buf[..], start, word, n);
      return Some(start), end + 1, word[n + 1..];
    } else {
      assert word[..n] == word;
      return Some(start), end, [];
    }
  }

  lemma HoldsTail(buf: bytes, p: nat, t: bytes, n: nat)
    requires HoldsAt(buf, p, t) && n <= |t|
    ensures HoldsAt(buf, p + n, t[n..])
  {
    assert buf[p + n..p + |t|] == buf[p..p + |t|][n..];
  }

  lemma CutWord(was: bytes, now: bytes, start: nat, word: bytes, n: nat)
    requires HoldsAt(was, start, word) && n < |word| && now == was[start + n := 0]
    ensures HoldsAt(now, start, word[..n]) && HoldsAt(now, start + n + 1, word[n + 1..])
  {
    HoldsTail(was, start, word, n + 1);
    assert now[start..start + n] == was[start..start + |word|][..n];
    var m := start + n + 1;
    assert now[m..m + |word[n + 1..]|] == was[m..m + |word[n + 1..]|];
  }

  // ---------- commands ----------

  /** A session: the settings in memory and whether they have unsaved changes. */
  datatype Session = Session(cfg: Settings, dirty: bool)

  /** What one line does: the new session, the lines printed, and whether the settings were stored. */
  datatype Outcome = Outcome(next: Session, lines: seq<Message>, saved: bool)

  function TrimRight(t: bytes): (r: bytes)
    ensures r <= t
  {
    if t != [] && t[|t| - 1] in {10, 13, 32, 9} then TrimRight(t[..|t| - 1]) else t
  }

  /** The part of a line that the console looks at. */
  function Trimmed(line: bytes): bytes {
    TrimRight(line[..Min(|line|, LINE_CAP - 1)])
  }

  /** What the console prints, before it is spelled out. */
  datatype Message =
    | Usage
    | GetUsage
    | SetUsage
    | UnknownKey
    | Invalid
    | UnknownCommand
    | IsSet(yes: bool)
    | Plain(text: bytes)
    | Setting(key: bytes, value: Message)
    | Updated(key: bytes)
    | Saved
    | SaveFailed
    | ResetDone

  /** `%-13s = %s` in a buffer of OUT_CAP bytes. */
  function Labelled(key: bytes, value: bytes): bytes {
    Cut(key + seq(if |key| < 13 then 13 - |key| else 0, i => 32) + Ascii(" = ") + value, OUT_CAP)
  }

  const HELP_LINES: seq<bytes> := [
    Ascii("commands:"),
    Ascii("  show                 print all settings (password masked)"),
    Ascii("  get <key>            print one setting"),
    Ascii("  set <key> <value>    change a setting (in memory)"),
    Ascii("  save                 persist changes to storage"),
    Ascii("  reset                restore defaults (then 'save' to persist)"),
    Ascii("  help                 this help"),
    Ascii("keys: device_name | wifi_ssid | wifi_password | server_host | server_port")]

  function Spell(m: Message): seq<bytes> {
    match m
    case Usage => HELP_LINES
    case GetUsage => [Ascii("error: usage: get <key>")]
    case SetUsage => [Ascii("error: usage: set <key> <value>")]
    case UnknownKey => [Ascii("error: unknown key")]
    case Invalid => [Ascii("error: invalid key or value")]
    case UnknownCommand => [Ascii("error: unknown command (type 'help')")]
    case IsSet(yes) => [if yes then Ascii("(set)") else Ascii("(unset)")]
    case Plain(text) => [text]
    case Setting(key, value) => [Labelled(key, if Spell(value) == [] then [] else Spell(value)[0])]
    case Updated(key) =>
      if key == PASS_KEY then [Ascii("ok: wifi_password updated (use 'save' to persist)")]
      else [Cut(Ascii("ok: ") + key + Ascii(" set (use 'save' to persist)"), OUT_CAP)]
    case Saved => [Ascii("ok: saved")]
    case SaveFailed => [Ascii("error: failed to save")]
    case ResetDone => [Ascii("ok: configuration reset to defaults (use 'save' to persist)")]
  }

  function OrUnset(text: bytes): Message {
    if text != [] then Plain(text) else IsSet(false)
  }

  function SetMark(field: bytes): Message
    requires field != []
  {
    IsSet(field[0] != 0)
  }

  function ShowLines(s: Settings): seq<Message>
    requires FieldLengths(s)
  {
    [Setting(NAME_KEY, Plain(CStr(s.name))),
     Setting(SSID_KEY, OrUnset(CStr(s.ssid))),
     Setting(PASS_KEY, SetMark(s.password)),
     Setting(HOST_KEY, OrUnset(CStr(s.host))),
     Setting(PORT_KEY, Plain(Decimal(s.port)))]
  }

  function GetLines(s: Settings, args: bytes): seq<Message>
    requires FieldLengths(s)
  {
    match NextTokenOf(args)
    case None => [GetUsage]
    case Some((key, _)) =>
      if key == PASS_KEY then [SetMark(s.password)]
      else match FieldOf(key)
        case None => [UnknownKey]
        case Some(f) => [Plain(Cut(FieldText(s, f), VALUE_CAP))]
  }

  /** The key and the value of a `set` command: the value is the rest of the line. */
  function SetArgs(args: bytes): Option<(bytes, bytes)> {
    match NextTokenOf(args)
    case None => None
    case Some((key, rest)) => if SkipBlanks(rest) == [] then None else Some((key, SkipBlanks(rest)))
  }

  function SetOutcome(st: Session, args: bytes): (r: Outcome)
    requires FieldLengths(st.cfg)
    ensures FieldLengths(r.next.cfg)
  {
    match SetArgs(args)
    case None => Outcome(st, [SetUsage], false)
    case Some((key, value)) =>
      match SetFieldResult(st.cfg, key, value)
      case None => Outcome(st, [Invalid], false)
      case Some(cfg) => Outcome(Session(cfg, true), [Updated(key)], false)
  }

  datatype Command = Help | Show | Get | Set | Save | Reset | Unknown

  function CommandOf(cmd: bytes): Command {
    if cmd == Ascii("help") then Help
    else if cmd == Ascii("show") then Show
    else if cmd == Ascii("get") then Get
    else if cmd == Ascii("set") then Set
    else if cmd == Ascii("save") then Save
    else if cmd == Ascii("reset") then Reset
    else Unknown
  }

  function Perform(st: Session, cmd: Command, args: bytes, writes: bool): (r: Outcome)
    requires FieldLengths(st.cfg)
    ensures FieldLengths(r.next.cfg)
  {
    match cmd
    case Help => Outcome(st, [Usage], false)
    case Show => Outcome(st, ShowLines(st.cfg), false)
    case Get => Outcome(st, GetLines(st.cfg, args), false)
    case Set => SetOutcome(st, args)
    case Save => if writes then Outcome(st.(dirty := false), [Saved], true) else Outcome(st, [SaveFailed], false)
    case Reset => Outcome(Session(Defaults(), true), [ResetDone], false)
    case Unknown => Outcome(st, [UnknownCommand], false)
  }

  /** One line of input; `writes` says whether a store write succeeds now. */
  function Handle(st: Session, line: bytes, writes: bool): (r: Outcome)
    requires FieldLengths(st.cfg)
    ensures FieldLengths(r.next.cfg)
  {
    match NextTokenOf(Trimmed(line))
    case None => Outcome(st, [], false)
    case Some((cmd, args)) => Perform(st, CommandOf(cmd), args, writes)
  }

  // ---------- the firmware's object ----------

  class ConsoleSession {
    const cfg: DeviceConfig
    var dirty: bool

    function State(): (st: Session)
      requires cfg.Valid()
      reads this, cfg, cfg.ssid, cfg.password, cfg.host, cfg.name
      ensures FieldLengths(st.cfg)
    {
      Session(cfg.Value(), dirty)
    }

    /** A fresh session over what the store holds. */
    constructor (store: Store)
      ensures cfg.Valid() && fresh(cfg) && fresh(cfg.ssid) && fresh(cfg.password) && fresh(cfg.host) && fresh(cfg.name)
      ensures State() == Session(if store.readable then LoadResult(store.blob) else Defaults(), false)
    {
      cfg := new DeviceConfig();
      dirty := false;
      new;
      var err := cfg.Load(store);
    }

    /** Copy the line into the working buffer, bounded, and trim its end. */
    method TakeLine(line: bytes) returns (buf: array<byte>)
      requires 0 !in line
      ensures fresh(buf) && buf.Length == LINE_CAP && HoldsAt(buf[..], 0, Trimmed(line))
    {
      buf := new byte[LINE_CAP];
      var n := 0;
      while n < LINE_CAP - 1 && n < |line|
        invariant n <= LINE_CAP - 1 && n <= |line|
        invariant buf[..n] == line[..n]
      {
        buf[n] := line[n];
        n := n + 1;
      }
      buf[n] := 0;
      assert line[..n] == line[..Min(|line|, LINE_CAP - 1)];
      while n > 0 && buf[n - 1] in {10, 13, 32, 9}
        invariant n <= LINE_CAP - 1 && n <= |line|
        invariant buf[..n] == line[..n] && buf[n] == 0
        invariant TrimRight(line[..n]) == Trimmed(line)
      {
        assert line[..n][|line[..n]| - 1] == buf[n - 1] && line[..n][..n - 1] == line[..n - 1];
        n := n - 1;
        buf[n] := 0;
      }
      assert n > 0 ==> line[..n][n - 1] == buf[..n][n - 1];
      assert buf[..][0..n] == line[..n];
    }

    method HandleGet(buf: array<byte>, p: nat, ghost args: bytes) returns (lines: seq<Message>)
      requires cfg.Valid() && HoldsAt(buf[..], p, args)
      requires buf !in {cfg.ssid, cfg.password, cfg.host, cfg.name}
      modifies buf
      ensures lines == GetLines(cfg.Value(), args)
    {
      var tok, q;
      ghost var rest;
      tok, q, rest := NextToken(buf, p, args);
      if tok == None {
        return [GetUsage];
      }
      HoldsString(buf[..], tok.value, NextTokenOf(args).value.0);
      var key := StringAt(buf[..], tok.value);
      if key == PASS_KEY {
        return [IsSet(cfg.password[0] != 0)];
      }
      var value := cfg.GetField(key, VALUE_CAP);
      if value == None {
        return [UnknownKey];
      }
      return [Plain(value.value)];
    }

    method HandleSet(buf: array<byte>, p: nat, ghost args: bytes) returns (lines: seq<Message>)
      requires cfg.Valid() && HoldsAt(buf[..], p, args)
      requires buf !in {cfg.ssid, cfg.password, cfg.host, cfg.name}
      modifies this, buf, cfg, cfg.ssid, cfg.password, cfg.host, cfg.name
      ensures cfg.Valid()
      ensures Outcome(State(), lines, false) == SetOutcome(old(State()), args)
    {
      var tok, q;
      ghost var rest;
      tok, q, rest := NextToken(buf, p, args);
      q := PassBlanks(buf, q, rest);
      HoldsHead(buf[..], q, SkipBlanks(rest));
      if tok == None || buf[q] == 0 {
        return [SetUsage];
      }
      HoldsString(buf[..], tok.value, NextTokenOf(args).value.0);
      HoldsString(buf[..], q, SkipBlanks(rest));
      var key := StringAt(buf[..], tok.value);
      var err := cfg.SetField(key, StringAt(buf[..], q));
      if err != OK {
        return [Invalid];
      }
      dirty := true;
      return [Updated(key)];
    }

    method HandleSave(store: Store) returns (lines: seq<Message>, ghost writes: bool)
      requires cfg.Valid()
      modifies this, store
      ensures cfg.Valid() && cfg.Value() == old(cfg.Value())
      ensures dirty == (if writes then false else old(dirty)) && lines == [if writes then Saved else SaveFailed]
      ensures store.blob == if writes then Blob(cfg.Value()) else old(store.blob)
    {
      var err := cfg.Save(store);
      writes := err == OK;
      if err != OK {
        return [SaveFailed], writes;
      }
      dirty := false;
      return [Saved], writes;
    }

    method HandleLine(line: bytes, store: Store) returns (lines: seq<Message>, ghost writes: bool)
      requires cfg.Valid() && 0 !in line
      modifies this, store, cfg, cfg.ssid, cfg.password, cfg.host, cfg.name
      ensures cfg.Valid()
      ensures var r := Handle(old(State()), line, writes);
              && State() == r.next && lines == r.lines
              && store.blob == if r.saved then Blob(r.next.cfg) else old(store.blob)
    {
      writes := true;
      var buf := TakeLine(line);
      var tok, p;
      ghost var args;
      tok, p, args := NextToken(buf, 0, Trimmed(line));
      if tok == None {
        return [], writes;
      }
      HoldsString(buf[..], tok.value, NextTokenOf(Trimmed(line)).value.0);
      var cmd := StringAt(buf[..], tok.value);
      lines, writes := HandleCommand(CommandOf(cmd), buf, p, args, store);
    }

    method HandleCommand(cmd: Command, buf: array<byte>, p: nat, ghost args: bytes, store: Store)
      returns (lines: seq<Message>, ghost writes: bool)
      requires cfg.Valid() && HoldsAt(buf[..], p, args)
      requires buf !in {cfg.ssid, cfg.password, cfg.host, cfg.name}
      modifies this, store, buf, cfg, cfg.ssid, cfg.password, cfg.host, cfg.name
      ensures cfg.Valid()
      ensures var r := Perform(old(State()), cmd, args, writes);
              && State() == r.next && lines == r.lines
              && store.blob == if r.saved then Blob(r.next.cfg) else old(store.blob)
    {
      writes := true;
      match cmd {
        case Help => lines := [Usage];
        case Show => lines := ShowLines(cfg.Value());
        case Get => lines := HandleGet(buf, p, args);
        case Set => lines := HandleSet(buf, p, args);
        case Save => lines, writes := HandleSave(store);
        case Reset =>
          cfg.SetDefaults();
          dirty := true;
          lines := [ResetDone];
        case Unknown => lines := [UnknownCommand];
      }
    }
  }

  // ---------- every session ----------

  /** One line of a run and whether a store write would succeed at that moment. */
  datatype Input = Input(line: bytes, writes: bool)

  /** Session and store together. */
  datatype World = World(session: Session, blob: bytes)

  function Step(w: World, i: Input): World
    requires FieldLengths(w.session.cfg)
  {
    var r := Handle(w.session, i.line, i.writes);
    World(r.next, if r.saved then Blob(r.next.cfg) else w.blob)
  }

  /** Fields keep their terminators, and a clean session is what the store would give back. */
  ghost predicate Sound(w: World) {
    WellFormed(w.session.cfg) && (!w.session.dirty ==> LoadResult(w.blob) == w.session.cfg)
  }

  lemma TokenHasNoNul(t: bytes)
    requires 0 !in t
    ensures 0 !in SkipBlanks(t)
    ensures NextTokenOf(t).Some? ==> 0 !in NextTokenOf(t).value.0 && 0 !in NextTokenOf(t).value.1
  {
    SkipBlanksKeeps(t);
  }

  lemma {:induction false} SkipBlanksKeeps(t: bytes)
    requires 0 !in t
    ensures 0 !in SkipBlanks(t)
  {
    if t != [] && IsBlank(t[0]) {
      SkipBlanksKeeps(t[1..]);
    }
  }

  lemma SetKeeps(st: Session, args: bytes)
    requires WellFormed(st.cfg) && 0 !in args
    ensures WellFormed(SetOutcome(st, args).next.cfg)
    ensures !SetOutcome(st, args).next.dirty ==> SetOutcome(st, args).next == st
  {
    TokenHasNoNul(args);
    if SetArgs(args).Some? {
      var (key, value) := SetArgs(args).value;
      TokenHasNoNul(NextTokenOf(args).value.1);
      if SetFieldResult(st.cfg, key, value).Some? {
        SetFieldKeeps(st.cfg, key, value);
      }
    }
  }

  lemma PerformSound(w: World, cmd: Command, args: bytes, writes: bool)
    requires Sound(w) && 0 !in args
    ensures var r := Perform(w.session, cmd, args, writes);
            Sound(World(r.next, if r.saved then Blob(r.next.cfg) else w.blob))
  {
    match cmd
    case Set => SetKeeps(w.session, args);
    case Save => SavedIsSound(w);
    case _ =>
  }

  lemma SavedIsSound(w: World)
    requires Sound(w)
    ensures Sound(World(w.session.(dirty := false), Blob(w.session.cfg)))
  {
    LoadInvertsSave(w.session.cfg);
  }

  lemma StepSound(w: World, i: Input)
    requires Sound(w) && 0 !in i.line
    ensures Sound(Step(w, i))
  {
    var t := Trimmed(i.line);
    TokenHasNoNul(t);
    if NextTokenOf(t).Some? {
      var (cmd, args) := NextTokenOf(t).value;
      PerformSound(w, CommandOf(cmd), args, i.writes);
    }
  }

  ghost function Run(w: World, inputs: seq<Input>): (r: World)
    requires Sound(w) && forall i <- inputs :: 0 !in i.line
    ensures Sound(r)
  {
    if inputs == [] then w else
      var init, last := inputs[..|inputs| - 1], inputs[|inputs| - 1];
      var before := Run(w, init);
      StepSound(before, last);
      Step(before, last)
  }

  /** Clean means persisted: after any lines, starting from a session loaded from a readable store,
      with any store writes failing, every field is terminated, and a session without unsaved
      changes is exactly what loading the store would return. */
  lemma CleanMeansPersisted(blob: bytes, inputs: seq<Input>)
    requires forall i <- inputs :: 0 !in i.line
    ensures Sound(World(Session(LoadResult(blob), false), blob))
    ensures var w := Run(World(Session(LoadResult(blob), false), blob), inputs);
            && WellFormed(w.session.cfg)
            && (!w.session.dirty ==> LoadResult(w.blob) == w.session.cfg)
  {
    LoadIsWellFormed(blob);
  }

  // ---------- the password never shows ----------

  /** Equal but for the password, and both passwords set or both unset. */
  ghost predicate SameButPassword(a: Session, b: Session) {
    && FieldLengths(a.cfg) && FieldLengths(b.cfg)
    && a.dirty == b.dirty && a.cfg.(password := b.cfg.password) == b.cfg
    && (a.cfg.password[0] == 0 <==> b.cfg.password[0] == 0)
  }

  /** The same lines printed, the same decision to store, and sessions still equal but for the
      password. */
  ghost predicate SameOutcome(a: Outcome, b: Outcome) {
    a.lines == b.lines && a.saved == b.saved && SameButPassword(a.next, b.next)
  }

  /** The line sets the password to `value`. */
  ghost predicate SetsPassword(line: bytes, value: bytes) {
    && NextTokenOf(Trimmed(line)).Some?
    && CommandOf(NextTokenOf(Trimmed(line)).value.0) == Set
    && SetArgs(NextTokenOf(Trimmed(line)).value.1) == Some((PASS_KEY, value))
  }

  /** The same line, or two lines that set the password to two values both accepted or both too
      long. */
  ghost predicate SameButSecret(a: bytes, b: bytes) {
    a == b || exists v, w :: SetsPassword(a, v) && SetsPassword(b, w) && (|v| <= PASS_MAX <==> |w| <= PASS_MAX)
  }

  lemma SetSame(a: Session, b: Session, args: bytes)
    requires SameButPassword(a, b) && 0 !in args
    ensures SetOutcome(a, args).lines == SetOutcome(b, args).lines
    ensures SameButPassword(SetOutcome(a, args).next, SetOutcome(b, args).next)
  {
    if SetArgs(args).Some? {
      var (key, value) := SetArgs(args).value;
      TokenHasNoNul(args);
      TokenHasNoNul(NextTokenOf(args).value.1);
      assert value[0] in value;
      SetFieldSame(a, b, key, value);
    }
  }

  lemma SetFieldSame(a: Session, b: Session, key: bytes, value: bytes)
    requires SameButPassword(a, b) && value != [] && value[0] != 0
    ensures var ra, rb := SetFieldResult(a.cfg, key, value), SetFieldResult(b.cfg, key, value);
            && (ra.Some? <==> rb.Some?)
            && (ra.Some? ==> SameButPassword(Session(ra.value, true), Session(rb.value, true)))
  {
  }

  lemma PerformSame(a: Session, b: Session, cmd: Command, args: bytes, writes: bool)
    requires SameButPassword(a, b) && 0 !in args
    ensures SameOutcome(Perform(a, cmd, args, writes), Perform(b, cmd, args, writes))
  {
    match cmd
    case Set => SetSame(a, b, args);
    case Show => ShowSame(a.cfg, b.cfg);
    case Get => GetSame(a.cfg, b.cfg, args);
    case _ =>
  }

  lemma ShowSame(a: Settings, b: Settings)
    requires SameButPassword(Session(a, false), Session(b, false))
    ensures ShowLines(a) == ShowLines(b)
  {
  }

  lemma GetSame(a: Settings, b: Settings, args: bytes)
    requires SameButPassword(Session(a, false), Session(b, false))
    ensures GetLines(a, args) == GetLines(b, args)
  {
    if NextTokenOf(args).Some? {
      PassKeyIsItself(NextTokenOf(args).value.0);
    }
  }

  /** Two password lines with different values do the same, visibly. */
  lemma SecretSame(a: Session, b: Session, line: bytes, line': bytes, v: bytes, w: bytes, writes: bool)
    requires SameButPassword(a, b) && 0 !in line && 0 !in line'
    requires SetsPassword(line, v) && SetsPassword(line', w) && (|v| <= PASS_MAX <==> |w| <= PASS_MAX)
    ensures SameOutcome(Handle(a, line, writes), Handle(b, line', writes))
  {
    FirstByteSet(line, v);
    FirstByteSet(line', w);
    PasswordOutcome(a, line, v, writes);
    PasswordOutcome(b, line', w, writes);
  }

  lemma PasswordOutcome(st: Session, line: bytes, v: bytes, writes: bool)
    requires FieldLengths(st.cfg) && SetsPassword(line, v)
    ensures Handle(st, line, writes)
            == if |v| > PASS_MAX then Outcome(st, [Invalid], false)
               else Outcome(Session(st.cfg.(password := PutStr(st.cfg.password, v, PASS_MAX).value), true),
                            [Updated(PASS_KEY)], false)
  {
    PassKeyIsItself(PASS_KEY);
  }

  lemma FirstByteSet(line: bytes, v: bytes)
    requires 0 !in line && SetsPassword(line, v)
    ensures v != [] && v[0] != 0
  {
    var t := Trimmed(line);
    TokenHasNoNul(t);
    var args := NextTokenOf(t).value.1;
    TokenHasNoNul(args);
    TokenHasNoNul(NextTokenOf(args).value.1);
    assert v[0] in v;
  }

  lemma SameLineSame(a: Session, b: Session, line: bytes, t: bytes, writes: bool)
    requires SameButPassword(a, b) && t == Trimmed(line) && 0 !in t
    ensures SameOutcome(Handle(a, line, writes), Handle(b, line, writes))
  {
    TokenHasNoNul(t);
    if NextTokenOf(t).Some? {
      PerformSame(a, b, CommandOf(NextTokenOf(t).value.0), NextTokenOf(t).value.1, writes);
    }
  }

  lemma HandleSame(a: Session, b: Session, line: bytes, line': bytes, writes: bool)
    requires SameButPassword(a, b) && SameButSecret(line, line') && 0 !in line && 0 !in line'
    ensures SameOutcome(Handle(a, line, writes), Handle(b, line', writes))
  {
    if line == line' {
      SameLineSame(a, b, line, Trimmed(line), writes);
    } else {
      var v, w := Secrets(line, line');
      SecretSame(a, b, line, line', v, w, writes);
    }
  }

  lemma Secrets(line: bytes, line': bytes) returns (v: bytes, w: bytes)
    requires SameButSecret(line, line') && line != line'
    ensures SetsPassword(line, v) && SetsPassword(line', w) && (|v| <= PASS_MAX <==> |w| <= PASS_MAX)
  {
    v, w :| SetsPassword(line, v) && SetsPassword(line', w) && (|v| <= PASS_MAX <==> |w| <= PASS_MAX);
  }

  /** Everything printed over a run, line by line. */
  function Transcript(st: Session, inputs: seq<Input>): seq<seq<Message>>
    requires FieldLengths(st.cfg)
    decreases inputs
  {
    if inputs == [] then [] else
      var r := Handle(st, inputs[0].line, inputs[0].writes);
      [r.lines] + Transcript(r.next, inputs[1..])
  }

  /** The same line, or lines that set different passwords, under the same store. */
  ghost predicate SameInput(x: Input, y: Input) {
    SameButSecret(x.line, y.line) && x.writes == y.writes && 0 !in x.line && 0 !in y.line
  }

  lemma SameTail(xs: seq<Input>, ys: seq<Input>)
    requires xs != [] && |xs| == |ys| && forall i :: 0 <= i < |xs| ==> SameInput(xs[i], ys[i])
    ensures forall i :: 0 <= i < |xs[1..]| ==> SameInput(xs[1..][i], ys[1..][i])
    ensures SameInput(xs[0], ys[0])
  {
  }

  /** The output of a whole session depends on the password only through its being set or not: two
      sessions that differ in nothing else print the same, for every sequence of lines, even when
      the lines themselves set different passwords. */
  lemma {:induction false} PasswordNeverShows(a: Session, b: Session, xs: seq<Input>, ys: seq<Input>)
    requires SameButPassword(a, b) && |xs| == |ys|
    requires forall i :: 0 <= i < |xs| ==> SameInput(xs[i], ys[i])
    ensures Transcript(a, xs) == Transcript(b, ys)
    decreases xs
  {
    if xs != [] {
      HandleSame(a, b, xs[0].line, ys[0].line, xs[0].writes);
      SameTail(xs, ys);
      PasswordNeverShows(Handle(a, xs[0].line, xs[0].writes).next, Handle(b, ys[0].line, ys[0].writes).next,
                         xs[1..], ys[1..]);
    }
  }
}
