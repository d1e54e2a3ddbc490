/** Device settings: fixed-size NUL-terminated fields, string-keyed access, the versioned blob. */
module Config {
  import opened Bytes
  import opened Decimals
  import opened Framing

  const SSID_MAX: nat := 32
  const PASS_MAX: nat := 63
  const HOST_MAX: nat := 63
  const NAME_MAX: nat := 32
  const DEFAULT_PORT: nat := 8765

  const NAME_KEY: bytes := Ascii("device_name")
  const SSID_KEY: bytes := Ascii("wifi_ssid")
  const PASS_KEY: bytes := Ascii("wifi_password")
  const HOST_KEY: bytes := Ascii("server_host")
  const PORT_KEY: bytes := Ascii("server_port")
  const DEFAULT_NAME: bytes := Ascii("sudonit-glasses")

  /** The raw content of the fields, terminators and what follows them included. */
  datatype Settings = Settings(ssid: bytes, password: bytes, host: bytes, port: nat, name: bytes)

  /** A field of capacity `max` whose last byte is the terminator it cannot lose. */
  predicate Terminated(field: bytes, max: nat) {
    |field| == max + 1 && field[max] == 0
  }

  predicate WellFormed(s: Settings) {
    && Terminated(s.ssid, SSID_MAX)
    && Terminated(s.password, PASS_MAX)
    && Terminated(s.host, HOST_MAX)
    && Terminated(s.name, NAME_MAX)
    && s.port < 0x1_0000
  }

  function Defaults(): (s: Settings)
    ensures WellFormed(s)
  {
    Settings(Zeros(SSID_MAX + 1), Zeros(PASS_MAX + 1), Zeros(HOST_MAX + 1), DEFAULT_PORT,
             DEFAULT_NAME + Zeros(NAME_MAX + 1 - |DEFAULT_NAME|))
  }

  // ---------- string-keyed access ----------

  datatype Field = NameField | SsidField | PassField | HostField | PortField

  function FieldOf(key: bytes): Option<Field> {
    if key == NAME_KEY then Some(NameField)
    else if key == SSID_KEY then Some(SsidField)
    else if key == PASS_KEY then Some(PassField)
    else if key == HOST_KEY then Some(HostField)
    else if key == PORT_KEY then Some(PortField)
    else None
  }

  lemma PassKeyIsItself(key: bytes)
    ensures FieldOf(key) == Some(PassField) <==> key == PASS_KEY
  {
  }

  /** Copy a string and its terminator over a field; too long a string is refused. */
  function PutStr(field: bytes, value: bytes, max: nat): (r: Option<bytes>)
    requires |field| == max + 1
    ensures r.Some? <==> |value| <= max
    ensures r.Some? ==> |r.value| == max + 1
  {
    if |value| > max then None else Some(value + [0] + field[|value| + 1..])
  }

  lemma PutStrTerminated(field: bytes, value: bytes, max: nat)
    requires Terminated(field, max) && |value| <= max && 0 !in value
    ensures Terminated(PutStr(field, value, max).value, max)
    ensures CStr(PutStr(field, value, max).value) == value
  {
    var r := PutStr(field, value, max).value;
    assert r[..|value|] == value;
    CStrUnique(r, |value|);
  }

  predicate IsSpace(b: byte) { b == 32 || 9 <= b <= 13 }

  /** C's strtol in base 10, without its clamping to long: value and number of bytes consumed. */
  function Strtol(t: bytes): (r: (int, nat))
    ensures r.1 <= |t|
  {
    var n := Spaces(t);
    var sign := n < |t| && (t[n] == 45 || t[n] == 43);
    var from := if sign then n + 1 else n;
    var len := LeadingDigits(t[from..]);
    if len == 0 then (0, 0)
    else
      var v: int := NatOf(t[from..from + len]);
      (if sign && t[n] == 45 then -v else v, from + len)
  }

  function Spaces(t: bytes): (n: nat)
    ensures n <= |t|
  {
    if t != [] && IsSpace(t[0]) then 1 + Spaces(t[1..]) else 0
  }

  function PortOf(value: bytes): Option<nat> {
    var (v, end) := Strtol(value);
    if value == [] || end != |value| || v < 1 || v > 65535 then None else Some(v)
  }

  predicate FieldLengths(s: Settings) {
    |s.ssid| == SSID_MAX + 1 && |s.password| == PASS_MAX + 1 && |s.host| == HOST_MAX + 1 && |s.name| == NAME_MAX + 1
  }

  function SetFieldResult(s: Settings, key: bytes, value: bytes): Option<Settings>
    requires FieldLengths(s)
  {
    match FieldOf(key)
    case None => None
    case Some(f) => PutField(s, f, value)
  }

  function PutField(s: Settings, f: Field, value: bytes): Option<Settings>
    requires FieldLengths(s)
  {
    match f
    case NameField => (match PutStr(s.name, value, NAME_MAX) case None => None case Some(t) => Some(s.(name := t)))
    case SsidField => (match PutStr(s.ssid, value, SSID_MAX) case None => None case Some(t) => Some(s.(ssid := t)))
    case PassField =>
      (match PutStr(s.password, value, PASS_MAX) case None => None case Some(t) => Some(s.(password := t)))
    case HostField => (match PutStr(s.host, value, HOST_MAX) case None => None case Some(t) => Some(s.(host := t)))
    case PortField => (match PortOf(value) case None => None case Some(p) => Some(s.(port := p)))
  }

  /** The text of a field, before it is cut to the caller's buffer. */
  function FieldText(s: Settings, f: Field): bytes {
    match f
    case NameField => CStr(s.name)
    case SsidField => CStr(s.ssid)
    case PassField => CStr(s.password)
    case HostField => CStr(s.host)
    case PortField => Decimal(s.port)
  }

  /** What snprintf leaves of a text in a buffer of `cap` bytes. */
  function Cut(t: bytes, cap: nat): bytes
    requires cap > 0
  {
    t[..Min(|t|, cap - 1)]
  }

  /** Setting a field keeps every field terminated, changes no other field, and a string read back
      is the string set. */
  lemma SetFieldKeeps(s: Settings, key: bytes, value: bytes)
    requires WellFormed(s) && 0 !in value && SetFieldResult(s, key, value).Some?
    ensures var r := SetFieldResult(s, key, value).value;
            && WellFormed(r)
            && (forall f :: Some(f) != FieldOf(key) ==> FieldText(r, f) == FieldText(s, f))
            && (FieldOf(key).value != PortField ==> FieldText(r, FieldOf(key).value) == value)
  {
    PutFieldKeeps(s, FieldOf(key).value, value);
  }

  lemma PutFieldKeeps(s: Settings, f: Field, value: bytes)
    requires WellFormed(s) && 0 !in value && PutField(s, f, value).Some?
    ensures var r := PutField(s, f, value).value;
            && WellFormed(r)
            && (forall g :: g != f ==> FieldText(r, g) == FieldText(s, g))
            && (f != PortField ==> FieldText(r, f) == value)
  {
    match f
    case NameField => PutStrTerminated(s.name, value, NAME_MAX);
    case SsidField => PutStrTerminated(s.ssid, value, SSID_MAX);
    case PassField => PutStrTerminated(s.password, value, PASS_MAX);
    case HostField => PutStrTerminated(s.host, value, HOST_MAX);
    case PortField =>
  }

  lemma StrtolDigits(t: bytes)
    requires t != [] && forall b <- t :: IsDigit(b)
    ensures Strtol(t) == (NatOf(t), |t|)
  {
    assert t[0] in t;
    LeadingAll(t, []);
    assert t + [] == t && t[0..] == t && t[0..|t|] == t;
  }

  /** A port written out and set again is the same port. */
  lemma PortRoundTrip(port: nat)
    requires 1 <= port <= 65535
    ensures PortOf(Decimal(port)) == Some(port)
  {
    NatOfDecimal(port);
    StrtolDigits(Decimal(port));
  }

  // ---------- the stored blob ----------

  const VERSION: nat := 1
  const VERSION_BYTES: nat := 4
  const STRUCT_BYTES: nat := 198
  const BLOB_BYTES: nat := VERSION_BYTES + STRUCT_BYTES

  function LittleEndian(n: nat, k: nat): (b: bytes)
    ensures |b| == k
  {
    if k == 0 then [] else [n % 256] + LittleEndian(n / 256, k - 1)
  }

  function FromLittleEndian(b: bytes): nat {
    if b == [] then 0 else b[0] + 256 * FromLittleEndian(b[1..])
  }

  /** The struct in memory: the host's layout with its two alignment bytes. */
  function StructBytes(s: Settings): bytes {
    s.ssid + s.password + s.host + [0] + LittleEndian(s.port, 2) + s.name + [0]
  }

  function Blob(s: Settings): bytes {
    LittleEndian(VERSION, VERSION_BYTES) + StructBytes(s)
  }

  function Force(field: bytes, max: nat): (r: bytes)
    requires |field| == max + 1
    ensures Terminated(r, max)
  {
    field[max := 0]
  }

  function FromStruct(b: bytes): (s: Settings)
    requires |b| == STRUCT_BYTES
    ensures FieldLengths(s)
  {
    Settings(Force(b[..33], SSID_MAX), Force(b[33..97], PASS_MAX), Force(b[97..161], HOST_MAX),
             FromLittleEndian(b[162..164]), Force(b[164..197], NAME_MAX))
  }

  /** What loading makes of the stored bytes. */
  function LoadResult(blob: bytes): Settings {
    if |blob| != BLOB_BYTES then Defaults()
    else if FromLittleEndian(blob[..VERSION_BYTES]) != VERSION then Defaults()
    else FromStruct(blob[VERSION_BYTES..])
  }

  lemma LoadIsWellFormed(blob: bytes)
    ensures WellFormed(LoadResult(blob))
  {
    if |blob| == BLOB_BYTES {
      var p := blob[VERSION_BYTES..][162..164];
      assert p[1..][1..] == [];
      assert FromLittleEndian(p[1..]) == p[1] + 256 * FromLittleEndian(p[1..][1..]);
    }
  }

  lemma LittleEndianTwo(n: nat)
    requires n < 0x1_0000
    ensures FromLittleEndian(LittleEndian(n, 2)) == n
  {
    var b := LittleEndian(n, 2);
    assert LittleEndian(n / 256, 1) == [n / 256 % 256] + [];
    assert b == [n % 256, n / 256];
    assert b[1..] == [n / 256] && [n / 256][1..] == [];
    assert FromLittleEndian([n / 256]) == n / 256 + 256 * FromLittleEndian([]);
  }

  lemma VersionRoundTrip()
    ensures FromLittleEndian(LittleEndian(VERSION, VERSION_BYTES)) == VERSION
  {
    var b := LittleEndian(1, 4);
    assert LittleEndian(0, 1) == [0] && LittleEndian(0, 2) == [0, 0] && LittleEndian(0, 3) == [0, 0, 0];
    assert b == [1, 0, 0, 0];
    assert FromLittleEndian([0]) == 0;
    assert [0, 0][1..] == [0] && [0, 0, 0][1..] == [0, 0] && b[1..] == [0, 0, 0];
    assert FromLittleEndian([0, 0]) == 0;
    assert FromLittleEndian([0, 0, 0]) == 0;
  }

  /** Loading what was saved gives back every byte of every field. */
  lemma LoadInvertsSave(s: Settings)
    requires WellFormed(s)
    ensures |Blob(s)| == BLOB_BYTES && LoadResult(Blob(s)) == s
  {
    VersionRoundTrip();
    LittleEndianTwo(s.port);
    var b := StructBytes(s);
    assert Blob(s)[..VERSION_BYTES] == LittleEndian(VERSION, VERSION_BYTES);
    assert Blob(s)[VERSION_BYTES..] == b;
    assert b[..33] == s.ssid && b[33..97] == s.password && b[97..161] == s.host;
    assert b[162..164] == LittleEndian(s.port, 2) && b[164..197] == s.name;
  }

  // ---------- the firmware's objects ----------

  /** The blob store behind the settings. A failed write changes nothing. */
  class Store {
    var blob: bytes
    const readable: bool

    constructor (blob: bytes, readable: bool)
      ensures this.blob == blob && this.readable == readable
    {
      this.blob, this.readable := blob, readable;
    }

    method Read(cap: nat) returns (err: Code, data: bytes)
      ensures !readable ==> err == IO
      ensures readable && |blob| > cap ==> err == NO_MEM
      ensures readable && |blob| <= cap ==> err == OK && data == blob
    {
      if !readable {
        return IO, [];
      }
      if |blob| > cap {
        return NO_MEM, [];
      }
      return OK, blob;
    }

    method Write(buf: bytes) returns (err: Code)
      modifies this
      ensures err == OK ==> blob == buf
      ensures err != OK ==> err == IO && blob == old(blob)
    {
      var works: bool := *;
      if !works {
        return IO;
      }
      blob := buf;
      return OK;
    }
  }

  class DeviceConfig {
    const ssid: array<byte>
    const password: array<byte>
    const host: array<byte>
    const name: array<byte>
    var port: nat

    ghost predicate Valid()
      reads this
    {
      && ssid.Length == SSID_MAX + 1 && password.Length == PASS_MAX + 1
      && host.Length == HOST_MAX + 1 && name.Length == NAME_MAX + 1
      && ssid != password && ssid != host && ssid != name
      && password != host && password != name && host != name
    }

    function Value(): (s: Settings)
      requires Valid()
      reads this, ssid, password, host, name
      ensures FieldLengths(s)
    {
      Settings(ssid[..], password[..], host[..], port, name[..])
    }

    constructor ()
      ensures Valid() && fresh(ssid) && fresh(password) && fresh(host) && fresh(name)
      ensures Value() == Defaults()
    {
      ssid := new byte[SSID_MAX + 1];
      password := new byte[PASS_MAX + 1];
      host := new byte[HOST_MAX + 1];
      name := new byte[NAME_MAX + 1];
      port := 0;
      new;
      SetDefaults();
    }

    method Fill(dst: array<byte>, src: bytes)
      requires |src| == dst.Length
      modifies dst
      ensures dst[..] == src
    {
      forall i | 0 <= i < dst.Length {
        dst[i] := src[i];
      }
    }

    method SetDefaults()
      requires Valid()
      modifies this, ssid, password, host, name
      ensures Valid() && Value() == Defaults()
    {
      Fill(ssid, Zeros(SSID_MAX + 1));
      Fill(password, Zeros(PASS_MAX + 1));
      Fill(host, Zeros(HOST_MAX + 1));
      Fill(name, Zeros(NAME_MAX + 1));
      port := DEFAULT_PORT;
      forall i | 0 <= i < |DEFAULT_NAME| {
        name[i] := DEFAULT_NAME[i];
      }
      name[|DEFAULT_NAME|] := 0;
      assert name[..] == DEFAULT_NAME + Zeros(NAME_MAX + 1 - |DEFAULT_NAME|);
    }

    method SetStr(dst: array<byte>, value: bytes, max: nat) returns (err: Code)
      requires dst.Length == max + 1
      modifies dst
      ensures var r := PutStr(old(dst[..]), value, max);
              if r.None? then err == INVALID && dst[..] == old(dst[..]) else err == OK && dst[..] == r.value
    {
      if |value| > max {
        return INVALID;
      }
      forall i | 0 <= i < |value| {
        dst[i] := value[i];
      }
      dst[|value|] := 0;
      return OK;
    }

    method SetField(key: bytes, value: bytes) returns (err: Code)
      requires Valid()
      modifies this, ssid, password, host, name
      ensures Valid()
      ensures var r := SetFieldResult(old(Value()), key, value);
              if r.None? then err == INVALID && Value() == old(Value()) else err == OK && Value() == r.value
    {
      if key == NAME_KEY {
        err := SetStr(name, value, NAME_MAX);
      } else if key == SSID_KEY {
        err := SetStr(ssid, value, SSID_MAX);
      } else if key == PASS_KEY {
        err := SetStr(password, value, PASS_MAX);
      } else if key == HOST_KEY {
        err := SetStr(host, value, HOST_MAX);
      } else if key == PORT_KEY {
        var (v, end) := Strtol(value);
        if value == [] || end != |value| || v < 1 || v > 65535 {
          return INVALID;
        }
        port := v;
        err := OK;
      } else {
        err := INVALID;
      }
    }

    /** The text of a field, cut to a buffer of `cap` bytes. */
    method GetField(key: bytes, cap: nat) returns (r: Option<bytes>)
      requires Valid() && cap > 0
      ensures r == match FieldOf(key)
                   case None => None
                   case Some(f) => Some(Cut(FieldText(Value(), f), cap))
    {
      if key == NAME_KEY {
        return Some(Cut(CStr(name[..]), cap));
      } else if key == SSID_KEY {
        return Some(Cut(CStr(ssid[..]), cap));
      } else if key == PASS_KEY {
        return Some(Cut(CStr(password[..]), cap));
      } else if key == HOST_KEY {
        return Some(Cut(CStr(host[..]), cap));
      } else if key == PORT_KEY {
        return Some(Cut(Decimal(port), cap));
      } else {
        return None;
      }
    }

    method Assign(s: Settings)
      requires Valid() && FieldLengths(s)
      modifies this, ssid, password, host, name
      ensures Valid() && Value() == s
    {
      Fill(ssid, s.ssid);
      Fill(password, s.password);
      Fill(host, s.host);
      Fill(name, s.name);
      port := s.port;
    }

    method Load(store: Store) returns (err: Code)
      requires Valid()
      modifies this, ssid, password, host, name
      ensures Valid()
      ensures store.readable ==> err == OK && Value() == LoadResult(store.blob)
      ensures !store.readable ==> err == IO && Value() == Defaults()
    {
      ghost var stored := store.blob;
      var data;
      err, data := store.Read(BLOB_BYTES);
      if err == NO_MEM {
        SetDefaults();
        return OK;
      }
      if err != OK {
        SetDefaults();
        return err;
      }
      if |data| == 0 {
        SetDefaults();
        return OK;
      }
      if |data| < BLOB_BYTES {
        SetDefaults();
        return OK;
      }
      if FromLittleEndian(data[..VERSION_BYTES]) != VERSION {
        SetDefaults();
        return OK;
      }
      Assign(FromStruct(data[VERSION_BYTES..]));
      return OK;
    }

    method Save(store: Store) returns (err: Code)
      requires Valid()
      modifies store
      ensures Valid() && Value() == old(Value())
      ensures err == OK ==> store.blob == Blob(Value())
      ensures err != OK ==> err == IO && store.blob == old(store.blob)
    {
      err := store.Write(Blob(Value()));
    }
  }
}
