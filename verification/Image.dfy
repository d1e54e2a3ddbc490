/** Structural image checks: the JPEG marker walk, the PNG header, and the size limits. */
module Image {
  import opened Bytes

  datatype Fault = Empty | NotJpeg | BadSegment | FrameTruncated | NoFrame | NotPng | NoHeaderChunk | OutOfRange

  datatype Size = Size(width: nat, height: nat)

  predicate IsFrame(m: byte) {
    m in {0xC0, 0xC1, 0xC2, 0xC3, 0xC5, 0xC6, 0xC7, 0xC9, 0xCA, 0xCB, 0xCD, 0xCE, 0xCF}
  }

  predicate IsStandalone(m: byte) {
    m in {0xD8, 0xD9, 0x01} || 0xD0 <= m <= 0xD7
  }

  const MAX_DIMENSION: nat := 10000

  function U16(n: nat): (b: bytes)
    ensures |b| == 2
  {
    BigEndian(n, 2)
  }

  /** The walk from a position on: `t` is what is left of the file. */
  function Walk(t: bytes): Result<Size, Fault>
    decreases |t|
  {
    if |t| < 2 then Err(NoFrame)
    else if t[0] != 0xFF then Walk(t[1..])
    else if IsStandalone(t[1]) then Walk(t[2..])
    else if |t| < 4 then Err(NoFrame)
    else
      var len := FromBigEndian(t[2..4]);
      if len < 2 then Err(BadSegment)
      else if IsFrame(t[1]) then
        if |t| < 9 then Err(FrameTruncated)
        else Ok(Size(FromBigEndian(t[7..9]), FromBigEndian(t[5..7])))
      else if 2 + len > |t| then Err(NoFrame)
      else Walk(t[2 + len..])
  }

  function Jpeg(data: bytes): Result<Size, Fault> {
    if |data| < 2 || data[..2] != [0xFF, 0xD8] then Err(NotJpeg) else Walk(data[2..])
  }

  method JpegDimensions(data: bytes) returns (r: Result<Size, Fault>)
    ensures r == Jpeg(data)
  {
    var n := |data|;
    if n < 2 || data[..2] != [0xFF, 0xD8] {
      return Err(NotJpeg);
    }
    var i := 2;
    while i + 1 < n
      invariant 2 <= i
      invariant Jpeg(data) == if i <= n then Walk(data[i..]) else Err(NoFrame)
      decreases n - i
    {
      ghost var t := data[i..];
      assert t[0] == data[i] && t[1] == data[i + 1];
      if data[i] != 0xFF {
        assert t[1..] == data[i + 1..];
        i := i + 1;
        continue;
      }
      var marker := data[i + 1];
      i := i + 2;
      assert t[2..] == data[i..];
      if IsStandalone(marker) {
        continue;
      }
      if i + 2 > n {
        return Err(NoFrame);
      }
      assert t[2..4] == data[i..i + 2];
      var segLen := FromBigEndian(data[i..i + 2]);
      if segLen < 2 {
        return Err(BadSegment);
      }
      if IsFrame(marker) {
        if i + 7 > n {
          return Err(FrameTruncated);
        }
        assert t[5..7] == data[i + 3..i + 5] && t[7..9] == data[i + 5..i + 7];
        var height := FromBigEndian(data[i + 3..i + 5]);
        var width := FromBigEndian(data[i + 5..i + 7]);
        return Ok(Size(width, height));
      }
      assert i + segLen <= n ==> t[2 + segLen..] == data[i + segLen..];
      i := i + segLen;
    }
    return Err(NoFrame);
  }

  // ---------- which files have dimensions ----------

  /** What may stand before the frame header: bytes skipped on the way to the next 0xFF, markers
      without a length, and segments with one. */
  datatype Piece = Junk(b: byte) | Bare(marker: byte) | Segment(marker: byte, body: bytes)

  predicate WellFormed(p: Piece) {
    match p
    case Junk(b) => b != 0xFF
    case Bare(m) => IsStandalone(m)
    case Segment(m, body) => !IsStandalone(m) && !IsFrame(m) && |body| <= 65533
  }

  function PieceBytes(p: Piece): bytes {
    match p
    case Junk(b) => [b]
    case Bare(m) => [0xFF, m]
    case Segment(m, body) => [0xFF, m] + U16(|body| + 2) + body
  }

  function PiecesBytes(ps: seq<Piece>): bytes {
    if ps == [] then [] else PieceBytes(ps[0]) + PiecesBytes(ps[1..])
  }

  /** A frame header: its marker, declared length, sample precision and dimensions. */
  datatype Frame = Frame(marker: byte, length: nat, precision: byte, size: Size)

  predicate WellFormedFrame(f: Frame) {
    IsFrame(f.marker) && 2 <= f.length < 0x1_0000 && f.size.width < 0x1_0000 && f.size.height < 0x1_0000
  }

  function FrameBytes(f: Frame): (b: bytes)
    ensures |b| == 9
  {
    [0xFF, f.marker] + U16(f.length) + [f.precision] + U16(f.size.height) + U16(f.size.width)
  }

  function Header(ps: seq<Piece>, f: Frame): bytes {
    [0xFF, 0xD8] + PiecesBytes(ps) + FrameBytes(f)
  }

  lemma U16RoundTrip(n: nat)
    requires n < 0x1_0000
    ensures FromBigEndian(U16(n)) == n
  {
    BigEndianRoundTrip(n, 2);
    assert Pow256(2) == 0x1_0000;
  }

  lemma U16Bound(b: bytes)
    requires |b| == 2
    ensures FromBigEndian(b) < 0x1_0000 && U16(FromBigEndian(b)) == b
  {
    FromBigEndianRoundTrip(b);
    assert Pow256(2) == 0x1_0000;
  }

  lemma WalkFrame(f: Frame, tail: bytes)
    requires WellFormedFrame(f)
    ensures Walk(FrameBytes(f) + tail) == Ok(f.size)
  {
    var t := FrameBytes(f) + tail;
    assert t[2..4] == U16(f.length) && t[5..7] == U16(f.size.height) && t[7..9] == U16(f.size.width);
    U16RoundTrip(f.length);
    U16RoundTrip(f.size.height);
    U16RoundTrip(f.size.width);
  }

  lemma WalkPiece(p: Piece, rest: bytes)
    requires WellFormed(p) && rest != []
    ensures Walk(PieceBytes(p) + rest) == Walk(rest)
  {
    var t := PieceBytes(p) + rest;
    match p
    case Junk(b) => assert t[1..] == rest;
    case Bare(m) => assert t[2..] == rest;
    case Segment(m, body) =>
      assert t[2..4] == U16(|body| + 2);
      U16RoundTrip(|body| + 2);
      assert t[2 + (|body| + 2)..] == rest;
  }

  /** The walk passes over pieces, whatever stands behind them. */
  lemma {:induction false} WalkThrough(ps: seq<Piece>, end: bytes)
    requires end != [] && forall p <- ps :: WellFormed(p)
    ensures Walk(PiecesBytes(ps) + end) == Walk(end)
  {
    if ps == [] {
      assert PiecesBytes(ps) + end == end;
    } else {
      var rest := PiecesBytes(ps[1..]) + end;
      assert PiecesBytes(ps) + end == PieceBytes(ps[0]) + rest;
      assert ps[0] in ps && forall p <- ps[1..] :: p in ps;
      WalkThrough(ps[1..], end);
      WalkPiece(ps[0], rest);
    }
  }

  lemma WalkPieces(ps: seq<Piece>, f: Frame, tail: bytes)
    requires WellFormedFrame(f) && forall p <- ps :: WellFormed(p)
    ensures Walk(PiecesBytes(ps) + (FrameBytes(f) + tail)) == Ok(f.size)
  {
    WalkThrough(ps, FrameBytes(f) + tail);
    WalkFrame(f, tail);
  }

  /** A walk that succeeds has passed well-formed pieces and a complete frame header. */
  lemma {:induction false} WalkedPieces(t: bytes) returns (ps: seq<Piece>, f: Frame, tail: bytes)
    requires Walk(t).Ok?
    ensures WellFormedFrame(f) && forall p <- ps :: WellFormed(p)
    ensures t == PiecesBytes(ps) + (FrameBytes(f) + tail) && f.size == Walk(t).value
    decreases |t|
  {
    if t[0] != 0xFF {
      ps, f, tail := WalkedPieces(t[1..]);
      PrependPiece(Junk(t[0]), ps, t, FrameBytes(f) + tail);
      ps := [Junk(t[0])] + ps;
    } else if IsStandalone(t[1]) {
      ps, f, tail := WalkedPieces(t[2..]);
      PrependPiece(Bare(t[1]), ps, t, FrameBytes(f) + tail);
      ps := [Bare(t[1])] + ps;
    } else {
      var len := FromBigEndian(t[2..4]);
      U16Bound(t[2..4]);
      if IsFrame(t[1]) {
        ps, f, tail := [], Frame(t[1], len, t[4], Walk(t).value), t[9..];
        FrameParts(t, f);
        assert PiecesBytes([]) + (FrameBytes(f) + tail) == FrameBytes(f) + tail;
      } else {
        var p := Segment(t[1], t[4..2 + len]);
        ps, f, tail := WalkedPieces(t[2 + len..]);
        SegmentParts(t, len);
        PrependPiece(p, ps, t, FrameBytes(f) + tail);
        ps := [p] + ps;
      }
    }
  }

  lemma SegmentParts(t: bytes, len: nat)
    requires |t| >= 4 && t[0] == 0xFF && 2 <= len == FromBigEndian(t[2..4]) && 2 + len <= |t|
    ensures len < 0x1_0000 && t == PieceBytes(Segment(t[1], t[4..2 + len])) + t[2 + len..]
  {
    U16Bound(t[2..4]);
    assert t == [t[0], t[1]] + t[2..4] + t[4..2 + len] + t[2 + len..];
  }

  lemma FrameParts(t: bytes, f: Frame)
    requires |t| >= 9 && t[0] == 0xFF && IsFrame(t[1]) && 2 <= FromBigEndian(t[2..4])
    requires f == Frame(t[1], FromBigEndian(t[2..4]), t[4], Size(FromBigEndian(t[7..9]), FromBigEndian(t[5..7])))
    ensures WellFormedFrame(f) && t == FrameBytes(f) + t[9..]
  {
    U16Bound(t[2..4]);
    U16Bound(t[5..7]);
    U16Bound(t[7..9]);
    assert t == [t[0], t[1]] + t[2..4] + [t[4]] + t[5..7] + t[7..9] + t[9..];
  }

  lemma PrependPiece(p: Piece, ps: seq<Piece>, t: bytes, end: bytes)
    requires t == PieceBytes(p) + (PiecesBytes(ps) + end)
    ensures t == PiecesBytes([p] + ps) + end
  {
    assert ([p] + ps)[1..] == ps;
  }

  ghost predicate HasHeader(data: bytes, size: Size) {
    exists ps: seq<Piece>, f: Frame :: IsHeaderOf(ps, f, data, size)
  }

  ghost predicate IsHeaderOf(ps: seq<Piece>, f: Frame, data: bytes, size: Size) {
    (forall p <- ps :: WellFormed(p)) && WellFormedFrame(f) && f.size == size && Header(ps, f) <= data
  }

  /** The parser reports dimensions for exactly the files that begin with a start marker, any
      skippable pieces and a complete frame header, and reports that header's dimensions. */
  lemma JpegExact(data: bytes, size: Size)
    ensures Jpeg(data) == Ok(size) <==> HasHeader(data, size)
  {
    if HasHeader(data, size) {
      var ps, f :| IsHeaderOf(ps, f, data, size);
      HeaderParses(ps, f, data);
    }
    if Jpeg(data) == Ok(size) {
      var ps, f := WalkedHeader(data);
      assert IsHeaderOf(ps, f, data, size);
    }
  }

  lemma WalkedHeader(data: bytes) returns (ps: seq<Piece>, f: Frame)
    requires Jpeg(data).Ok?
    ensures IsHeaderOf(ps, f, data, Jpeg(data).value)
  {
    var tail;
    ps, f, tail := WalkedPieces(data[2..]);
    Behind(data, data[..2], PiecesBytes(ps), FrameBytes(f), tail);
  }

  lemma Behind(data: bytes, start: bytes, ps: bytes, f: bytes, tail: bytes)
    requires |data| >= 2 && start == data[..2] && data[2..] == ps + (f + tail)
    ensures start + ps + f <= data
  {
    assert data == start + data[2..];
    assert start + (ps + (f + tail)) == start + ps + f + tail;
  }

  lemma HeaderParses(ps: seq<Piece>, f: Frame, data: bytes)
    requires (forall p <- ps :: WellFormed(p)) && WellFormedFrame(f) && Header(ps, f) <= data
    ensures Jpeg(data) == Ok(f.size)
  {
    var tail := data[|Header(ps, f)|..];
    WalkPieces(ps, f, tail);
    HeaderParts(ps, f, tail, data);
  }

  lemma HeaderParts(ps: seq<Piece>, f: Frame, tail: bytes, data: bytes)
    requires data == Header(ps, f) + tail
    ensures |data| >= 2 && data[..2] == [0xFF, 0xD8] && data[2..] == PiecesBytes(ps) + (FrameBytes(f) + tail)
  {
    var rest := PiecesBytes(ps) + (FrameBytes(f) + tail);
    assert data == [0xFF, 0xD8] + rest;
  }

  /** Bytes after the frame header never change the result. */
  lemma JpegIgnoresSuffix(data: bytes, suffix: bytes)
    requires Jpeg(data).Ok?
    ensures Jpeg(data + suffix) == Jpeg(data)
  {
    JpegExact(data, Jpeg(data).value);
    var ps, f :| IsHeaderOf(ps, f, data, Jpeg(data).value);
    assert Header(ps, f) <= data + suffix;
    HeaderParses(ps, f, data + suffix);
  }

  // ---------- fill bytes (section B.1.1.2 of ITU-T T.81) ----------

  /** Any number of extra 0xFF may stand before a marker. */
  function Fill(n: nat): (b: bytes)
    ensures |b| == n && forall i :: 0 <= i < n ==> b[i] == 0xFF
  {
    seq(n, i => 0xFF)
  }

  /** A fill byte and a marker `m` make the walk take 0xFF for a marker, and `m` and the byte behind it
      for a segment length. */
  function FillLength(m: byte, rest: bytes): nat
    requires rest != []
  {
    m * 256 + rest[0]
  }

  lemma FillIsSegment(m: byte, rest: bytes)
    ensures Walk([0xFF, 0xFF, m] + rest)
            == if rest == [] then Err(NoFrame)
               else if FillLength(m, rest) < 2 then Err(BadSegment)
               else if FillLength(m, rest) - 1 > |rest| then Err(NoFrame)
               else Walk(rest[FillLength(m, rest) - 1..])
  {
    var t := [0xFF, 0xFF, m] + rest;
    if rest != [] {
      var len := FillLength(m, rest);
      FillParts(t, m, rest);
      TwoBytes(m, rest[0]);
      WalkSegment(t, len);
      if 2 <= len <= |rest| + 1 {
        BehindFill(t, m, rest, len);
      }
    }
  }

  lemma FillParts(t: bytes, m: byte, rest: bytes)
    requires t == [0xFF, 0xFF, m] + rest && rest != []
    ensures |t| == 3 + |rest| && t[0] == 0xFF && t[1] == 0xFF && t[2..4] == [m, rest[0]]
  {
  }

  lemma BehindFill(t: bytes, m: byte, rest: bytes, len: nat)
    requires t == [0xFF, 0xFF, m] + rest && 2 <= len <= |rest| + 1
    ensures t[2 + len..] == rest[len - 1..]
  {
  }

  lemma WalkSegment(t: bytes, len: nat)
    requires |t| >= 4 && t[0] == 0xFF && !IsStandalone(t[1]) && !IsFrame(t[1]) && len == FromBigEndian(t[2..4])
    ensures Walk(t) == if len < 2 then Err(BadSegment)
                       else if 2 + len > |t| then Err(NoFrame)
                       else Walk(t[2 + len..])
  {
  }

  lemma TwoBytes(a: byte, b: byte)
    ensures FromBigEndian([a, b]) == a * 256 + b
  {
    var w := [a, b];
    assert w[..1] == [a] && w[1] == b;
    assert [a][..0] == [] && FromBigEndian([]) == 0;
    assert FromBigEndian([a]) == a;
  }

  /** With a fill byte before some marker `m`, the file's outcome is that of the walk from where the
      misread segment ends; so the dimensions come out if and only if that lies within the file and the
      walk happens to find them from there. */
  lemma FillExact(ps: seq<Piece>, m: byte, rest: bytes, size: Size)
    requires forall p <- ps :: WellFormed(p)
    ensures Jpeg([0xFF, 0xD8] + (PiecesBytes(ps) + ([0xFF, 0xFF, m] + rest))) == Ok(size)
            <==> (rest != [] && 2 <= FillLength(m, rest) <= |rest| + 1
                  && Walk(rest[FillLength(m, rest) - 1..]) == Ok(size))
  {
    Started(PiecesBytes(ps) + ([0xFF, 0xFF, m] + rest));
    WalkThrough(ps, [0xFF, 0xFF, m] + rest);
    FillIsSegment(m, rest);
  }

  lemma Started(t: bytes)
    ensures Jpeg([0xFF, 0xD8] + t) == Walk(t)
  {
    assert ([0xFF, 0xD8] + t)[2..] == t;
  }

  /** Every marker of a segment is at least 0xC0, so the misread segment is longer than 48 KiB and a
      file that is shorter from there on is refused. */
  lemma FillMisses(ps: seq<Piece>, m: byte, rest: bytes)
    requires (forall p <- ps :: WellFormed(p)) && m >= 0xC0 && |rest| <= 0xBFFE
    ensures Jpeg([0xFF, 0xD8] + (PiecesBytes(ps) + ([0xFF, 0xFF, m] + rest))) == Err(NoFrame)
  {
    Started(PiecesBytes(ps) + ([0xFF, 0xFF, m] + rest));
    WalkThrough(ps, [0xFF, 0xFF, m] + rest);
    FillIsSegment(m, rest);
  }

  /** So a header with `n` fill bytes before its frame marker, in a file that ends within 48 KiB of
      them, is understood if and only if there are none. */
  lemma FillRefused(ps: seq<Piece>, n: nat, f: Frame, tail: bytes)
    requires (forall p <- ps :: WellFormed(p)) && WellFormedFrame(f) && n + |tail| <= 0xBFF8
    ensures var r := Jpeg([0xFF, 0xD8] + (PiecesBytes(ps) + (Fill(n) + (FrameBytes(f) + tail))));
            && (r == Ok(f.size) <==> n == 0) && (n > 0 ==> r == Err(NoFrame))
  {
    var end := Fill(n) + (FrameBytes(f) + tail);
    if n == 0 {
      assert end == FrameBytes(f) + tail;
      Started(PiecesBytes(ps) + end);
      WalkPieces(ps, f, tail);
    } else {
      var m, rest := end[2], end[3..];
      assert FrameBytes(f)[0] == 0xFF && FrameBytes(f)[1] == f.marker;
      assert end[0] == 0xFF && end[1] == 0xFF && m in {0xFF, f.marker};
      assert end == [0xFF, 0xFF, m] + rest;
      FillMisses(ps, m, rest);
    }
  }

  /** A file of 32 by 16 pixels, without a fill byte before its frame marker and with one. */
  lemma FillByteHides()
    ensures Jpeg([0xFF, 0xD8, 0xFF, 0xC0, 0, 17, 8, 0, 16, 0, 32]) == Ok(Size(32, 16))
    ensures Jpeg([0xFF, 0xD8, 0xFF, 0xFF, 0xC0, 0, 17, 8, 0, 16, 0, 32]) == Err(NoFrame)
  {
    TwoBytes(0, 17);
    TwoBytes(0, 16);
    TwoBytes(0, 32);
    var t := [0xFF, 0xC0, 0, 17, 8, 0, 16, 0, 32];
    PairAt(t, 2);
    PairAt(t, 5);
    PairAt(t, 7);
    WalkFrameAt(t, Size(32, 16));
    Started(t);
    assert [0xFF, 0xD8] + t == [0xFF, 0xD8, 0xFF, 0xC0, 0, 17, 8, 0, 16, 0, 32];
    FilledExample();
  }

  lemma PairAt(t: bytes, i: nat)
    requires i + 2 <= |t|
    ensures t[i..i + 2] == [t[i], t[i + 1]]
  {
  }

  lemma WalkFrameAt(t: bytes, size: Size)
    requires |t| >= 9 && t[0] == 0xFF && IsFrame(t[1]) && FromBigEndian(t[2..4]) >= 2
    requires size == Size(FromBigEndian(t[7..9]), FromBigEndian(t[5..7]))
    ensures Walk(t) == Ok(size)
  {
  }

  lemma FilledExample()
    ensures Jpeg([0xFF, 0xD8, 0xFF, 0xFF, 0xC0, 0, 17, 8, 0, 16, 0, 32]) == Err(NoFrame)
  {
    var rest: bytes := [0, 17, 8, 0, 16, 0, 32];
    FillMisses([], 0xC0, rest);
    assert [0xFF, 0xD8] + (PiecesBytes([]) + ([0xFF, 0xFF, 0xC0] + rest))
           == [0xFF, 0xD8, 0xFF, 0xFF, 0xC0, 0, 17, 8, 0, 16, 0, 32];
  }

  // ---------- PNG and the limits ----------

  const PNG_SIGNATURE: bytes := [0x89, 0x50, 0x4E, 0x47, 0x0D, 0x0A, 0x1A, 0x0A]
  const IHDR: bytes := [0x49, 0x48, 0x44, 0x52]

  function Png(data: bytes): Result<Size, Fault> {
    if |data| < 24 || data[..8] != PNG_SIGNATURE then Err(NotPng)
    else if data[12..16] != IHDR then Err(NoHeaderChunk)
    else Ok(Size(FromBigEndian(data[16..20]), FromBigEndian(data[20..24])))
  }

  function PngHeader(length: bytes, size: Size): bytes {
    PNG_SIGNATURE + length + IHDR + U32(size.width) + U32(size.height)
  }

  /** Dimensions are reported for exactly the files that begin with a PNG header carrying them. */
  lemma PngExact(data: bytes, size: Size)
    ensures Png(data) == Ok(size)
            <==> exists length: bytes :: |length| == 4 && size.width < TWO32 && size.height < TWO32
                                         && PngHeader(length, size) <= data
  {
    if Png(data) == Ok(size) {
      var w, h := data[16..20], data[20..24];
      FromU32RoundTrip(w);
      FromU32RoundTrip(h);
      assert size.width == FromU32(w) && size.height == FromU32(h);
      assert data[..24] == data[..8] + data[8..12] + data[12..16] + w + h;
      assert PngHeader(data[8..12], size) <= data;
    }
    if length: bytes :| |length| == 4 && size.width < TWO32 && size.height < TWO32
                        && PngHeader(length, size) <= data {
      PngHeaderParses(length, size, data);
    }
  }

  lemma PngHeaderParses(length: bytes, size: Size, data: bytes)
    requires |length| == 4 && size.width < TWO32 && size.height < TWO32 && PngHeader(length, size) <= data
    ensures Png(data) == Ok(size)
  {
    var h := PngHeader(length, size);
    PngParts(length, size, h);
    SliceOfPrefix(data, h, 0, 8);
    SliceOfPrefix(data, h, 12, 16);
    SliceOfPrefix(data, h, 16, 20);
    SliceOfPrefix(data, h, 20, 24);
    WordRead(size.width);
    WordRead(size.height);
  }

  lemma PngParts(length: bytes, size: Size, h: bytes)
    requires |length| == 4 && h == PngHeader(length, size)
    ensures |h| == 24 && h[0..8] == PNG_SIGNATURE && h[12..16] == IHDR
    ensures h[16..20] == U32(size.width) && h[20..24] == U32(size.height)
  {
  }

  lemma SliceOfPrefix(data: bytes, h: bytes, i: nat, j: nat)
    requires h <= data && i <= j <= |h|
    ensures data[i..j] == h[i..j]
  {
  }

  lemma WordRead(n: nat)
    requires n < TWO32
    ensures FromBigEndian(U32(n)) == n
  {
    U32RoundTrip(n);
  }

  datatype Info = Info(format: string, size: Size)

  /** Parse by declared type, then check the limits; other types pass unchecked. */
  function Validate(data: bytes, mediaType: string): Result<Info, Fault> {
    if data == [] then Err(Empty)
    else if mediaType != "image/png" && mediaType != "image/jpeg" then Ok(Info(mediaType, Size(0, 0)))
    else
      var fmt := if mediaType == "image/png" then "png" else "jpeg";
      match if mediaType == "image/png" then Png(data) else Jpeg(data)
      case Err(e) => Err(e)
      case Ok(s) =>
        if 1 <= s.width <= MAX_DIMENSION && 1 <= s.height <= MAX_DIMENSION then Ok(Info(fmt, s))
        else Err(OutOfRange)
  }

  /** A JPEG passes exactly when it carries a frame header with both dimensions in 1..10000. */
  lemma ValidJpeg(data: bytes)
    ensures Validate(data, "image/jpeg").Ok?
            <==> exists s :: HasHeader(data, s) && 1 <= s.width <= MAX_DIMENSION && 1 <= s.height <= MAX_DIMENSION
  {
    if Jpeg(data).Ok? {
      JpegExact(data, Jpeg(data).value);
    }
    if s :| HasHeader(data, s) && 1 <= s.width <= MAX_DIMENSION && 1 <= s.height <= MAX_DIMENSION {
      JpegExact(data, s);
      var ps, f :| IsHeaderOf(ps, f, data, s);
      assert |Header(ps, f)| >= 2;
    }
  }
}
