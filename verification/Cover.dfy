/** Why counting bytes is enough: chunks written at `num * 4096`, with distinct numbers, all in
    range and adding up to the announced size, cover the buffer exactly, so the firmware's
    in-place reassembly agrees with the phone's dictionary. */
module Cover {
  import opened Bytes
  import opened Chunks

  function Offset(c: Chunk): nat { c.num * CHUNK_SIZE }

  predicate InRange(c: Chunk, cap: nat) {
    |c.data| <= CHUNK_SIZE && Offset(c) + |c.data| <= cap
  }

  predicate AllInRange(cs: seq<Chunk>, cap: nat) {
    forall c <- cs :: InRange(c, cap)
  }

  /** One memcpy into the buffer. */
  function Write(buf: bytes, c: Chunk): (r: bytes)
    requires InRange(c, |buf|)
    ensures |r| == |buf|
  {
    buf[..Offset(c)] + c.data + buf[Offset(c) + |c.data|..]
  }

  function WriteAll(buf: bytes, cs: seq<Chunk>): (r: bytes)
    requires AllInRange(cs, |buf|)
    ensures |r| == |buf|
  {
    if cs == [] then buf else Write(WriteAll(buf, cs[..|cs| - 1]), cs[|cs| - 1])
  }

  function Total(cs: seq<Chunk>): nat {
    if cs == [] then 0 else Total(cs[..|cs| - 1]) + |cs[|cs| - 1].data|
  }

  // ---------- counting ----------

  predicate Covers(c: Chunk, i: nat) {
    Offset(c) <= i < Offset(c) + |c.data|
  }

  /** How many of the chunks write byte `i`. */
  function Hits(cs: seq<Chunk>, i: nat): nat {
    if cs == [] then 0
    else Hits(cs[..|cs| - 1], i) + (if Covers(cs[|cs| - 1], i) then 1 else 0)
  }

  /** No two chunks with data share a number; chunks without data do not matter. */
  predicate DistinctNonEmpty(cs: seq<Chunk>) {
    forall i, j :: 0 <= i < j < |cs| && cs[i].data != [] && cs[j].data != [] ==> cs[i].num != cs[j].num
  }

  /** The positions from, .., from + n - 1. */
  function Range(from: nat, n: nat): (r: set<nat>)
    ensures forall i: nat :: i in r <==> from <= i < from + n
    ensures |r| == n
  {
    if n == 0 then {} else Range(from, n - 1) + {from + n - 1}
  }

  function Covered(cs: seq<Chunk>): set<nat> {
    if cs == [] then {}
    else Covered(cs[..|cs| - 1]) + Range(Offset(cs[|cs| - 1]), |cs[|cs| - 1].data|)
  }

  lemma {:induction false} CoveredMeans(cs: seq<Chunk>, i: nat)
    ensures i in Covered(cs) <==> exists c <- cs :: Covers(c, i)
    ensures i in Covered(cs) <==> Hits(cs, i) > 0
  {
    if cs != [] {
      var init, last := cs[..|cs| - 1], cs[|cs| - 1];
      CoveredMeans(init, i);
      assert last in cs;
      assert forall c :: c in cs <==> c in init || c == last;
    }
  }

  /** Two different chunks of 4096 bytes or less never overlap. */
  lemma NumberOfByte(c: Chunk, i: nat)
    requires |c.data| <= CHUNK_SIZE && Covers(c, i)
    ensures c.num == i / CHUNK_SIZE && c.data != []
  {
    DivModUnique(i, CHUNK_SIZE, c.num, i - Offset(c));
  }

  lemma LastIsNew(cs: seq<Chunk>, size: nat, i: nat)
    requires cs != [] && AllInRange(cs, size) && DistinctNonEmpty(cs)
    requires Covers(cs[|cs| - 1], i)
    ensures i !in Covered(cs[..|cs| - 1])
  {
    var init, last := cs[..|cs| - 1], cs[|cs| - 1];
    CoveredMeans(init, i);
    assert InRange(last, size);
    NumberOfByte(last, i);
    if c :| c in init && Covers(c, i) {
      var k :| 0 <= k < |init| && init[k] == c;
      assert cs[k] == c && InRange(c, size);
      NumberOfByte(c, i);
      assert false;
    }
  }

  /** With distinct numbers the covered positions are as many as the bytes sent. */
  lemma {:induction false} CoveredSize(cs: seq<Chunk>, size: nat)
    requires AllInRange(cs, size) && DistinctNonEmpty(cs)
    ensures |Covered(cs)| == Total(cs) <= size
  {
    if cs != [] {
      var init, last := cs[..|cs| - 1], cs[|cs| - 1];
      CoveredSize(init, size);
      var r := Range(Offset(last), |last.data|);
      forall i: nat | i in r ensures i !in Covered(init) {
        LastIsNew(cs, size, i);
      }
      assert Covered(init) !! r;
    }
    forall i: nat | i in Covered(cs) ensures i in Below(size) {
      CoveredMeans(cs, i);
      var c :| c in cs && Covers(c, i);
      assert InRange(c, size);
    }
    SubsetSize(Covered(cs), Below(size));
  }

  lemma SubsetSize(a: set<nat>, b: set<nat>)
    requires forall i :: i in a ==> i in b
    ensures |a| <= |b|
  {
    assert b == a + (b - a);
  }

  lemma {:induction false} HitsAtMostOne(cs: seq<Chunk>, size: nat, i: nat)
    requires AllInRange(cs, size) && DistinctNonEmpty(cs)
    ensures Hits(cs, i) <= 1
  {
    if cs != [] {
      HitsAtMostOne(cs[..|cs| - 1], size, i);
      if Covers(cs[|cs| - 1], i) {
        LastIsNew(cs, size, i);
        CoveredMeans(cs[..|cs| - 1], i);
      }
    }
  }

  lemma {:induction false} HitsAtLeastTwo(cs: seq<Chunk>, a: nat, b: nat, i: nat)
    requires a < b < |cs| && Covers(cs[a], i) && Covers(cs[b], i)
    ensures Hits(cs, i) >= 2
  {
    var init := cs[..|cs| - 1];
    if b < |init| {
      HitsAtLeastTwo(init, a, b, i);
    } else {
      assert init[a] in init;
      CoveredMeans(init, i);
    }
  }

  /** The total matches and every write is in range: then every byte is written exactly once if
      and only if no two non-empty chunks share a sequence number. */
  lemma ExactCover(cs: seq<Chunk>, size: nat)
    requires AllInRange(cs, size) && Total(cs) == size
    ensures DistinctNonEmpty(cs) <==> forall i :: 0 <= i < size ==> Hits(cs, i) == 1
  {
    if DistinctNonEmpty(cs) {
      forall i | 0 <= i < size ensures Hits(cs, i) == 1 {
        AllCovered(cs, size, i);
        CoveredMeans(cs, i);
        HitsAtMostOne(cs, size, i);
      }
    } else {
      var a, b :| 0 <= a < b < |cs| && cs[a].data != [] && cs[b].data != [] && cs[a].num == cs[b].num;
      HitsAtLeastTwo(cs, a, b, Offset(cs[a]));
      assert InRange(cs[a], size);
    }
  }

  lemma AllCovered(cs: seq<Chunk>, size: nat, i: nat)
    requires AllInRange(cs, size) && Total(cs) == size && DistinctNonEmpty(cs) && i < size
    ensures i in Covered(cs)
  {
    CoveredSize(cs, size);
    forall j: nat | j in Covered(cs) ensures j in Below(size) {
      CoveredMeans(cs, j);
      var c :| c in cs && Covers(c, j);
      assert InRange(c, size);
    }
    SubsetOfSameSize(Covered(cs), Below(size));
  }

  // ---------- what the buffer then holds ----------

  /** The chunk that wrote byte `i`. */
  lemma WriterOf(cs: seq<Chunk>, size: nat, i: nat) returns (c: Chunk)
    requires AllInRange(cs, size) && Total(cs) == size && DistinctNonEmpty(cs) && i < size
    ensures c in cs && Covers(c, i) && c.num == i / CHUNK_SIZE
  {
    AllCovered(cs, size, i);
    CoveredMeans(cs, i);
    c :| c in cs && Covers(c, i);
    assert InRange(c, size);
    NumberOfByte(c, i);
  }

  /** A non-empty chunk is full, or ends where the buffer ends. */
  lemma ChunkIsFull(cs: seq<Chunk>, size: nat, c: Chunk)
    requires AllInRange(cs, size) && Total(cs) == size && DistinctNonEmpty(cs)
    requires c in cs && c.data != []
    ensures |c.data| == Min(CHUNK_SIZE, size - Offset(c))
  {
    assert InRange(c, size);
    if |c.data| < CHUNK_SIZE && Offset(c) + |c.data| < size {
      var i := Offset(c) + |c.data|;
      var d := WriterOf(cs, size, i);
      DivModUnique(i, CHUNK_SIZE, c.num, |c.data|);
      assert false;
    }
  }

  /** The numbers of the non-empty chunks are contiguous from 0. */
  lemma NumbersContiguous(cs: seq<Chunk>, size: nat, n: nat)
    requires AllInRange(cs, size) && Total(cs) == size && DistinctNonEmpty(cs)
    ensures (exists c <- cs :: c.num == n && c.data != []) <==> n * CHUNK_SIZE < size
  {
    if n * CHUNK_SIZE < size {
      var c := WriterOf(cs, size, n * CHUNK_SIZE);
      DivModUnique(n * CHUNK_SIZE, CHUNK_SIZE, n, 0);
    }
    if c :| c in cs && c.num == n && c.data != [] {
      assert InRange(c, size);
    }
  }

  /** The buffer holds each chunk's bytes where that chunk wrote them. */
  lemma {:induction false} WrittenByte(buf: bytes, cs: seq<Chunk>, c: Chunk, i: nat)
    requires AllInRange(cs, |buf|) && DistinctNonEmpty(cs)
    requires c in cs && Covers(c, i)
    ensures i < |buf| && WriteAll(buf, cs)[i] == c.data[i - Offset(c)]
  {
    assert InRange(c, |buf|);
    var init, last := cs[..|cs| - 1], cs[|cs| - 1];
    if c == last {
    } else {
      assert c in init;
      CoveredMeans(init, i);
      assert InRange(last, |buf|);
      if Covers(last, i) {
        LastIsNew(cs, |buf|, i);
      }
      WrittenByte(buf, init, c, i);
      LeavesByte(WriteAll(buf, init), last, i);
    }
  }

  lemma LeavesByte(buf: bytes, c: Chunk, i: nat)
    requires InRange(c, |buf|) && i < |buf| && !Covers(c, i)
    ensures Write(buf, c)[i] == buf[i]
  {
  }

  // ---------- agreement with the dictionary ----------

  /** `n` pieces of which all but the last are full, joined: where each byte comes from. */
  lemma {:induction false} JoinFull(ds: seq<bytes>, i: nat)
    requires forall k :: 0 <= k < |ds| - 1 ==> |ds[k]| == CHUNK_SIZE
    requires i < |Join(ds)|
    requires ds != [] ==> |ds[|ds| - 1]| <= CHUNK_SIZE
    ensures i / CHUNK_SIZE < |ds| && i % CHUNK_SIZE < |ds[i / CHUNK_SIZE]|
    ensures Join(ds)[i] == ds[i / CHUNK_SIZE][i % CHUNK_SIZE]
  {
    if i < |ds[0]| {
      assert i == 0 * CHUNK_SIZE + i;
      DivModUnique(i, CHUNK_SIZE, 0, i);
    } else {
      assert |ds| > 1;
      JoinFull(ds[1..], i - CHUNK_SIZE);
      DivModUnique(i, CHUNK_SIZE, (i - CHUNK_SIZE) / CHUNK_SIZE + 1, (i - CHUNK_SIZE) % CHUNK_SIZE);
    }
  }

  /** Bytes stored under the numbers 0..n-1. */
  function StoredBytes(m: map<nat, bytes>, n: nat): nat {
    if n == 0 then 0 else StoredBytes(m, n - 1) + (if n - 1 in m then |m[n - 1]| else 0)
  }

  lemma {:induction false} StoredBytesUpdate(m: map<nat, bytes>, k: nat, d: bytes, n: nat)
    requires k !in m
    ensures StoredBytes(m[k := d], n) == StoredBytes(m, n) + (if k < n then |d| else 0)
  {
    if n > 0 {
      StoredBytesUpdate(m, k, d, n - 1);
    }
  }

  lemma {:induction false} NothingStored(n: nat)
    ensures StoredBytes(map[], n) == 0
  {
    if n > 0 {
      NothingStored(n - 1);
    }
  }

  lemma {:induction false} StoredBytesTotal(cs: seq<Chunk>, n: nat)
    requires DistinctSeqs(cs) && forall c <- cs :: c.num < n
    ensures StoredBytes(Store(cs), n) == Total(cs)
  {
    if cs == [] {
      NothingStored(n);
    } else {
      var init, last := cs[..|cs| - 1], cs[|cs| - 1];
      assert last in cs && forall c <- init :: c in cs;
      StoredBytesTotal(init, n);
      StoreIsLast(init);
      assert last.num !in Seqs(init);
      StoredBytesUpdate(Store(init), last.num, last.data, n);
    }
  }

  lemma {:induction false} JoinedBytes(m: map<nat, bytes>, n: nat)
    requires forall i :: 0 <= i < n ==> i in m
    ensures |Join(InOrder(m, n))| == StoredBytes(m, n)
  {
    if n > 0 {
      JoinedBytes(m, n - 1);
      assert InOrder(m, n) == InOrder(m, n - 1) + [m[n - 1]];
      JoinAppend(InOrder(m, n - 1), m[n - 1]);
    }
  }

  /** A finite set of numbers with no gap below any member is 0..size-1. */
  lemma NoGaps(s: set<nat>)
    requires forall i: nat, j: nat :: i in s && j < i ==> j in s
    ensures s == Below(|s|)
  {
    forall i: nat | i in s ensures i in Below(|s|) {
      if i >= |s| {
        SubsetSize(Below(i + 1), s);
      }
    }
    SubsetOfSameSize(s, Below(|s|));
  }

  lemma DistinctIsNonEmptyDistinct(cs: seq<Chunk>)
    requires DistinctSeqs(cs)
    ensures DistinctNonEmpty(cs)
  {
  }

  /** Distinct numbers in range whose data adds up to the size are 0, 1, .. without a gap, empty
      chunks included. */
  lemma AllNumbersContiguous(cs: seq<Chunk>, size: nat)
    requires AllInRange(cs, size) && Total(cs) == size && DistinctSeqs(cs)
    ensures Seqs(cs) == Below(|cs|)
  {
    DistinctIsNonEmptyDistinct(cs);
    forall i: nat, j: nat | i in Seqs(cs) && j < i ensures j in Seqs(cs) {
      var c :| c in cs && c.num == i;
      assert InRange(c, size);
      assert j * CHUNK_SIZE < size;
      NumbersContiguous(cs, size, j);
    }
    NoGaps(Seqs(cs));
    StoreDistinct(cs);
    StoreIsLast(cs);
    assert |Store(cs)| == |Store(cs).Keys|;
  }

  /** What the firmware requires of the chunks it was sent for a buffer of exactly the announced
      size. */
  predicate Accepts(buf: bytes, cs: seq<Chunk>, sha: string, hash: bytes -> string) {
    AllInRange(cs, |buf|) && Total(cs) == |buf| && hash(WriteAll(buf, cs)) == sha
  }

  /** The in-place buffer and the joined dictionary hold the same bytes. */
  lemma BufferIsJoin(buf: bytes, cs: seq<Chunk>)
    requires AllInRange(cs, |buf|) && Total(cs) == |buf| && DistinctSeqs(cs)
    ensures Seqs(cs) == Below(|cs|) && Store(cs).Keys == Below(|cs|)
    ensures Join(InOrder(Store(cs), |cs|)) == WriteAll(buf, cs)
  {
    AllNumbersContiguous(cs, |buf|);
    StoreIsLast(cs);
    var ds := InOrder(Store(cs), |cs|);
    JoinedLength(cs);
    forall i | 0 <= i < |buf| ensures Join(ds)[i] == WriteAll(buf, cs)[i] {
      JoinedByte(buf, cs, i);
    }
  }

  lemma JoinedLength(cs: seq<Chunk>)
    requires DistinctSeqs(cs) && Seqs(cs) == Below(|cs|) && Store(cs).Keys == Below(|cs|)
    ensures |Join(InOrder(Store(cs), |cs|))| == Total(cs)
  {
    assert forall c <- cs :: c.num in Seqs(cs);
    StoredBytesTotal(cs, |cs|);
    JoinedBytes(Store(cs), |cs|);
  }

  lemma JoinedByte(buf: bytes, cs: seq<Chunk>, i: nat)
    requires AllInRange(cs, |buf|) && Total(cs) == |buf| && DistinctSeqs(cs)
    requires Seqs(cs) == Below(|cs|) && Store(cs).Keys == Below(|cs|)
    requires i < |buf| == |Join(InOrder(Store(cs), |cs|))|
    ensures Join(InOrder(Store(cs), |cs|))[i] == WriteAll(buf, cs)[i]
  {
    PiecesFull(cs, |buf|);
    JoinFull(InOrder(Store(cs), |cs|), i);
    BufferByte(buf, cs, i);
  }

  lemma BufferByte(buf: bytes, cs: seq<Chunk>, i: nat)
    requires AllInRange(cs, |buf|) && DistinctSeqs(cs) && i < |buf|
    requires i / CHUNK_SIZE in Store(cs) && i % CHUNK_SIZE < |Store(cs)[i / CHUNK_SIZE]|
    ensures WriteAll(buf, cs)[i] == Store(cs)[i / CHUNK_SIZE][i % CHUNK_SIZE]
  {
    StoreIsLast(cs);
    var c := ChunkNumbered(cs, i / CHUNK_SIZE);
    CoversAt(c, i);
    DistinctIsNonEmptyDistinct(cs);
    WrittenByte(buf, cs, c, i);
  }

  lemma CoversAt(c: Chunk, i: nat)
    requires c.num == i / CHUNK_SIZE && i % CHUNK_SIZE < |c.data|
    ensures Covers(c, i) && i - Offset(c) == i % CHUNK_SIZE
  {
  }

  lemma PiecesFull(cs: seq<Chunk>, size: nat)
    requires AllInRange(cs, size) && Total(cs) == size && DistinctSeqs(cs)
    requires Store(cs).Keys == Below(|cs|)
    ensures var ds := InOrder(Store(cs), |cs|);
            && (forall k :: 0 <= k < |ds| - 1 ==> |ds[k]| == CHUNK_SIZE)
            && (ds != [] ==> |ds[|ds| - 1]| <= CHUNK_SIZE)
  {
    forall k | 0 <= k < |cs| ensures |Store(cs)[k]| <= CHUNK_SIZE && (k < |cs| - 1 ==> |Store(cs)[k]| == CHUNK_SIZE) {
      PieceLength(cs, size, k);
    }
  }

  lemma ChunkNumbered(cs: seq<Chunk>, k: nat) returns (c: Chunk)
    requires DistinctSeqs(cs) && k in Seqs(cs)
    ensures c in cs && c.num == k && k in Store(cs) && Store(cs)[k] == c.data
  {
    StoreDistinct(cs);
    c :| c in cs && c.num == k;
  }

  lemma PieceLength(cs: seq<Chunk>, size: nat, k: nat)
    requires AllInRange(cs, size) && Total(cs) == size && DistinctSeqs(cs) && k < |cs|
    ensures k in Store(cs) && |Store(cs)[k]| <= CHUNK_SIZE
    ensures k < |cs| - 1 ==> |Store(cs)[k]| == CHUNK_SIZE
  {
    AllNumbersContiguous(cs, size);
    DistinctIsNonEmptyDistinct(cs);
    var c := ChunkNumbered(cs, k);
    assert InRange(c, size);
    if k < |cs| - 1 {
      var d := ChunkNumbered(cs, k + 1);
      assert InRange(d, size);
      NumbersContiguous(cs, size, k);
      var e :| e in cs && e.num == k && e.data != [];
      StoreDistinct(cs);
      ChunkIsFull(cs, size, e);
    }
  }

  /** The firmware accepts and the numbers are distinct, exactly when the phone's dictionary form
      accepts and every chunk fits where the firmware writes it. */
  lemma Agreement(buf: bytes, cs: seq<Chunk>, sha: string, hash: bytes -> string)
    ensures Accepts(buf, cs, sha, hash) && DistinctSeqs(cs)
            <==> Finish(Store(cs), Announced(|buf|, |cs|, sha), hash).Some? && AllInRange(cs, |buf|)
    ensures Accepts(buf, cs, sha, hash) && DistinctSeqs(cs)
            ==> Finish(Store(cs), Announced(|buf|, |cs|, sha), hash) == Some(WriteAll(buf, cs))
  {
    if Accepts(buf, cs, sha, hash) && DistinctSeqs(cs) {
      BufferIsJoin(buf, cs);
      assert |Store(cs)| == |Store(cs).Keys|;
    }
    if Finish(Store(cs), Announced(|buf|, |cs|, sha), hash).Some? && AllInRange(cs, |buf|) {
      FullStoreIsDistinct(cs);
      StoreIsLast(cs);
      CountAndNoGap(Store(cs), |cs|);
      assert forall c <- cs :: c.num in Seqs(cs);
      StoredBytesTotal(cs, |cs|);
      JoinedBytes(Store(cs), |cs|);
      BufferIsJoin(buf, cs);
    }
  }

  lemma {:induction false} StoreNotLarger(cs: seq<Chunk>)
    ensures |Store(cs)| <= |cs|
  {
    if cs != [] {
      StoreNotLarger(cs[..|cs| - 1]);
    }
  }

  /** As many entries as chunks: then no number came twice. */
  lemma {:induction false} FullStoreIsDistinct(cs: seq<Chunk>)
    requires |Store(cs)| == |cs|
    ensures DistinctSeqs(cs)
  {
    if cs != [] {
      var init, last := cs[..|cs| - 1], cs[|cs| - 1];
      StoreNotLarger(init);
      FullStoreIsDistinct(init);
      StoreIsLast(init);
      forall i | 0 <= i < |init| ensures cs[i].num != last.num {
        assert init[i] in init;
      }
    }
  }

  /** Repeated numbers can add up to the announced size and leave a hole: the buffer keeps its old
      content there, and only the hash can tell. */
  lemma RepeatedNumberLeavesHole(buf: bytes, x: byte)
    requires |buf| == 2 * CHUNK_SIZE
    ensures var c := Chunk(0, seq(CHUNK_SIZE, _ => x));
            && AllInRange([c, c], |buf|) && Total([c, c]) == |buf|
            && WriteAll(buf, [c, c])[CHUNK_SIZE..] == buf[CHUNK_SIZE..]
            && Hits([c, c], CHUNK_SIZE) == 0
            && Store([c, c]).Keys == {0}
  {
    var c := Chunk(0, seq(CHUNK_SIZE, _ => x));
    assert [c, c][..1] == [c] && [c][..0] == [];
    assert Total([c]) == CHUNK_SIZE;
    assert WriteAll(buf, [c]) == Write(buf, c);
    assert Hits([c], CHUNK_SIZE) == 0;
    assert Store([c]) == map[0 := c.data];
  }
}
