/** Chunk payloads and the sequence-number dictionary of the phone's receivers. */
module Chunks {
  import opened Bytes

  const CHUNK_SIZE: nat := 4096
  const SEQ_BYTES: nat := 4

  /** One binary frame's content: `data` belongs at position `num` of the transfer. */
  datatype Chunk = Chunk(num: nat, data: bytes)

  function Payload(c: Chunk): bytes { U32(c.num) + c.data }

  function Parse(p: bytes): Option<Chunk> {
    if |p| < SEQ_BYTES then None else Some(Chunk(FromU32(p[..4]), p[4..]))
  }

  lemma ParsePayload(c: Chunk)
    requires c.num < TWO32
    ensures Parse(Payload(c)) == Some(c)
  {
    U32RoundTrip(c.num);
    assert Payload(c)[..4] == U32(c.num) && Payload(c)[4..] == c.data;
  }

  // ---------- cutting a blob into chunks ----------

  /** Both senders announce at least one chunk, even for an empty blob. */
  function ChunkCount(len: nat, size: nat): (n: nat)
    requires size > 0
    ensures n >= 1
  {
    var n := (len + size - 1) / size;
    if n == 0 then 1 else n
  }

  function Slice(data: bytes, k: nat, size: nat): bytes {
    var from := k * size;
    if from >= |data| then [] else data[from..Min(from + size, |data|)]
  }

  /** The first `n` chunks of a blob. */
  function Split(data: bytes, size: nat, n: nat): (cs: seq<Chunk>)
    ensures |cs| == n
    ensures forall k :: 0 <= k < n ==> cs[k] == Chunk(k, Slice(data, k, size))
  {
    if n == 0 then [] else Split(data, size, n - 1) + [Chunk(n - 1, Slice(data, n - 1, size))]
  }

  lemma ChunkCountCovers(len: nat, size: nat)
    requires size > 0
    ensures ChunkCount(len, size) * size >= len
    ensures len > 0 ==> (ChunkCount(len, size) - 1) * size < len
  {
    var n := (len + size - 1) / size;
    assert len + size - 1 == n * size + (len + size - 1) % size;
    assert (n - 1) * size == n * size - size;
  }

  function Datas(cs: seq<Chunk>): (ds: seq<bytes>)
    ensures |ds| == |cs|
  {
    seq(|cs|, i requires 0 <= i < |cs| => cs[i].data)
  }

  /** The chunks of a blob, joined, are the blob. */
  lemma {:induction false} JoinSplit(data: bytes, size: nat, n: nat)
    requires size > 0
    ensures Join(Datas(Split(data, size, n))) == data[..Min(n * size, |data|)]
  {
    if n > 0 {
      JoinSplit(data, size, n - 1);
      var s := Slice(data, n - 1, size);
      assert Datas(Split(data, size, n)) == Datas(Split(data, size, n - 1)) + [s];
      JoinAppend(Datas(Split(data, size, n - 1)), s);
      NextSlice(data, n - 1, size);
    }
  }

  lemma NextSlice(data: bytes, k: nat, size: nat)
    ensures data[..Min((k + 1) * size, |data|)] == data[..Min(k * size, |data|)] + Slice(data, k, size)
  {
    assert (k + 1) * size == k * size + size && k * size >= 0;
  }

  // ---------- the phone's dictionary ----------

  /** What a begin message announces. */
  datatype Announced = Announced(size: nat, chunks: nat, sha: string)

  /** The dictionary after a list of chunks: a later chunk replaces an earlier one. */
  function Store(cs: seq<Chunk>): map<nat, bytes> {
    if cs == [] then map[] else
      var last := cs[|cs| - 1];
      Store(cs[..|cs| - 1])[last.num := last.data]
  }

  /** The stored pieces 0, 1, .. n-1 in order. */
  function InOrder(m: map<nat, bytes>, n: nat): (ds: seq<bytes>)
    requires forall i :: 0 <= i < n ==> i in m
    ensures |ds| == n && forall i :: 0 <= i < n ==> ds[i] == m[i]
  {
    seq(n, i requires 0 <= i < n => m[i])
  }

  /** `finish`: the count must match, no piece may be missing, then size and hash must match. */
  function Finish(m: map<nat, bytes>, a: Announced, hash: bytes -> string): Option<bytes> {
    if |m| != a.chunks then None
    else if exists i :: 0 <= i < a.chunks && i !in m then None
    else
      var data := Join(InOrder(m, a.chunks));
      if |data| != a.size then None
      else if hash(data) != a.sha then None
      else Some(data)
  }

  /** The receiver object of one transfer in flight, image or audio; `about` is whatever else its
      begin message said. */
  class Reassembler<M> {
    const about: M
    const announced: Announced
    var chunks: map<nat, bytes>

    constructor (about: M, announced: Announced)
      ensures this.about == about && this.announced == announced && chunks == map[]
    {
      this.about, this.announced, chunks := about, announced, map[];
    }

    /** `false` stands for the ProtocolError of a payload without a whole header. */
    method AddChunk(payload: bytes) returns (ok: bool)
      modifies `chunks
      ensures ok <==> Parse(payload).Some?
      ensures ok ==> var c := Parse(payload).value; chunks == old(chunks)[c.num := c.data]
      ensures !ok ==> chunks == old(chunks)
    {
      if |payload| < SEQ_BYTES {
        return false;
      }
      var s := FromU32(payload[..4]);
      chunks := chunks[s := payload[4..]];
      return true;
    }

    method FinishTransfer(hash: bytes -> string) returns (r: Option<bytes>)
      ensures r == Finish(chunks, announced, hash)
    {
      if |chunks| != announced.chunks {
        return None;
      }
      var parts: seq<bytes> := [];
      for i := 0 to announced.chunks
        invariant forall j :: 0 <= j < i ==> j in chunks
        invariant parts == InOrder(chunks, i)
      {
        if i !in chunks {
          return None;
        }
        parts := parts + [chunks[i]];
      }
      var data := Join(parts);
      if |data| != announced.size {
        return None;
      }
      if hash(data) != announced.sha {
        return None;
      }
      return Some(data);
    }
  }

  lemma StoreAppend(cs: seq<Chunk>, c: Chunk)
    ensures Store(cs + [c]) == Store(cs)[c.num := c.data]
  {
    assert (cs + [c])[..|cs|] == cs;
  }

  lemma {:induction false} StoreOfSplitAt(data: bytes, size: nat, n: nat)
    ensures var m := Store(Split(data, size, n));
            m.Keys == Below(n) && forall i: nat :: i < n ==> m[i] == Slice(data, i, size)
  {
    if n > 0 {
      StoreOfSplitAt(data, size, n - 1);
      StoreAppend(Split(data, size, n - 1), Chunk(n - 1, Slice(data, n - 1, size)));
    }
  }

  lemma StoreOfSplit(data: bytes, size: nat, n: nat)
    ensures var m := Store(Split(data, size, n));
            m.Keys == Below(n) && InOrder(m, n) == Datas(Split(data, size, n))
  {
    StoreOfSplitAt(data, size, n);
  }

  // ---------- when a transfer completes ----------

  function Seqs(cs: seq<Chunk>): set<nat> {
    set c <- cs :: c.num
  }

  /** The numbers 0..n-1. */
  function Below(n: nat): (r: set<nat>)
    ensures forall i: nat :: i in r <==> i < n
    ensures |r| == n
  {
    if n == 0 then {} else Below(n - 1) + {n - 1}
  }

  lemma SubsetOfSameSize(a: set<nat>, b: set<nat>)
    requires a <= b && |a| == |b|
    ensures a == b
  {
    assert b == a + (b - a);
    assert |b| == |a| + |b - a|;
  }

  /** The payload that arrived last for a sequence number. */
  function LastFor(cs: seq<Chunk>, s: nat): bytes
    requires s in Seqs(cs)
  {
    var last := cs[|cs| - 1];
    if last.num == s then last.data else
      assert exists c <- cs :: c.num == s;
      assert forall c <- cs :: c == last || c in cs[..|cs| - 1];
      LastFor(cs[..|cs| - 1], s)
  }

  lemma {:induction false} StoreIsLast(cs: seq<Chunk>)
    ensures Store(cs).Keys == Seqs(cs)
    ensures forall s :: s in Seqs(cs) ==> Store(cs)[s] == LastFor(cs, s)
  {
    if cs != [] {
      var init, last := cs[..|cs| - 1], cs[|cs| - 1];
      StoreIsLast(init);
      assert cs == init + [last];
      assert Seqs(cs) == Seqs(init) + {last.num};
    }
  }

  /** For each of 0..n-1, the payload that arrived last. */
  function LastInOrder(cs: seq<Chunk>, n: nat): (ds: seq<bytes>)
    requires Seqs(cs) == Below(n)
    ensures |ds| == n && forall i :: 0 <= i < n ==> ds[i] == LastFor(cs, i)
  {
    seq(n, i requires 0 <= i < n => LastFor(cs, i))
  }

  lemma CountAndNoGap(m: map<nat, bytes>, n: nat)
    ensures |m| == n && (forall i :: 0 <= i < n ==> i in m) <==> m.Keys == Below(n)
  {
    assert |m| == |m.Keys|;
    if |m| == n && forall i :: 0 <= i < n ==> i in m {
      SubsetOfSameSize(Below(n), m.Keys);
    }
  }

  /** A transfer completes exactly when the sequence numbers seen are 0..chunks-1, each at least
      once, and the size and the hash agree; its result joins the last payload of each number. */
  lemma FinishExact(cs: seq<Chunk>, a: Announced, hash: bytes -> string)
    ensures Finish(Store(cs), a, hash).Some?
            <==> Seqs(cs) == Below(a.chunks)
                 && |Join(LastInOrder(cs, a.chunks))| == a.size
                 && hash(Join(LastInOrder(cs, a.chunks))) == a.sha
    ensures Finish(Store(cs), a, hash).Some?
            ==> Finish(Store(cs), a, hash).value == Join(LastInOrder(cs, a.chunks))
  {
    var m := Store(cs);
    StoreIsLast(cs);
    CountAndNoGap(m, a.chunks);
    if Seqs(cs) == Below(a.chunks) {
      assert InOrder(m, a.chunks) == LastInOrder(cs, a.chunks);
    }
  }

  predicate DistinctSeqs(cs: seq<Chunk>) {
    forall i, j :: 0 <= i < j < |cs| ==> cs[i].num != cs[j].num
  }

  lemma NewEntry(m: map<nat, bytes>, k: nat, d: bytes)
    requires k !in m
    ensures |m[k := d]| == |m| + 1
  {
    assert m[k := d].Keys == m.Keys + {k};
    assert |m[k := d].Keys| == |m[k := d]| && |m.Keys| == |m|;
  }

  lemma ChunkOf(cs: seq<Chunk>, num: nat) returns (c: Chunk)
    requires num in Seqs(cs)
    ensures c in cs && c.num == num
  {
    c :| c in cs && c.num == num;
  }

  lemma {:induction false} StoreDistinct(cs: seq<Chunk>)
    requires DistinctSeqs(cs)
    ensures |Store(cs)| == |cs|
    ensures forall c <- cs :: c.num in Store(cs) && Store(cs)[c.num] == c.data
  {
    if cs != [] {
      var init, last := cs[..|cs| - 1], cs[|cs| - 1];
      StoreDistinct(init);
      StoreIsLast(init);
      assert last.num !in Seqs(init);
      assert cs == init + [last];
      NewEntry(Store(init), last.num, last.data);
    }
  }

  /** Distinct chunks give the same dictionary in whatever order they arrive. */
  lemma StoreOrderFree(a: seq<Chunk>, b: seq<Chunk>)
    requires DistinctSeqs(a) && multiset(a) == multiset(b)
    ensures DistinctSeqs(b) && Store(a) == Store(b)
  {
    forall i, j | 0 <= i < j < |b| ensures b[i].num != b[j].num {
      PermutationDistinct(a, b, i, j);
    }
    forall c ensures c in a <==> c in b {
      assert c in a <==> c in multiset(a);
      assert c in b <==> c in multiset(b);
    }
    SameStore(a, b);
  }

  lemma SameStore(a: seq<Chunk>, b: seq<Chunk>)
    requires DistinctSeqs(a) && DistinctSeqs(b)
    requires forall c :: c in a <==> c in b
    ensures Store(a) == Store(b)
  {
    StoreDistinct(a);
    StoreDistinct(b);
    StoreIsLast(a);
    StoreIsLast(b);
    assert Seqs(a) == Seqs(b);
    forall s | s in Store(a) ensures Store(a)[s] == Store(b)[s] {
      var c := ChunkOf(a, s);
      assert c in b;
    }
  }

  lemma PermutationDistinct(a: seq<Chunk>, b: seq<Chunk>, i: nat, j: nat)
    requires DistinctSeqs(a) && multiset(a) == multiset(b) && i < j < |b|
    ensures b[i].num != b[j].num
  {
    assert b[i] in multiset(b) && b[j] in multiset(b);
    if b[i] == b[j] {
      CountTwo(b, i, j);
      CountOne(a, b[i]);
    }
  }

  lemma CountTwo(b: seq<Chunk>, i: nat, j: nat)
    requires i < j < |b| && b[i] == b[j]
    ensures multiset(b)[b[i]] >= 2
  {
    assert b == b[..j] + [b[j]] + b[j + 1..];
    assert b[i] in b[..j];
  }

  lemma {:induction false} CountOne(a: seq<Chunk>, c: Chunk)
    requires DistinctSeqs(a)
    ensures multiset(a)[c] <= 1
  {
    if a != [] {
      var init, last := a[..|a| - 1], a[|a| - 1];
      assert a == init + [last];
      CountOne(init, c);
      if last == c {
        assert c !in init;
      }
    }
  }
}
