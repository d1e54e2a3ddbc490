/** Two parties side by side, joined by two byte streams: one writes a request and then reads, the
    other reads frames and writes its answers. Every schedule of their steps, and every way the
    writes of either are cut up, ends the same. */
module Schedule {
  import opened Bytes
  import opened Framing

  /** What the parties do with one frame: the reader takes one off its stream in a phase, the
      answerer takes one in a state and says something. */
  datatype Parties<!P, !S> = Parties(
    listens: P -> bool, hear: (P, bytes) -> (P, bytes),
    open: S -> bool, answer: (S, Frame) -> (S, seq<Frame>))

  datatype Side<P> = Writing(left: bytes) | Reading(phase: P)

  /** `up` is written and not yet taken by the answerer, `down` by the reader; `pending` is what the
      answerer has still to write. */
  datatype World<P, S> = World(side: Side<P>, up: bytes, down: bytes, state: S, pending: bytes)

  // ---------- the steps ----------

  /** Some more bytes of the request are written. */
  ghost predicate WriteStep<P, S>(w: World<P, S>, next: World<P, S>, n: nat) {
    && w.side.Writing? && 0 < n <= |w.side.left|
    && next == w.(side := Writing(w.side.left[n..]), up := w.up + w.side.left[..n])
  }

  /** Some bytes of the request are written, or all were and reading begins. */
  ghost predicate SendStep<P, S>(w: World<P, S>, next: World<P, S>, first: P) {
    || (w.side == Writing([]) && next == w.(side := Reading(first)))
    || exists n: nat :: WriteStep(w, next, n)
  }

  /** The answerer, done with writing, takes a whole frame and begins to answer it. */
  ghost predicate AnswerStep<P, S>(m: Parties<P, S>, w: World<P, S>, next: World<P, S>) {
    && w.pending == [] && m.open(w.state) && PyReceive(w.up).Some?
    && var (f, rest) := PyReceive(w.up).value;
       var (state, fs) := m.answer(w.state, f);
       next == w.(up := rest, state := state, pending := EncodeAll(fs))
  }

  /** Some more bytes of the answer are written. */
  ghost predicate SpeakStep<P, S>(w: World<P, S>, next: World<P, S>, n: nat) {
    && 0 < n <= |w.pending|
    && next == w.(pending := w.pending[n..], down := w.down + w.pending[..n])
  }

  /** The reader takes a whole frame. */
  ghost predicate ReadStep<P, S>(m: Parties<P, S>, w: World<P, S>, next: World<P, S>) {
    && w.side.Reading? && m.listens(w.side.phase) && PyReceive(w.down).Some?
    && var (phase, rest) := m.hear(w.side.phase, w.down);
       next == w.(side := Reading(phase), down := rest)
  }

  ghost predicate Step<P, S>(m: Parties<P, S>, first: P, w: World<P, S>, next: World<P, S>) {
    || SendStep(w, next, first) || AnswerStep(m, w, next) || ReadStep(m, w, next)
    || exists n: nat :: SpeakStep(w, next, n)
  }

  /** No step is possible. */
  ghost predicate Stuck<P(!new), S(!new)>(m: Parties<P, S>, first: P, w: World<P, S>) {
    !exists next: World<P, S> :: Step(m, first, w, next)
  }

  // ---------- scripts ----------

  /** The answerer's state and everything it says after these frames. */
  function Said<P, S>(m: Parties<P, S>, start: S, fs: seq<Frame>): (S, seq<Frame>) {
    if fs == [] then (start, [])
    else
      var (s, said) := Said(m, start, fs[..|fs| - 1]);
      var (s', more) := m.answer(s, fs[|fs| - 1]);
      (s', said + more)
  }

  /** How an exchange is meant to go: the frames asked and answered, the answerer's first state, the
      reader's phase after each answer it takes, and whether it takes all of them whole; if not, it
      stops in its last phase and may leave answers, or a part of one, unread. */
  datatype Script<P, S> = Script(asked: seq<Frame>, answers: seq<Frame>, start: S, phases: seq<P>, drains: bool)

  /** In its `j`-th phase the reader takes the `j`-th answer, whatever follows it, into the next; if
      it stops there, it may leave the answer half read. */
  ghost predicate Takes<P, S>(m: Parties<P, S>, c: Script<P, S>, j: nat)
    requires j < |c.answers| && j + 1 < |c.phases|
  {
    && m.listens(c.phases[j])
    && forall tail: bytes :: TakesBefore(m, c, j, tail)
  }

  ghost predicate TakesBefore<P, S>(m: Parties<P, S>, c: Script<P, S>, j: nat, tail: bytes)
    requires j < |c.answers| && j + 1 < |c.phases|
  {
    var (phase, rest) := m.hear(c.phases[j], Encode(c.answers[j]) + tail);
    phase == c.phases[j + 1] && (rest == tail || Aborts(m, c, j + 1))
  }

  /** The reader stops in its `j`-th phase and may leave something unread. */
  predicate Aborts<P, S>(m: Parties<P, S>, c: Script<P, S>, j: nat)
    requires j < |c.phases|
  {
    !m.listens(c.phases[j]) && !c.drains
  }

  /** Before the `k`-th frame the answerer is open and has said nothing. */
  ghost predicate Quiet<P, S>(m: Parties<P, S>, c: Script<P, S>, k: nat)
    requires k <= |c.asked|
  {
    var (s, said) := Said(m, c.start, c.asked[..k]);
    m.open(s) && said == []
  }

  /** The script is what each party, by itself, really does; the last frame asked is answered, and
      the reader takes all answers or stops. */
  ghost predicate Scripted<P, S>(m: Parties<P, S>, c: Script<P, S>) {
    && (forall f <- c.asked :: Sendable(f)) && (forall f <- c.answers :: Sendable(f))
    && Said(m, c.start, c.asked).1 == c.answers
    && 0 < |c.phases| <= |c.answers| + 1
    && (if c.drains then |c.phases| == |c.answers| + 1 else !m.listens(c.phases[|c.phases| - 1]))
    && (forall j :: 0 <= j < |c.phases| - 1 ==> Takes(m, c, j))
    && (forall k :: 0 <= k < |c.asked| ==> Quiet(m, c, k))
  }

  function Start<P, S>(c: Script<P, S>): World<P, S> {
    World(Writing(EncodeAll(c.asked)), [], [], c.start, [])
  }

  ghost predicate IsRun<P, S>(m: Parties<P, S>, c: Script<P, S>, ws: seq<World<P, S>>) {
    && ws != [] && c.phases != [] && ws[0] == Start(c)
    && forall i :: 0 <= i < |ws| - 1 ==> Step(m, c.phases[0], ws[i], ws[i + 1])
  }

  /** The reader in its last phase, everything asked and everything answered, the answerer where the
      request leads it; and if the reader takes all answers, nothing left unread. */
  ghost predicate Final<P, S>(m: Parties<P, S>, c: Script<P, S>, w: World<P, S>) {
    && c.phases != [] && w.side == Reading(c.phases[|c.phases| - 1])
    && w.up == [] && w.pending == [] && w.state == Said(m, c.start, c.asked).0
    && (c.drains ==> w.down == [])
  }

  // ---------- where a run can be ----------

  function LeftOf<P>(side: Side<P>): bytes {
    if side.Writing? then side.left else []
  }

  /** After the answerer took `k` frames and the reader `j`: what is in the streams, or about to be
      written, is what was asked or said and not yet taken, and the answerer is where the frames it
      took have brought it. */
  ghost predicate At<P, S>(m: Parties<P, S>, c: Script<P, S>, w: World<P, S>, k: nat, j: nat) {
    && k <= |c.asked| && w.up + LeftOf(w.side) == EncodeAll(c.asked[k..])
    && j < |c.phases| && (w.side == Reading(c.phases[j]) || (j == 0 && w.side.Writing?))
    && SaidAt(c, w, j, Said(m, c.start, c.asked[..k]), Aborts(m, c, j))
  }

  ghost predicate SaidAt<P, S>(c: Script<P, S>, w: World<P, S>, j: nat, said: (S, seq<Frame>), aborted: bool) {
    && j <= |said.1| && w.state == said.0
    && |w.pending| <= |EncodeAll(said.1)| && (said.1 == [] ==> w.pending == [])
    && (!aborted ==> w.down + w.pending == EncodeAll(said.1[j..]))
  }

  /** Steps that are still to come. */
  function Rank<P, S>(m: Parties<P, S>, c: Script<P, S>, w: World<P, S>, k: nat, j: nat): int
    requires k <= |c.asked|
  {
    |LeftOf(w.side)| + (if w.side.Writing? then 1 else 0) + (|c.asked| - k) + (|c.phases| - j)
    + (|EncodeAll(c.answers)| - |EncodeAll(Said(m, c.start, c.asked[..k]).1)| + |w.pending|)
  }

  lemma StartsAt<P, S>(m: Parties<P, S>, c: Script<P, S>)
    requires Scripted(m, c)
    ensures At(m, c, Start(c), 0, 0)
  {
    assert c.asked[0..] == c.asked && c.asked[..0] == [];
  }

  lemma OneMoreFrame<P, S>(m: Parties<P, S>, c: Script<P, S>, k: nat)
    requires k < |c.asked|
    ensures var (s, said) := Said(m, c.start, c.asked[..k]);
            var (s', more) := m.answer(s, c.asked[k]);
            Said(m, c.start, c.asked[..k + 1]) == (s', said + more)
  {
    assert c.asked[..k + 1][..k] == c.asked[..k];
  }

  /** What was said so far: nothing, until everything was asked; then all the answers. */
  lemma SaidSoFar<P, S>(m: Parties<P, S>, c: Script<P, S>, k: nat)
    requires Scripted(m, c) && k <= |c.asked|
    ensures var (s, said) := Said(m, c.start, c.asked[..k]);
            && (k < |c.asked| ==> said == [] && m.open(s))
            && (k == |c.asked| ==> said == c.answers && s == Said(m, c.start, c.asked).0)
  {
    assert k < |c.asked| ==> Quiet(m, c, k);
    assert k == |c.asked| ==> c.asked[..k] == c.asked;
  }

  /** What a stream holds first is what was sent first. */
  lemma FirstSent(up: bytes, left: bytes, fs: seq<Frame>)
    requires up + left == EncodeAll(fs) && PyReceive(up).Some? && forall f <- fs :: Sendable(f)
    ensures fs != [] && PyReceive(up).value.0 == fs[0]
    ensures PyReceive(up).value.1 + left == EncodeAll(fs[1..])
    ensures up == Encode(fs[0]) + PyReceive(up).value.1
  {
    var (f, rest) := PyReceive(up).value;
    PyReceiveExact(up, f, rest);
    Assoc(Encode(f), rest, left);
    PyReceiveExact(EncodeAll(fs), f, rest + left);
    if fs != [] {
      assert Sendable(fs[0]);
      PyReceiveExact(EncodeAll(fs), fs[0], EncodeAll(fs[1..]));
    }
  }

  // ---------- every step ----------

  lemma AfterSend<P, S>(m: Parties<P, S>, c: Script<P, S>, w: World<P, S>, next: World<P, S>, k: nat, j: nat)
    requires Scripted(m, c) && At(m, c, w, k, j) && SendStep(w, next, c.phases[0])
    ensures At(m, c, next, k, j) && Rank(m, c, next, k, j) < Rank(m, c, w, k, j)
  {
    if n: nat :| WriteStep(w, next, n) {
      Rejoin(w.up, w.side.left, n);
    }
  }

  lemma Rejoin(up: bytes, left: bytes, n: nat)
    requires n <= |left|
    ensures up + left[..n] + left[n..] == up + left
  {
  }

  lemma AfterSpeak<P, S>(m: Parties<P, S>, c: Script<P, S>, w: World<P, S>, next: World<P, S>, k: nat, j: nat)
    requires Scripted(m, c) && At(m, c, w, k, j) && exists n: nat :: SpeakStep(w, next, n)
    ensures At(m, c, next, k, j) && Rank(m, c, next, k, j) < Rank(m, c, w, k, j)
  {
    var n: nat :| SpeakStep(w, next, n);
    Rejoin(w.down, w.pending, n);
  }

  lemma AfterAnswer<P, S>(m: Parties<P, S>, c: Script<P, S>, w: World<P, S>, next: World<P, S>, k: nat, j: nat)
    requires Scripted(m, c) && At(m, c, w, k, j) && AnswerStep(m, w, next)
    ensures At(m, c, next, k + 1, j) && Rank(m, c, next, k + 1, j) < Rank(m, c, w, k, j)
  {
    assert forall f <- c.asked[k..] :: f in c.asked;
    FirstSent(w.up, LeftOf(w.side), c.asked[k..]);
    assert c.asked[k..][0] == c.asked[k] && c.asked[k..][1..] == c.asked[k + 1..];
    OneMoreFrame(m, c, k);
    var (s, said) := Said(m, c.start, c.asked[..k]);
    SaysMore(said, m.answer(s, c.asked[k]).1, w.down, j);
  }

  lemma SaysMore(said: seq<Frame>, more: seq<Frame>, down: bytes, j: nat)
    requires j <= |said|
    ensures |EncodeAll(said + more)| == |EncodeAll(said)| + |EncodeAll(more)|
    ensures down + [] == EncodeAll(said[j..]) ==> down + EncodeAll(more) == EncodeAll((said + more)[j..])
  {
    EncodeAllAppend(said, more);
    EncodeAllAppend(said[j..], more);
    assert (said + more)[j..] == said[j..] + more;
    PlusNothing(down);
  }

  lemma AfterRead<P, S>(m: Parties<P, S>, c: Script<P, S>, w: World<P, S>, next: World<P, S>, k: nat, j: nat)
    requires Scripted(m, c) && At(m, c, w, k, j) && ReadStep(m, w, next)
    ensures j + 1 < |c.phases| && At(m, c, next, k, j + 1) && Rank(m, c, next, k, j + 1) < Rank(m, c, w, k, j)
  {
    MayRead(m, c, w, next, k, j);
    Read(m, c, w, next, k, j);
  }

  /** A reader that listens with a frame before it takes an answer of the script. */
  lemma MayRead<P, S>(m: Parties<P, S>, c: Script<P, S>, w: World<P, S>, next: World<P, S>, k: nat, j: nat)
    requires Scripted(m, c) && At(m, c, w, k, j) && ReadStep(m, w, next)
    ensures j < |c.answers| && j + 1 < |c.phases| && Takes(m, c, j)
    ensures Said(m, c.start, c.asked[..k]).1 == c.answers && w.down + w.pending == EncodeAll(c.answers[j..])
  {
    SaidSoFar(m, c, k);
    Offered(w.down, w.pending, Said(m, c.start, c.asked[..k]).1, c.answers, j);
    MayTake(m, c, j);
  }

  /** A frame that waits was said. */
  lemma Offered(down: bytes, pending: bytes, said: seq<Frame>, answers: seq<Frame>, j: nat)
    requires (said == [] || said == answers) && j <= |said| && (forall f <- answers :: Sendable(f))
    requires PyReceive(down).Some? && down + pending == EncodeAll(said[j..])
    ensures j < |said| && said == answers
  {
    assert forall f <- said[j..] :: f in answers;
    FirstSent(down, pending, said[j..]);
  }

  lemma MayTake<P, S>(m: Parties<P, S>, c: Script<P, S>, j: nat)
    requires Scripted(m, c) && j < |c.answers| && j < |c.phases| && m.listens(c.phases[j])
    ensures j + 1 < |c.phases| && Takes(m, c, j)
  {
  }

  lemma Read<P, S>(m: Parties<P, S>, c: Script<P, S>, w: World<P, S>, next: World<P, S>, k: nat, j: nat)
    requires At(m, c, w, k, j) && ReadStep(m, w, next) && forall f <- c.answers :: Sendable(f)
    requires j < |c.answers| && j + 1 < |c.phases| && Takes(m, c, j)
    requires Said(m, c.start, c.asked[..k]).1 == c.answers && w.down + w.pending == EncodeAll(c.answers[j..])
    ensures At(m, c, next, k, j + 1) && Rank(m, c, next, k, j + 1) < Rank(m, c, w, k, j)
  {
    var fs := c.answers[j..];
    assert forall f <- fs :: f in c.answers;
    FirstSent(w.down, w.pending, fs);
    assert fs[0] == c.answers[j] && fs[1..] == c.answers[j + 1..];
    assert TakesBefore(m, c, j, PyReceive(w.down).value.1);
  }

  /** Every step leads on to where a run can be, and closer to the end. */
  lemma EveryStep<P, S>(m: Parties<P, S>, c: Script<P, S>, w: World<P, S>, next: World<P, S>, k: nat, j: nat)
    returns (k': nat, j': nat)
    requires Scripted(m, c) && At(m, c, w, k, j) && Step(m, c.phases[0], w, next)
    ensures At(m, c, next, k', j') && Rank(m, c, next, k', j') < Rank(m, c, w, k, j)
  {
    if SendStep(w, next, c.phases[0]) {
      AfterSend(m, c, w, next, k, j);
      return k, j;
    } else if AnswerStep(m, w, next) {
      AfterAnswer(m, c, w, next, k, j);
      return k + 1, j;
    } else if ReadStep(m, w, next) {
      AfterRead(m, c, w, next, k, j);
      return k, j + 1;
    } else {
      AfterSpeak(m, c, w, next, k, j);
      return k, j;
    }
  }

  // ---------- every run ----------

  /** Where a run stands, and that it has not used up the steps there are. */
  lemma {:induction false} EveryRun<P, S>(m: Parties<P, S>, c: Script<P, S>, ws: seq<World<P, S>>)
      returns (k: nat, j: nat)
    requires Scripted(m, c) && IsRun(m, c, ws)
    ensures At(m, c, ws[|ws| - 1], k, j)
    ensures |ws| - 1 + Rank(m, c, ws[|ws| - 1], k, j) <= Rank(m, c, ws[0], 0, 0)
  {
    if |ws| == 1 {
      StartsAt(m, c);
      k, j := 0, 0;
    } else {
      var init, w, next := ws[..|ws| - 1], ws[|ws| - 2], ws[|ws| - 1];
      LastStep(m, c, ws, init);
      k, j := EveryRun(m, c, init);
      k, j := EveryStep(m, c, w, next, k, j);
    }
  }

  lemma LastStep<P, S>(m: Parties<P, S>, c: Script<P, S>, ws: seq<World<P, S>>, init: seq<World<P, S>>)
    requires IsRun(m, c, ws) && |ws| > 1 && init == ws[..|ws| - 1]
    ensures IsRun(m, c, init) && init[0] == ws[0] && init[|init| - 1] == ws[|ws| - 2]
    ensures Step(m, c.phases[0], ws[|ws| - 2], ws[|ws| - 1])
  {
    var n := |ws| - 2;
    assert Step(m, c.phases[0], ws[n], ws[n + 1]);
  }

  /** A stream of at least one frame offers it. */
  lemma FrameWaits(s: bytes, fs: seq<Frame>)
    requires s == EncodeAll(fs) && fs != [] && forall f <- fs :: Sendable(f)
    ensures PyReceive(s).Some?
  {
    assert Sendable(fs[0]);
    PyReceiveExact(s, fs[0], EncodeAll(fs[1..]));
  }

  lemma NoneLeft(fs: seq<Frame>, j: nat)
    requires j <= |fs|
    ensures fs[j..] == [] <==> j == |fs|
  {
  }

  /** Until the final state is reached some step is possible. */
  lemma Progress<P, S>(m: Parties<P, S>, c: Script<P, S>, w: World<P, S>, k: nat, j: nat) returns (next: World<P, S>)
    requires Scripted(m, c) && At(m, c, w, k, j) && !Final(m, c, w)
    ensures Step(m, c.phases[0], w, next)
  {
    SaidSoFar(m, c, k);
    if w.side.Writing? && w.side.left != [] {
      next := w.(side := Writing(w.side.left[1..]), up := w.up + w.side.left[..1]);
      assert WriteStep(w, next, 1);
    } else if w.side.Writing? {
      next := w.(side := Reading(c.phases[0]));
    } else if w.pending != [] {
      next := w.(pending := w.pending[1..], down := w.down + w.pending[..1]);
      assert SpeakStep(w, next, 1);
    } else if k < |c.asked| {
      PlusNothing(w.up);
      next := CanAnswer(m, w, c.asked, k);
    } else {
      PlusNothing(w.up);
      NoneLeft(c.asked, k);
      PlusNothing(w.down);
      NotYetOver(m, c, w, j);
      next := CanRead(m, w, c.answers, j);
    }
  }

  /** Everything is asked and answered: the reader has something to take, or is done. */
  lemma NotYetOver<P, S>(m: Parties<P, S>, c: Script<P, S>, w: World<P, S>, j: nat)
    requires Scripted(m, c) && !Final(m, c, w) && j < |c.phases| && w.side == Reading(c.phases[j])
    requires w.up == [] && w.pending == [] && w.state == Said(m, c.start, c.asked).0
    requires !Aborts(m, c, j) ==> w.down == EncodeAll(c.answers[j..])
    ensures j < |c.answers| && m.listens(c.phases[j]) && w.down == EncodeAll(c.answers[j..])
  {
    NoneLeft(c.answers, if j <= |c.answers| then j else 0);
    assert j < |c.phases| - 1 ==> Takes(m, c, j);
  }

  lemma CanAnswer<P, S>(m: Parties<P, S>, w: World<P, S>, fs: seq<Frame>, k: nat) returns (next: World<P, S>)
    requires (forall f <- fs :: Sendable(f)) && k < |fs| && w.up == EncodeAll(fs[k..]) && m.open(w.state)
    requires w.pending == []
    ensures AnswerStep(m, w, next)
  {
    assert forall f <- fs[k..] :: f in fs;
    FrameWaits(w.up, fs[k..]);
    var (f, rest) := PyReceive(w.up).value;
    var (state, said) := m.answer(w.state, f);
    next := w.(up := rest, state := state, pending := EncodeAll(said));
  }

  lemma CanRead<P, S>(m: Parties<P, S>, w: World<P, S>, fs: seq<Frame>, j: nat) returns (next: World<P, S>)
    requires (forall f <- fs :: Sendable(f)) && j < |fs| && w.down == EncodeAll(fs[j..])
    requires w.side.Reading? && m.listens(w.side.phase)
    ensures ReadStep(m, w, next)
  {
    assert forall f <- fs[j..] :: f in fs;
    FrameWaits(w.down, fs[j..]);
    var (phase, rest) := m.hear(w.side.phase, w.down);
    next := w.(side := Reading(phase), down := rest);
  }

  /** Whatever the order of the steps and the cutting of both parties' writes: a run that cannot go
      on has reached the final state, and no run is longer than a bound known at the start; so every
      run comes to that end. */
  lemma RunCompletes<P(!new), S(!new)>(m: Parties<P, S>, c: Script<P, S>, ws: seq<World<P, S>>)
    requires Scripted(m, c) && IsRun(m, c, ws)
    ensures Stuck(m, c.phases[0], ws[|ws| - 1]) ==> Final(m, c, ws[|ws| - 1])
    ensures |ws| <= 2 + |EncodeAll(c.asked)| + |c.asked| + |c.phases| + |EncodeAll(c.answers)|
  {
    var k, j := EveryRun(m, c, ws);
    RankAtLeast(m, c, ws[|ws| - 1], k, j);
    assert c.asked[..0] == [];
    if !Final(m, c, ws[|ws| - 1]) {
      var next := Progress(m, c, ws[|ws| - 1], k, j);
    }
  }

  lemma RankAtLeast<P, S>(m: Parties<P, S>, c: Script<P, S>, w: World<P, S>, k: nat, j: nat)
    requires Scripted(m, c) && At(m, c, w, k, j)
    ensures Rank(m, c, w, k, j) >= 0
  {
    SaidSoFar(m, c, k);
  }

  /** Safety on the way: the answerer is always in a state that a beginning of the request leads to,
      the reader in a phase of the script. The reader stops only in the last phase, and not before
      everything was asked; and if it is meant to take all answers, only in the final state. */
  lemma RunIsSafe<P, S>(m: Parties<P, S>, c: Script<P, S>, ws: seq<World<P, S>>, i: nat) returns (k: nat)
    requires Scripted(m, c) && IsRun(m, c, ws) && i < |ws|
    ensures k <= |c.asked| && ws[i].state == Said(m, c.start, c.asked[..k]).0
    ensures ws[i].side.Reading? ==> ws[i].side.phase in c.phases
    ensures Stopped(m, ws[i]) ==> ws[i].side.phase == c.phases[|c.phases| - 1] && (|c.phases| > 1 ==> k == |c.asked|)
    ensures Stopped(m, ws[i]) && c.answers != [] && c.drains ==> Final(m, c, ws[i])
  {
    var j;
    k, j := EveryRun(m, c, ws[..i + 1]);
    if Stopped(m, ws[i]) {
      StopsLast(m, c, ws[i], k, j);
      if c.answers != [] && c.drains {
        StopsAtEnd(m, c, ws[i], k);
      }
    }
  }

  predicate Stopped<P, S>(m: Parties<P, S>, w: World<P, S>) {
    w.side.Reading? && !m.listens(w.side.phase)
  }

  lemma StopsLast<P, S>(m: Parties<P, S>, c: Script<P, S>, w: World<P, S>, k: nat, j: nat)
    requires Scripted(m, c) && At(m, c, w, k, j) && Stopped(m, w)
    ensures j == |c.phases| - 1 && w.side.phase == c.phases[j] && (j > 0 ==> k == |c.asked|)
  {
    SaidSoFar(m, c, k);
    assert j < |c.phases| - 1 ==> Takes(m, c, j);
  }

  lemma StopsAtEnd<P, S>(m: Parties<P, S>, c: Script<P, S>, w: World<P, S>, k: nat)
    requires Scripted(m, c) && c.answers != [] && c.drains && w.side.Reading?
    requires At(m, c, w, k, |c.phases| - 1) && k == |c.asked|
    ensures Final(m, c, w)
  {
    SaidSoFar(m, c, k);
    NoneLeft(c.asked, k);
    PlusNothing(w.up);
    NoneLeft(c.answers, |c.answers|);
  }
}
