/** The 32-bit millisecond clock and the timing of a turn. */
module Timing {
  import opened Bytes

  /** The reading made of seconds and nanoseconds: the seconds narrowed to 32 bits, then 32-bit
      arithmetic. */
  function Reading(sec: nat, nsec: nat): nat {
    (sec % TWO32 * 1000 % TWO32 + nsec / 1000000) % TWO32
  }

  /** Nothing is lost but the high bits: the reading is the true millisecond count modulo 2^32. */
  lemma ReadingIsMillis(sec: nat, nsec: nat)
    ensures Reading(sec, nsec) == (sec * 1000 + nsec / 1000000) % TWO32
  {
    var q := sec / TWO32;
    var a, b := sec % TWO32 * 1000, nsec / 1000000;
    assert sec * 1000 + b == q * 1000 * TWO32 + (a + b);
    SameRemainder(a + b, q * 1000, TWO32);
    SameRemainder(a % TWO32 + b, a / TWO32, TWO32);
    assert a + b == a / TWO32 * TWO32 + (a % TWO32 + b);
  }

  lemma SameRemainder(a: int, k: int, m: int)
    requires m > 0
    ensures (k * m + a) % m == a % m
  {
    assert a == a / m * m + a % m;
    assert k * m + a == (k + a / m) * m + a % m;
    DivModUnique(k * m + a, m, k + a / m, a % m);
  }

  /** Unsigned 32-bit difference. */
  function Minus32(a: int, b: int): nat { (a - b) % TWO32 }

  /** A difference of two readings is the true time between them, modulo 2^32, also when the clock
      wrapped round in between. */
  lemma DeltaSurvivesWrap(t0: nat, t1: nat)
    requires t0 <= t1
    ensures Minus32(t1 % TWO32, t0 % TWO32) == (t1 - t0) % TWO32
    ensures t1 - t0 < TWO32 ==> Minus32(t1 % TWO32, t0 % TWO32) == t1 - t0
  {
    assert t1 - t0 == (t1 / TWO32 - t0 / TWO32) * TWO32 + (t1 % TWO32 - t0 % TWO32);
    SameRemainder(t1 % TWO32 - t0 % TWO32, t1 / TWO32 - t0 / TWO32, TWO32);
  }

  /** A well-formed time no earlier than another. */
  predicate NotBefore(sec: nat, nsec: nat, sec0: nat, nsec0: nat) {
    nsec < 1_000_000_000 && (sec > sec0 || (sec == sec0 && nsec >= nsec0))
  }

  lemma Later(sec: nat, nsec: nat, sec0: nat, nsec0: nat)
    requires NotBefore(sec, nsec, sec0, nsec0) && nsec0 < 1_000_000_000
    ensures sec * 1000 + nsec / 1000000 >= sec0 * 1000 + nsec0 / 1000000
  {
    assert nsec0 / 1000000 < 1000;
  }

  /** The monotonic clock: it never runs backwards and may stand still. */
  class Clock {
    var sec: nat
    var nsec: nat

    ghost predicate Valid()
      reads this
    {
      nsec < 1_000_000_000
    }

    /** The true time in milliseconds. */
    function Millis(): nat
      reads this
    {
      sec * 1000 + nsec / 1000000
    }

    constructor ()
      ensures Valid()
    {
      sec, nsec := 0, 0;
    }

    method Now() returns (t: nat)
      requires Valid()
      modifies this
      ensures Valid() && Millis() >= old(Millis()) && t == Millis() % TWO32
    {
      assert NotBefore(sec, nsec, sec, nsec);
      var s: nat, n: nat :| NotBefore(s, n, sec, nsec);
      Later(s, n, sec, nsec);
      sec, nsec := s, n;
      t := Reading(sec, nsec);
      ReadingIsMillis(sec, nsec);
    }
  }

  /** Per-stage timing and sizes of one turn. */
  class Metrics {
    var capture: nat
    var upload: nat
    var response: nat
    var total: nat
    var imageBytes: nat
    var responseBytes: nat

    constructor ()
    {
      capture, upload, response, total, imageBytes, responseBytes := 0, 0, 0, 0, 0, 0;
    }

    method Clear()
      modifies this
      ensures capture == upload == response == total == imageBytes == responseBytes == 0
    {
      capture, upload, response, total, imageBytes, responseBytes := 0, 0, 0, 0, 0, 0;
    }

    /** Close out a turn that reached its end. */
    method Finalize(clock: Clock, start: nat, uploaded: nat)
      requires clock.Valid()
      modifies this`response, this`total, clock
      ensures clock.Valid() && clock.Millis() >= old(clock.Millis())
      ensures response == Minus32(clock.Millis() % TWO32, uploaded)
      ensures total == Minus32(clock.Millis() % TWO32, start)
    {
      var now := clock.Now();
      response := Minus32(now, uploaded);
      total := Minus32(now, start);
    }
  }

  /** The true times at which a turn started, had its picture, had sent it, and ended. */
  datatype Times = Times(start: nat, captured: nat, uploaded: nat, end: nat)

  /** The metrics of a finished turn tell its true stage times, modulo 2^32. */
  ghost predicate Timed(m: Metrics, ts: Times)
    reads m
  {
    && ts.start <= ts.captured <= ts.uploaded <= ts.end
    && m.capture == (ts.captured - ts.start) % TWO32
    && m.upload == (ts.uploaded - ts.captured) % TWO32
    && m.response == (ts.end - ts.uploaded) % TWO32
    && m.total == (ts.end - ts.start) % TWO32
  }

  /** The stages after the capture, as unsigned differences of the clock's readings at the start, at
      the capture, when the upload was done and at the end. */
  ghost predicate Recorded(m: Metrics, start: nat, shot: nat, uploaded: nat, end: nat)
    reads m
  {
    m.upload == Minus32(uploaded, shot) && m.response == Minus32(end, uploaded) && m.total == Minus32(end, start)
  }

  /** Unsigned differences of the readings are what `Timed` asks for. */
  lemma RecordedIsTimed(m: Metrics, ts: Times)
    requires ts.start <= ts.captured <= ts.uploaded <= ts.end
    requires m.capture == Minus32(ts.captured % TWO32, ts.start % TWO32)
    ensures Recorded(m, ts.start % TWO32, ts.captured % TWO32, ts.uploaded % TWO32, ts.end % TWO32) ==> Timed(m, ts)
  {
    DeltaSurvivesWrap(ts.start, ts.captured);
    DeltaSurvivesWrap(ts.captured, ts.uploaded);
    DeltaSurvivesWrap(ts.uploaded, ts.end);
    DeltaSurvivesWrap(ts.start, ts.end);
  }

  /** The three stages make up the whole: in 32-bit arithmetic always, and in plain arithmetic
      whenever the turn took less than 2^32 milliseconds. */
  lemma StagesAddUp(m: Metrics, ts: Times)
    requires Timed(m, ts)
    ensures m.total == (m.capture + m.upload + m.response) % TWO32
    ensures ts.end - ts.start < TWO32 ==> m.total == m.capture + m.upload + m.response == ts.end - ts.start
  {
    SumOfRemainders(ts.captured - ts.start, ts.uploaded - ts.captured, ts.end - ts.uploaded);
  }

  lemma SumOfRemainders(a: nat, b: nat, c: nat)
    ensures (a + b + c) % TWO32 == (a % TWO32 + b % TWO32 + c % TWO32) % TWO32
    ensures a + b + c < TWO32 ==> a % TWO32 == a && b % TWO32 == b && c % TWO32 == c && (a + b + c) % TWO32 == a + b + c
  {
    var r := a % TWO32 + b % TWO32 + c % TWO32;
    assert a + b + c == (a / TWO32 + b / TWO32 + c / TWO32) * TWO32 + r;
    SameRemainder(r, a / TWO32 + b / TWO32 + c / TWO32, TWO32);
  }
}
