/** The deadline grid of `cyclictest`: timespec arithmetic and the catch-up loop of its timer thread. */
module Cyclictest {
  import opened Numbers

  const NSEC_PER_SEC: int := 1_000_000_000
  const USEC_PER_SEC: int := 1_000_000

  datatype Timespec = Timespec(sec: int, nsec: int)

  /** The instant in nanoseconds. */
  function Ns(t: Timespec): int {
    t.sec * NSEC_PER_SEC + t.nsec
  }

  predicate Normal(t: Timespec) {
    0 <= t.nsec < NSEC_PER_SEC
  }

  method TsNorm(t: Timespec) returns (r: Timespec)
    ensures Ns(r) == Ns(t)
    ensures t.nsec >= 0 ==> Normal(r)
    ensures t.nsec < NSEC_PER_SEC ==> r == t
  {
    r := t;
    while r.nsec >= NSEC_PER_SEC
      invariant Ns(r) == Ns(t) && (t.nsec >= 0 ==> r.nsec >= 0) && (t.nsec < NSEC_PER_SEC ==> r == t)
      decreases r.nsec
    {
      r := Timespec(r.sec + 1, r.nsec - NSEC_PER_SEC);
    }
  }

  method TsInc(dst: Timespec, delta: Timespec) returns (r: Timespec)
    ensures Ns(r) == Ns(dst) + Ns(delta)
    ensures Normal(dst) && Normal(delta) ==> Normal(r)
  {
    r := TsNorm(Timespec(dst.sec + delta.sec, dst.nsec + delta.nsec));
  }

  function TsGreater(a: Timespec, b: Timespec): bool {
    a.sec > b.sec || (a.sec == b.sec && a.nsec > b.nsec)
  }

  lemma GreaterMeansLater(a: Timespec, b: Timespec)
    requires Normal(a) && Normal(b)
    ensures TsGreater(a, b) <==> Ns(a) > Ns(b)
  {
  }

  /** C division, which rounds towards zero. */
  function CDiv(x: int, d: nat): int
    requires d > 0
  {
    if x >= 0 then x / d else -((-x) / d)
  }

  /** Difference in microseconds, rounded field by field. */
  function TsDelta(a: Timespec, b: Timespec): int {
    USEC_PER_SEC * (a.sec - b.sec) + CDiv(a.nsec - b.nsec, 1000)
  }

  /** It is off by less than a microsecond, and never has the wrong sign. */
  lemma DeltaIsClose(a: Timespec, b: Timespec)
    requires Normal(a) && Normal(b)
    ensures -1000 < 1000 * TsDelta(a, b) - (Ns(a) - Ns(b)) < 1000
    ensures Ns(a) >= Ns(b) ==> TsDelta(a, b) >= 0
    ensures Ns(a) <= Ns(b) ==> TsDelta(a, b) <= 0
  {
  }

  /** The interval in microseconds as a timespec. */
  function Interval(usec: nat): (r: Timespec)
    ensures Normal(r) && Ns(r) == usec * 1000
  {
    Timespec(usec / USEC_PER_SEC, usec % USEC_PER_SEC * 1000)
  }

  /** The instant `j` intervals after `a`. */
  function Grid(a: int, step: int, j: nat): int {
    a + j * step
  }

  /** `z` is a whole number of intervals after `a`. */
  ghost predicate OnGrid(a: int, step: int, z: int) {
    exists j: nat :: z == Grid(a, step, j)
  }

  /** `z` is the first instant of the grid, after `prev`, that is not before `now`. */
  ghost predicate IsNext(prev: int, now: int, step: int, z: int) {
    && OnGrid(prev, step, z) && z > prev && z >= now
    && forall j: nat :: j >= 1 && Grid(prev, step, j) >= now ==> z <= Grid(prev, step, j)
  }

  lemma FirstOnGrid(prev: int, now: int, step: nat, k: nat)
    requires step > 0 && k >= 1 && Grid(prev, step, k) >= now
    requires k > 1 ==> Grid(prev, step, k) - step < now
    ensures IsNext(prev, now, step, Grid(prev, step, k))
  {
    var z := Grid(prev, step, k);
    MulMono(1, k, step);
    forall j: nat | j >= 1 && Grid(prev, step, j) >= now
      ensures z <= Grid(prev, step, j)
    {
      if j < k {
        MulMono(j, k - 1, step);
        MulDistr(k - 1, 1, step);
      } else {
        MulMono(k, j, step);
      }
    }
  }

  /** The deadline after `next` in a round that read the clock as `now`. */
  method Advance(next: Timespec, now: Timespec, interval: Timespec) returns (r: Timespec)
    requires Normal(next) && Normal(now) && Normal(interval) && Ns(interval) > 0
    ensures Normal(r) && IsNext(Ns(next), Ns(now), Ns(interval), Ns(r))
  {
    r := TsInc(next, interval);
    ghost var k: nat := 1;
    ghost var a, d, limit := Ns(next), Ns(interval), Ns(now);
    GreaterMeansLater(now, r);
    while TsGreater(now, r)
      invariant Normal(r) && k >= 1 && Ns(r) == a + k * d
      invariant k > 1 ==> Ns(r) - d < limit
      invariant TsGreater(now, r) <==> limit > Ns(r)
      decreases limit - Ns(r)
    {
      r := TsInc(r, interval);
      MulDistr(k, 1, d);
      k := k + 1;
      GreaterMeansLater(now, r);
    }
    FirstOnGrid(a, limit, d, k);
  }

  datatype ThreadStat = ThreadStat(min: int, max: int, act: int, sum: int, cycles: nat)

  /** Every round's deadline follows from the one before it and the clock reading between them. */
  ghost predicate Schedule(step: int, clock: seq<Timespec>, deadlines: seq<Timespec>)
    requires |deadlines| == |clock| + 1
  {
    forall i :: 0 <= i < |clock| ==> IsNext(Ns(deadlines[i]), Ns(clock[i]), step, Ns(deadlines[i + 1]))
  }

  /**
   The timer thread in absolute mode, woken once for each reading of `clock`. `deadlines` are the
   values `next` takes, one before each round and one after the last. The statistics are those of the
   lateness of each round against its own deadline.
   */
  method TimerThread(start: Timespec, usec: nat, clock: seq<Timespec>, min0: int, max0: int)
    returns (deadlines: seq<Timespec>, stat: ThreadStat)
    requires Normal(start) && usec > 0
    requires forall i :: 0 <= i < |clock| ==> Normal(clock[i])
    ensures |deadlines| == |clock| + 1 && Ns(deadlines[0]) == Ns(start) + usec * 1000
    ensures forall i :: 0 <= i < |deadlines| ==> Normal(deadlines[i])
    ensures Schedule(usec * 1000, clock, deadlines)
    ensures IsStat(stat, Lateness(clock, deadlines), min0, max0)
  {
    var interval := Interval(usec);
    var next := TsInc(start, interval);
    deadlines, stat := [next], ThreadStat(min0, max0, 0, 0, 0);
    for i := 0 to |clock|
      invariant |deadlines| == i + 1 && deadlines[i] == next
      invariant Ns(deadlines[0]) == Ns(start) + usec * 1000
      invariant forall j :: 0 <= j <= i ==> Normal(deadlines[j])
      invariant Schedule(usec * 1000, clock[..i], deadlines)
      invariant IsStat(stat, Lateness(clock[..i], deadlines), min0, max0)
    {
      var now := clock[i];
      var diff := TsDelta(now, next);
      NoteKeeps(stat, Lateness(clock[..i], deadlines), min0, max0, diff);
      stat := Note(stat, diff);
      next := Advance(next, now, interval);
      assert Lateness(clock[..i + 1], deadlines + [next]) == Lateness(clock[..i], deadlines) + [diff];
      deadlines := deadlines + [next];
    }
    assert clock[..|clock|] == clock;
  }

  ghost function Lateness(clock: seq<Timespec>, deadlines: seq<Timespec>): seq<int>
    requires |clock| < |deadlines|
  {
    seq(|clock|, i requires 0 <= i < |clock| => TsDelta(clock[i], deadlines[i]))
  }

  /** Minimum, maximum, last, sum and number of `late`, the first two starting from given values. */
  ghost predicate IsStat(s: ThreadStat, late: seq<int>, min0: int, max0: int) {
    && s.cycles == |late| && s.sum == Sum(late) && (late != [] ==> s.act == late[|late| - 1])
    && s.min <= min0 && s.max >= max0
    && (forall i :: 0 <= i < |late| ==> s.min <= late[i] <= s.max)
    && (s.min == min0 || s.min in late) && (s.max == max0 || s.max in late)
  }

  lemma NoteKeeps(s: ThreadStat, late: seq<int>, min0: int, max0: int, diff: int)
    requires IsStat(s, late, min0, max0)
    ensures IsStat(Note(s, diff), late + [diff], min0, max0)
  {
    assert (late + [diff])[..|late|] == late && (late + [diff])[|late|] == diff;
    assert forall x :: x in late ==> x in late + [diff];
  }

  /** Whatever the clock readings, all deadlines lie on one grid and rise strictly. */
  lemma {:induction false} DeadlinesOnOneGrid(step: nat, clock: seq<Timespec>, deadlines: seq<Timespec>)
    requires |deadlines| == |clock| + 1 && Schedule(step, clock, deadlines)
    ensures OnGrid(Ns(deadlines[0]), step, Ns(deadlines[|clock|]))
    ensures Ns(deadlines[0]) + |clock| <= Ns(deadlines[|clock|])
  {
    var n := |clock|;
    var a := Ns(deadlines[0]);
    if n == 0 {
      assert a == Grid(a, step, 0);
    } else {
      DeadlinesOnOneGrid(step, clock[..n - 1], deadlines[..n]);
      assert IsNext(Ns(deadlines[n - 1]), Ns(clock[n - 1]), step, Ns(deadlines[n]));
      var i: nat :| Ns(deadlines[n - 1]) == Grid(a, step, i);
      var j: nat :| Ns(deadlines[n]) == Grid(Ns(deadlines[n - 1]), step, j);
      MulDistr(i, j, step);
      assert Ns(deadlines[n]) == Grid(a, step, i + j);
    }
  }

  function Note(s: ThreadStat, diff: int): ThreadStat {
    ThreadStat(if diff < s.min then diff else s.min, if diff > s.max then diff else s.max,
               diff, s.sum + diff, s.cycles + 1)
  }

  function Sum(xs: seq<int>): int {
    if xs == [] then 0 else Sum(xs[..|xs| - 1]) + xs[|xs| - 1]
  }
}
