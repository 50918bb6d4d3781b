/**
 Runs of the pipe system with all their states, and the streams along them: what reads return makes up
 what is delivered, and the writes of a pipe, one after another, make up what is accepted.
 */
module PipeTrace {
  import opened Basics
  import opened PipeSystem
  import opened PipeFlow
  import Iovec

  ghost predicate Step(s: Sys, a: Action, z: Sys) {
    Can(s, a) && z == Do(s, a)
  }

  /** `ss` are the states along `run`. */
  ghost predicate Trace(ss: seq<Sys>, run: seq<Action>) {
    |ss| == |run| + 1 && forall i :: 0 <= i < |run| ==> StepAt(ss, run, i)
  }

  ghost predicate StepAt(ss: seq<Sys>, run: seq<Action>, i: nat)
    requires i < |run| && i + 1 < |ss|
  {
    Step(ss[i], run[i], ss[i + 1])
  }

  /** Every run has one. */
  lemma {:induction false} TraceOfRun(s: Sys, run: seq<Action>) returns (ss: seq<Sys>)
    requires Run(s, run).Some?
    ensures Trace(ss, run) && ss[0] == s && ss[|run|] == Run(s, run).value
  {
    if run == [] {
      ss := [s];
    } else {
      var n := |run| - 1;
      var front := TraceOfRun(s, run[..n]);
      ss := front + [Run(s, run).value];
      TraceSnoc(front, run[..n], run[n], Run(s, run).value);
      assert run[..n] + [run[n]] == run;
    }
  }

  lemma TraceSnoc(ss: seq<Sys>, run: seq<Action>, a: Action, z: Sys)
    requires Trace(ss, run) && Step(ss[|run|], a, z)
    ensures Trace(ss + [z], run + [a])
  {
    forall i | 0 <= i <= |run|
      ensures StepAt(ss + [z], run + [a], i)
    {
      assert i < |run| ==> StepAt(ss, run, i);
    }
  }

  lemma {:induction false} TraceInv(ss: seq<Sys>, run: seq<Action>, i: nat)
    requires Trace(ss, run) && Inv(ss[0]) && i <= |run|
    ensures Inv(ss[i])
  {
    if i > 0 {
      TraceInv(ss, run, i - 1);
      assert StepAt(ss, run, i - 1);
      StepKeepsInv(ss[i - 1], run[i - 1]);
    }
  }

  // ---- The two ends of a stream; a pipe that is not made yet has an empty one ----

  ghost function AcceptedOf(s: Sys, p: nat): seq<byte> {
    if p < |s.pipes| then Bytes(s.pipes[p].accepted) else []
  }

  ghost function DeliveredOf(s: Sys, p: nat): seq<byte> {
    if p < |s.pipes| then s.pipes[p].delivered else []
  }

  /** The pipe on which thread `t` reads or writes. */
  ghost predicate On(s: Sys, t: nat, p: nat) {
    && t < |s.threads| && (s.threads[t].call.Reading? || s.threads[t].call.Writing?)
    && s.threads[t].call.obj in s.heap.files
    && s.heap.files[s.threads[t].call.obj].value == PipeEnd(p, s.threads[t].call.Reading?)
  }

  ghost predicate ReadsFrom(s: Sys, a: Action, p: nat) { a.ReadSection? && On(s, a.t, p) }

  ghost predicate WritesTo(s: Sys, a: Action, p: nat) { a.WriteSection? && On(s, a.t, p) }

  /** What a read pass on `p` returned, if it did. */
  ghost function ChunkRead(s: Sys, a: Action, p: nat): seq<byte>
    requires Can(s, a)
  {
    if !ReadsFrom(s, a, p) then [] else
    match DoReadSection(s, a.t).threads[a.t].call
    case Leaving(_, Got(chunk)) => chunk
    case _ => []
  }

  lemma ReadStep(s: Sys, t: nat, p: nat)
    requires Can(s, ReadSection(t))
    ensures DeliveredOf(DoReadSection(s, t), p) == DeliveredOf(s, p) + ChunkRead(s, ReadSection(t), p)
  {
  }

  lemma OtherDelivered(s: Sys, a: Action, p: nat)
    requires Can(s, a) && !a.ReadSection?
    ensures DeliveredOf(Do(s, a), p) == DeliveredOf(s, p)
  {
    if a.WriteSection? {
      var q := s.heap.files[s.threads[a.t].call.obj].value.pipe;
      assert q < |s.pipes|;
    }
  }

  lemma DeliveredStep(s: Sys, a: Action, p: nat)
    requires Can(s, a)
    ensures DeliveredOf(Do(s, a), p) == DeliveredOf(s, p) + ChunkRead(s, a, p)
  {
    if a.ReadSection? {
      ReadStep(s, a.t, p);
    } else {
      OtherDelivered(s, a, p);
    }
  }

  /** What the reads on `p` returned in the first `n` steps, one after another. */
  ghost function ChunksRead(ss: seq<Sys>, run: seq<Action>, p: nat, n: nat): seq<byte>
    requires Trace(ss, run) && n <= |run|
  {
    if n == 0 then [] else
    assert StepAt(ss, run, n - 1);
    ChunksRead(ss, run, p, n - 1) + ChunkRead(ss[n - 1], run[n - 1], p)
  }

  /** Over every run, what the reads on a pipe return, in order, is what is delivered: nothing else is. */
  lemma {:induction false} ReadsMakeTheStream(ss: seq<Sys>, run: seq<Action>, p: nat, n: nat)
    requires Trace(ss, run) && n <= |run|
    ensures DeliveredOf(ss[n], p) == DeliveredOf(ss[0], p) + ChunksRead(ss, run, p, n)
  {
    if n > 0 {
      ReadsMakeTheStream(ss, run, p, n - 1);
      assert StepAt(ss, run, n - 1);
      DeliveredStep(ss[n - 1], run[n - 1], p);
      Regroup(DeliveredOf(ss[0], p), ChunksRead(ss, run, p, n - 1), ChunkRead(ss[n - 1], run[n - 1], p));
    }
  }

  // ---- What is accepted ----

  /** The bytes a write pass on `p` puts into the ring. */
  ghost function ChunkWritten(s: Sys, a: Action, p: nat): seq<byte>
    requires Can(s, a)
  {
    if !WritesTo(s, a, p) then [] else
    var w := s.writes[s.threads[a.t].call.id];
    var n := Min(s.heap.bufs[p].value.AvailableWrite(), |w.data| - w.placed);
    w.data[w.placed..w.placed + n]
  }

  lemma WriteStep(s: Sys, t: nat, p: nat)
    requires Can(s, WriteSection(t))
    ensures AcceptedOf(DoWriteSection(s, t), p) == AcceptedOf(s, p) + ChunkWritten(s, WriteSection(t), p)
  {
    var c := s.threads[t].call;
    var q := s.heap.files[c.obj].value.pipe;
    if q == p {
      var chunk := ChunkWritten(s, WriteSection(t), p);
      assert On(s, t, p);
      BytesTag(s.pipes[p].accepted, c.id, chunk);
      assert DoWriteSection(s, t).pipes[p].accepted == s.pipes[p].accepted + Tag(c.id, chunk);
    } else {
      assert p < |s.pipes| ==> DoWriteSection(s, t).pipes[p] == s.pipes[p];
    }
  }

  lemma OtherAccepted(s: Sys, a: Action, p: nat)
    requires Can(s, a) && !a.WriteSection?
    ensures AcceptedOf(Do(s, a), p) == AcceptedOf(s, p)
  {
    if a.ReadSection? {
      var q := s.heap.files[s.threads[a.t].call.obj].value.pipe;
      assert q < |s.pipes|;
    }
  }

  lemma AcceptedStep(s: Sys, a: Action, p: nat)
    requires Can(s, a)
    ensures AcceptedOf(Do(s, a), p) == AcceptedOf(s, p) + ChunkWritten(s, a, p)
  {
    if a.WriteSection? {
      WriteStep(s, a.t, p);
    } else {
      OtherAccepted(s, a, p);
    }
  }

  // ---- One write after another ----

  /** What the write calls have placed on `p`, in the order of the calls. */
  ghost function Parts(writes: seq<Write>, p: nat): seq<seq<byte>> {
    seq(|writes|, i requires 0 <= i < |writes| => Part(writes[i], p))
  }

  ghost function Part(w: Write, p: nat): seq<byte> {
    if w.pipe == p && w.placed <= |w.data| then w.data[..w.placed] else []
  }

  ghost predicate AllFinished(s: Sys, p: nat, n: nat) {
    forall id :: 0 <= id < n && id < |s.writes| && s.writes[id].pipe == p ==> s.writes[id].result.Some?
  }

  /** A write call on `p` begins with this step. */
  ghost predicate Begins(s: Sys, a: Action, p: nat)
    requires Can(s, a)
  {
    |s.writes| < |Do(s, a).writes| && Do(s, a).writes[|s.writes|].pipe == p
  }

  /** If a write call on `p` begins with this step, those before it have finished. */
  ghost predicate BeginsAlone(s: Sys, a: Action, p: nat) {
    Can(s, a) && Begins(s, a, p) ==> AllFinished(s, p, |s.writes|)
  }

  ghost predicate BeginsAloneAt(ss: seq<Sys>, run: seq<Action>, p: nat, i: nat)
    requires i < |run| && i < |ss|
  {
    BeginsAlone(ss[i], run[i], p)
  }

  /** The writes on `p` so far come one after another in its stream, and only the last may be unfinished. */
  ghost predicate OneByOne(s: Sys, p: nat) {
    && AcceptedOf(s, p) == Iovec.Concat(Parts(s.writes, p))
    && forall id :: 0 <= id < |s.writes| && s.writes[id].pipe == p ==> AllFinished(s, p, id)
  }

  lemma WriteOneByOne(s: Sys, t: nat, p: nat)
    requires Inv(s) && Can(s, WriteSection(t)) && OneByOne(s, p)
    ensures OneByOne(DoWriteSection(s, t), p)
  {
    var z, id := DoWriteSection(s, t), s.threads[t].call.id;
    WriteStep(s, t, p);
    SectionWrites(s, t);
    assert CallOk(s, t);
    if s.writes[id].pipe == p {
      assert On(s, t, p);
      PartGrows(s, t, p);
    }
    LastGrows(s, z, p, id, ChunkWritten(s, WriteSection(t), p));
  }

  lemma SectionWrites(s: Sys, t: nat)
    requires Can(s, WriteSection(t))
    ensures var z, id := DoWriteSection(s, t), s.threads[t].call.id;
            && |z.writes| == |s.writes| && z.writes[id].pipe == s.writes[id].pipe
            && forall j :: 0 <= j < |s.writes| && j != id ==> z.writes[j] == s.writes[j]
  {
  }

  lemma LastGrows(s: Sys, z: Sys, p: nat, id: nat, chunk: seq<byte>)
    requires OneByOne(s, p) && id < |s.writes| == |z.writes| && s.writes[id].result.None?
    requires forall j :: 0 <= j < |s.writes| && j != id ==> z.writes[j] == s.writes[j]
    requires z.writes[id].pipe == s.writes[id].pipe && AcceptedOf(z, p) == AcceptedOf(s, p) + chunk
    requires if s.writes[id].pipe == p then Part(z.writes[id], p) == Part(s.writes[id], p) + chunk else chunk == []
    ensures OneByOne(z, p)
  {
    var v, w := Parts(s.writes, p), Parts(z.writes, p);
    forall j | 0 <= j < |z.writes| && z.writes[j].pipe == p
      ensures AllFinished(z, p, j)
    {
      assert AllFinished(s, p, j);
    }
    if s.writes[id].pipe == p {
      forall j | id < j < |v|
        ensures v[j] == []
      {
        assert !AllFinished(s, p, j);
      }
      assert w == v[id := v[id] + chunk];
      Iovec.ConcatGrows(v, id, chunk);
    } else {
      assert w == v;
    }
  }

  lemma PartGrows(s: Sys, t: nat, p: nat)
    requires Can(s, WriteSection(t)) && On(s, t, p) && s.writes[s.threads[t].call.id].pipe == p
    ensures var id := s.threads[t].call.id;
            Part(DoWriteSection(s, t).writes[id], p)
            == Part(s.writes[id], p) + ChunkWritten(s, WriteSection(t), p)
  {
    var w := s.writes[s.threads[t].call.id];
    var n := Min(s.heap.bufs[p].value.AvailableWrite(), |w.data| - w.placed);
    assert w.data[..w.placed] + w.data[w.placed..w.placed + n] == w.data[..w.placed + n];
  }

  lemma OtherOneByOne(s: Sys, a: Action, p: nat)
    requires Inv(s) && Can(s, a) && !a.WriteSection? && OneByOne(s, p)
    requires BeginsAlone(s, a, p)
    ensures OneByOne(Do(s, a), p)
  {
    var z := Do(s, a);
    OtherAccepted(s, a, p);
    WritesKept(s, a);
    WritesJoined(s, z, p);
  }

  lemma WritesJoined(s: Sys, z: Sys, p: nat)
    requires OneByOne(s, p) && s.writes <= z.writes && |z.writes| <= |s.writes| + 1
    requires |z.writes| > |s.writes| ==> z.writes[|s.writes|].placed == 0
    requires |z.writes| > |s.writes| && z.writes[|s.writes|].pipe == p ==> AllFinished(s, p, |s.writes|)
    requires AcceptedOf(z, p) == AcceptedOf(s, p)
    ensures OneByOne(z, p)
  {
    PartsKept(s.writes, z.writes, p);
    forall id | 0 <= id < |z.writes| && z.writes[id].pipe == p
      ensures AllFinished(z, p, id)
    {
      assert id < |s.writes| ==> AllFinished(s, p, id);
    }
  }

  lemma PartsKept(v: seq<Write>, w: seq<Write>, p: nat)
    requires v <= w && |w| <= |v| + 1 && (|w| > |v| ==> w[|v|].placed == 0)
    ensures Iovec.Concat(Parts(w, p)) == Iovec.Concat(Parts(v, p))
  {
    if |w| == |v| {
      assert w == v;
    } else {
      assert Parts(w, p) == Parts(v, p) + [[]];
      Iovec.ConcatSnoc(Parts(v, p), []);
    }
  }

  lemma WritesKept(s: Sys, a: Action)
    requires Can(s, a) && !a.WriteSection?
    ensures s.writes <= Do(s, a).writes && |Do(s, a).writes| <= |s.writes| + 1
    ensures |Do(s, a).writes| > |s.writes| ==> Do(s, a).writes[|s.writes|].placed == 0
  {
  }

  lemma OneByOneStep(s: Sys, a: Action, z: Sys, p: nat)
    ensures Inv(s) && Step(s, a, z) && BeginsAlone(s, a, p) && OneByOne(s, p) ==> OneByOne(z, p)
  {
    if Inv(s) && Step(s, a, z) && BeginsAlone(s, a, p) && OneByOne(s, p) {
      if a.WriteSection? {
        WriteOneByOne(s, a.t, p);
      } else {
        OtherOneByOne(s, a, p);
      }
    }
  }

  lemma OneByOneNext(ss: seq<Sys>, run: seq<Action>, p: nat, i: nat)
    requires Trace(ss, run) && Inv(ss[0]) && i < |run| && BeginsAloneAt(ss, run, p, i)
    ensures OneByOne(ss[i], p) ==> OneByOne(ss[i + 1], p)
  {
    TraceInv(ss, run, i);
    assert StepAt(ss, run, i);
    OneByOneStep(ss[i], run[i], ss[i + 1], p);
  }

  /**
   If every write on a pipe begins after those before it have finished, what the pipe accepts is what the
   write calls placed, call after call, in the order in which they began.
   */
  lemma {:induction false} SequentialWritesJoin(ss: seq<Sys>, run: seq<Action>, p: nat, n: nat)
    requires Trace(ss, run) && Inv(ss[0]) && OneByOne(ss[0], p) && n <= |run|
    requires forall i :: 0 <= i < n ==> BeginsAloneAt(ss, run, p, i)
    ensures OneByOne(ss[n], p)
  {
    if n > 0 {
      SequentialWritesJoin(ss, run, p, n - 1);
      assert BeginsAloneAt(ss, run, p, n - 1);
      OneByOneNext(ss, run, p, n - 1);
    }
  }

  /** So from the start of the system, for every pipe made on the way. */
  lemma SequentialFromStart(ss: seq<Sys>, run: seq<Action>, p: nat)
    requires Trace(ss, run) && Init(ss[0])
    requires forall i :: 0 <= i < |run| ==> BeginsAloneAt(ss, run, p, i)
    ensures AcceptedOf(ss[|run|], p) == Iovec.Concat(Parts(ss[|run|].writes, p))
  {
    InitIsInv(ss[0]);
    SequentialWritesJoin(ss, run, p, |run|);
  }
}
