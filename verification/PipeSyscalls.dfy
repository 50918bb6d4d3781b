/**
 What the system calls on descriptors and pipes do, told by descriptor numbers, bytes and references: each
 step's outcome in every case, and whole calls that nobody disturbs.
 */
module PipeSyscalls {
  import opened Basics
  import opened RefCount
  import opened PipeRing
  import opened FdTable
  import opened PipeSystem
  import opened PipeHeap
  import opened PipeCounts
  import opened PipeFlow
  import opened PipeTheorems
  import opened PipeTrace
  import opened PipeCalls
  import opened PipeCreation

  /** Nothing but the call of thread `t` and its reference to the file has changed. */
  ghost predicate OnlyEntered(s: Sys, z: Sys, t: nat) {
    && z.tables == s.tables && z.pipes == s.pipes && z.writes == s.writes && z.heap.bufs == s.heap.bufs
    && z.heap.files.Keys == s.heap.files.Keys && |z.threads| == |s.threads|
    && (forall o :: o in s.heap.files ==> z.heap.files[o].value == s.heap.files[o].value)
    && (forall u :: 0 <= u < |s.threads| && u != t ==> z.threads[u] == s.threads[u])
  }

  // ---- Entering read and write ----

  /** A number that names nothing is EBADF, the wrong end EPERM; none wanted gives none; else the loop is entered. */
  lemma ReadEnterOutcome(s: Sys, t: nat, fd: int, want: nat)
    requires Inv(s) && Can(s, ReadEnter(t, fd, want))
    ensures var o := Lookup(TableOf(s, t), fd);
            var z := Do(s, ReadEnter(t, fd, want));
            && OnlyEntered(s, z, t)
            && (o.None? ==> z.threads[t].call == Idle(Failed(EBADF)))
            && (o.Some? ==>
                  && o.value in s.heap.files && s.heap.files[o.value].value.PipeEnd?
                  && (if EndOf(s, o.value, s.heap.files[o.value].value.pipe, false) then
                        z.threads[t].call == Leaving(o.value, Failed(EPERM))
                      else if want == 0 then z.threads[t].call == Leaving(o.value, Got([]))
                      else z.threads[t].call == Reading(o.value, want)))
  {
  }

  lemma WriteEnterOutcome(s: Sys, t: nat, fd: int, data: seq<byte>)
    requires Inv(s) && Can(s, WriteEnter(t, fd, data))
    ensures var o := Lookup(TableOf(s, t), fd);
            var z := Do(s, WriteEnter(t, fd, data));
            && OnlyEntered(s, z, t)
            && (o.None? ==> z.threads[t].call == Idle(Failed(EBADF)))
            && (o.Some? ==>
                  && o.value in s.heap.files && s.heap.files[o.value].value.PipeEnd?
                  && (if EndOf(s, o.value, s.heap.files[o.value].value.pipe, true) then
                        z.threads[t].call == Leaving(o.value, Failed(EPERM))
                      else z.threads[t].call == WriteEntered(o.value, data)))
  {
  }

  /**
   The check before the loop: EPIPE if and only if nothing refers to the read end. Otherwise nothing to
   write is done at once, and anything else enters the loop as a new write of exactly that data.
   */
  lemma WriteCheckOutcome(s: Sys, t: nat)
    requires Inv(s) && Can(s, WriteCheck(t))
    ensures var c := s.threads[t].call;
            var p := s.heap.files[c.obj].value.pipe;
            var z := Do(s, WriteCheck(t));
            && p < |s.pipes| && z.tables == s.tables && z.heap == s.heap && z.pipes == s.pipes
            && |z.threads| == |s.threads|
            && (z.threads[t].call == Leaving(c.obj, Failed(EPIPE)) <==> NoReference(s, s.pipes[p].r))
            && (!NoReference(s, s.pipes[p].r) && c.data == [] ==>
                  z.threads[t].call == Leaving(c.obj, Wrote(0)) && z.writes == s.writes)
            && (!NoReference(s, s.pipes[p].r) && c.data != [] ==>
                  && z.threads[t].call == Writing(c.obj, |s.writes|)
                  && z.writes == s.writes + [Write(p, c.data, 0, None)])
  {
    var c := s.threads[t].call;
    var p := s.heap.files[c.obj].value.pipe;
    ClosedMeansAlone(s, c.obj);
    DeadIsUnreferenced(s, s.pipes[p].r);
  }

  // ---- Whole calls that nobody disturbs ----

  /** The call of thread `t` has ended with `ret`; tables, files and other threads are as before. */
  ghost predicate Returned(s: Sys, z: Sys, t: nat, ret: Ret) {
    && z.tables == s.tables && z.heap.files == s.heap.files && |z.threads| == |s.threads| && t < |s.threads|
    && z.threads[t].call == Idle(ret) && z.threads[t].table == s.threads[t].table
    && (forall u :: 0 <= u < |s.threads| && u != t ==> z.threads[u] == s.threads[u])
  }

  /** Holding a reference to a file for a while leaves its count as it was. */
  lemma HeldForAWhile(h: Heap, o: nat)
    requires o in h.files && h.files[o].count >= 1
    ensures DropFile(CloneFile(h, o), o) == h
  {
    assert CloneFile(h, o).files[o].count >= 2;
  }

  lemma LiveCount(s: Sys, o: nat)
    requires HeapInv(s) && o in s.heap.files
    ensures s.heap.files[o].count >= 1
  {
    assert Exact(s.heap.files, o, Refs(s, o));
  }

  /** The last step of a call drops the reference taken at the first. */
  lemma LeaveReturns(s: Sys, m: Sys, t: nat, o: nat, ret: Ret)
    requires Inv(s) && o in s.heap.files && t < |s.threads| && s.threads[t].table < |s.tables|
    requires m.tables == s.tables && m.heap.files == CloneFile(s.heap, o).files
    requires |m.threads| == |s.threads| && m.threads[t] == Thread(s.threads[t].table, Leaving(o, ret))
    requires forall u :: 0 <= u < |s.threads| && u != t ==> m.threads[u] == s.threads[u]
    ensures Can(m, Leave(t)) && Returned(s, DoLeave(m, t), t, ret)
    ensures DoLeave(m, t).heap.bufs == m.heap.bufs && DoLeave(m, t).pipes == m.pipes && DoLeave(m, t).writes == m.writes
  {
    LiveCount(s, o);
    var z := DoLeave(m, t);
    assert m.heap.files[o].count == s.heap.files[o].count + 1;
    assert z.heap.files == s.heap.files;
  }

  lemma RunThree(s: Sys, a: Action, b: Action, c: Action)
    requires Can(s, a) && Can(Do(s, a), b) && Can(Do(Do(s, a), b), c)
    ensures Run(s, [a, b, c]) == Some(Do(Do(Do(s, a), b), c))
  {
    RunSnoc(s, [], s, a);
    RunSnoc(s, [] + [a], Do(s, a), b);
    RunSnoc(s, [] + [a] + [b], Do(Do(s, a), b), c);
    assert [] + [a] + [b] + [c] == [a, b, c];
  }

  lemma RunFour(s: Sys, a: Action, b: Action, c: Action, d: Action)
    requires Can(s, a) && Can(Do(s, a), b) && Can(Do(Do(s, a), b), c) && Can(Do(Do(Do(s, a), b), c), d)
    ensures Run(s, [a, b, c, d]) == Some(Do(Do(Do(Do(s, a), b), c), d))
  {
    RunThree(s, a, b, c);
    RunSnoc(s, [a, b, c], Do(Do(Do(s, a), b), c), d);
    assert [a, b, c] + [d] == [a, b, c, d];
  }

  ghost predicate RingIs(s: Sys, p: nat, bytes: seq<byte>) {
    p in s.heap.bufs && s.heap.bufs[p].value.Valid() && s.heap.bufs[p].value.Contents() == bytes
  }

  /** `fd` names this end of pipe `p` for thread `t`, which is outside of a call. */
  ghost predicate Ready(s: Sys, t: nat, fd: int, p: nat, readable: bool) {
    && t < |s.threads| && s.threads[t].table < |s.tables| && s.threads[t].call.Idle?
    && Lookup(TableOf(s, t), fd).Some? && EndOf(s, Lookup(TableOf(s, t), fd).value, p, readable)
  }

  lemma ReadyEnters(s: Sys, t: nat, fd: int, p: nat, readable: bool)
    requires Inv(s) && Ready(s, t, fd, p, readable)
    ensures LookupIsPipe(s, t, fd) && p < |s.pipes| && p in s.heap.bufs && s.heap.bufs[p].value.Valid()
  {
    var o := Lookup(TableOf(s, t), fd).value;
    SlotIsLive(s, s.threads[t].table, fd);
    ClosedMeansAlone(s, o);
    assert StreamOk(s, p);
  }

  /** Entering a write and passing the check, with the read end referenced and something to write. */
  lemma WriteGetsGoing(s: Sys, t: nat, fd: int, p: nat, data: seq<byte>)
    requires Inv(s) && Ready(s, t, fd, p, false) && data != []
    requires p < |s.pipes| && !NoReference(s, s.pipes[p].r)
    ensures Can(s, WriteEnter(t, fd, data)) && Can(DoWriteEnter(s, t, fd, data), WriteCheck(t))
    ensures var o := Lookup(TableOf(s, t), fd).value;
            var m := DoWriteCheck(DoWriteEnter(s, t, fd, data), t);
            && m.heap == CloneFile(s.heap, o) && m.pipes == s.pipes && m.tables == s.tables
            && m.writes == s.writes + [Write(p, data, 0, None)]
            && m.threads == s.threads[t := Thread(s.threads[t].table, Writing(o, |s.writes|))]
            && Inv(m) && Can(m, WriteSection(t))
  {
    ReadyEnters(s, t, fd, p, false);
    var m1 := DoWriteEnter(s, t, fd, data);
    StepKeepsInv(s, WriteEnter(t, fd, data));
    EndIsUsable(m1, t);
    EnterKeepsReferences(s, m1, t, s.pipes[p].r);
    WriteCheckOutcome(m1, t);
    var m := DoWriteCheck(m1, t);
    StepKeepsInv(m1, WriteCheck(t));
    EndIsUsable(m, t);
  }

  /** Entering a call takes no reference away. */
  lemma EnterKeepsReferences(s: Sys, z: Sys, t: nat, o: nat)
    requires z.tables == s.tables && |z.threads| == |s.threads| && t < |s.threads| && Held(s.threads[t].call) == []
    requires forall u :: 0 <= u < |s.threads| && u != t ==> z.threads[u] == s.threads[u]
    ensures NoReference(z, o) ==> NoReference(s, o)
  {
    if NoReference(z, o) {
      forall u | 0 <= u < |s.threads|
        ensures o !in Held(s.threads[u].call)
      {
        assert o !in Held(z.threads[u].call);
      }
    }
  }

  /** A pass of the loop that finds more room than bytes. */
  lemma PassPlacesAll(m: Sys, t: nat, p: nat, data: seq<byte>, had: seq<byte>)
    requires Inv(m) && Can(m, WriteSection(t)) && m.heap.files[m.threads[t].call.obj].value.pipe == p
    requires m.writes[m.threads[t].call.id].data == data && m.writes[m.threads[t].call.id].placed == 0
    requires RingIs(m, p, had) && |had| + |data| < RING_BUFFER_SIZE
    ensures var z, c := DoWriteSection(m, t), m.threads[t].call;
            && z.threads == m.threads[t := Thread(m.threads[t].table, Leaving(c.obj, Wrote(|data|)))]
            && RingIs(z, p, had + data) && z.tables == m.tables && z.heap.files == m.heap.files
            && AcceptedOf(z, p) == AcceptedOf(m, p) + data
  {
    var ring := m.heap.bufs[p].value;
    SpaceIsConserved(ring);
    assert data[0..0 + |data|] == data;
    PutAllAppends(ring, data);
    assert On(m, t, p);
    WriteStep(m, t, p);
  }

  /**
   A write that finds the read end referenced and more room than bytes, and that nobody disturbs, returns the
   number of its bytes, and they are at the end of the ring.
   */
  lemma SmallWriteReturns(s: Sys, t: nat, fd: int, p: nat, data: seq<byte>, had: seq<byte>)
    requires Inv(s) && Ready(s, t, fd, p, false) && data != [] && RingIs(s, p, had)
    requires p < |s.pipes| && !NoReference(s, s.pipes[p].r) && |had| + |data| < RING_BUFFER_SIZE
    ensures var run := [WriteEnter(t, fd, data), WriteCheck(t), WriteSection(t), Leave(t)];
            && Run(s, run).Some?
            && var z := Run(s, run).value;
            && Returned(s, z, t, Wrote(|data|)) && RingIs(z, p, had + data)
            && AcceptedOf(z, p) == AcceptedOf(s, p) + data
  {
    SmallWriteSteps(s, t, fd, p, data, had);
    RunFour(s, WriteEnter(t, fd, data), WriteCheck(t), WriteSection(t), Leave(t));
  }

  lemma SmallWriteSteps(s: Sys, t: nat, fd: int, p: nat, data: seq<byte>, had: seq<byte>)
    requires Inv(s) && Ready(s, t, fd, p, false) && data != [] && RingIs(s, p, had)
    requires p < |s.pipes| && !NoReference(s, s.pipes[p].r) && |had| + |data| < RING_BUFFER_SIZE
    ensures Can(s, WriteEnter(t, fd, data)) && Can(DoWriteEnter(s, t, fd, data), WriteCheck(t))
    ensures var m2 := DoWriteCheck(DoWriteEnter(s, t, fd, data), t);
            && Can(m2, WriteSection(t)) && Can(DoWriteSection(m2, t), Leave(t))
            && var z := DoLeave(DoWriteSection(m2, t), t);
            && Returned(s, z, t, Wrote(|data|)) && RingIs(z, p, had + data)
            && AcceptedOf(z, p) == AcceptedOf(s, p) + data
  {
    WriteGetsGoing(s, t, fd, p, data);
    var o := Lookup(TableOf(s, t), fd).value;
    var m2 := DoWriteCheck(DoWriteEnter(s, t, fd, data), t);
    PassPlacesAll(m2, t, p, data, had);
    LeaveReturns(s, DoWriteSection(m2, t), t, o, Wrote(|data|));
  }

  /** Without a reference to the read end the same call returns EPIPE, whatever it was given, and changes nothing. */
  lemma BrokenWriteReturns(s: Sys, t: nat, fd: int, p: nat, data: seq<byte>)
    requires Inv(s) && Ready(s, t, fd, p, false) && p < |s.pipes| && NoReference(s, s.pipes[p].r)
    ensures var run := [WriteEnter(t, fd, data), WriteCheck(t), Leave(t)];
            && Run(s, run).Some?
            && var z := Run(s, run).value;
            && Returned(s, z, t, Failed(EPIPE)) && z.heap.bufs == s.heap.bufs && z.pipes == s.pipes && z.writes == s.writes
  {
    ReadyEnters(s, t, fd, p, false);
    var o := Lookup(TableOf(s, t), fd).value;
    var m1 := DoWriteEnter(s, t, fd, data);
    StepKeepsInv(s, WriteEnter(t, fd, data));
    EndIsUsable(m1, t);
    DeadIsUnreferenced(s, s.pipes[p].r);
    DeadIsUnreferenced(m1, s.pipes[p].r);
    WriteCheckOutcome(m1, t);
    LeaveReturns(s, DoWriteCheck(m1, t), t, o, Failed(EPIPE));
    RunThree(s, WriteEnter(t, fd, data), WriteCheck(t), Leave(t));
  }

  /** An undisturbed read of a ring with something in it returns its oldest bytes and leaves the others. */
  lemma ReadReturns(s: Sys, t: nat, fd: int, p: nat, want: nat, had: seq<byte>)
    requires Inv(s) && Ready(s, t, fd, p, true) && want > 0 && RingIs(s, p, had) && had != []
    ensures var run := [ReadEnter(t, fd, want), ReadSection(t), Leave(t)];
            var n := Min(|had|, want);
            && Run(s, run).Some?
            && var z := Run(s, run).value;
            && Returned(s, z, t, Got(had[..n])) && RingIs(z, p, had[n..])
            && DeliveredOf(z, p) == DeliveredOf(s, p) + had[..n]
  {
    ReadSteps(s, t, fd, p, want, had);
    RunThree(s, ReadEnter(t, fd, want), ReadSection(t), Leave(t));
  }

  lemma ReadSteps(s: Sys, t: nat, fd: int, p: nat, want: nat, had: seq<byte>)
    requires Inv(s) && Ready(s, t, fd, p, true) && want > 0 && RingIs(s, p, had) && had != []
    ensures Can(s, ReadEnter(t, fd, want)) && Can(DoReadEnter(s, t, fd, want), ReadSection(t))
    ensures var m, n := DoReadSection(DoReadEnter(s, t, fd, want), t), Min(|had|, want);
            && Can(m, Leave(t))
            && Returned(s, DoLeave(m, t), t, Got(had[..n])) && RingIs(DoLeave(m, t), p, had[n..])
            && DeliveredOf(DoLeave(m, t), p) == DeliveredOf(s, p) + had[..n]
  {
    ReadGetsGoing(s, t, fd, p, want);
    var o, m1 := Lookup(TableOf(s, t), fd).value, DoReadEnter(s, t, fd, want);
    PassTakes(m1, t, p, want, had);
    LeaveReturns(s, DoReadSection(m1, t), t, o, Got(had[..Min(|had|, want)]));
  }

  lemma ReadGetsGoing(s: Sys, t: nat, fd: int, p: nat, want: nat)
    requires Inv(s) && Ready(s, t, fd, p, true) && want > 0
    ensures Can(s, ReadEnter(t, fd, want))
    ensures var o, m := Lookup(TableOf(s, t), fd).value, DoReadEnter(s, t, fd, want);
            && m.heap == CloneFile(s.heap, o) && m.pipes == s.pipes && m.tables == s.tables
            && m.threads == s.threads[t := Thread(s.threads[t].table, Reading(o, want))]
            && Inv(m) && Can(m, ReadSection(t))
  {
    ReadyEnters(s, t, fd, p, true);
    StepKeepsInv(s, ReadEnter(t, fd, want));
    EndIsUsable(DoReadEnter(s, t, fd, want), t);
  }

  /** With nothing in the ring and no reference to the write end it returns no bytes, and changes nothing. */
  lemma EmptyReadReturns(s: Sys, t: nat, fd: int, p: nat, want: nat)
    requires Inv(s) && Ready(s, t, fd, p, true) && want > 0 && RingIs(s, p, [])
    requires p < |s.pipes| && NoReference(s, s.pipes[p].w)
    ensures var run := [ReadEnter(t, fd, want), ReadSection(t), Leave(t)];
            && Run(s, run).Some?
            && var z := Run(s, run).value;
            && Returned(s, z, t, Got([])) && z.heap.bufs == s.heap.bufs && z.pipes == s.pipes
  {
    ReadGetsGoing(s, t, fd, p, want);
    var o, m1 := Lookup(TableOf(s, t), fd).value, DoReadEnter(s, t, fd, want);
    DeadIsUnreferenced(s, s.pipes[p].w);
    DeadIsUnreferenced(m1, s.pipes[p].w);
    ReadOutcome(m1, t);
    LeaveReturns(s, DoReadSection(m1, t), t, o, Got([]));
    RunThree(s, ReadEnter(t, fd, want), ReadSection(t), Leave(t));
  }

  /** poll: never readable on a write end, never writable on a read end; otherwise bytes waiting, or room. */
  lemma PollSays(s: Sys, o: nat, p: nat, readable: bool, had: seq<byte>)
    requires Inv(s) && IsEnd(s, o, readable) && s.heap.files[o].value.pipe == p && RingIs(s, p, had)
    ensures Poll(s, o).0 <==> EndOf(s, o, p, true) && had != []
    ensures Poll(s, o).1 <==> EndOf(s, o, p, false) && |had| < RING_BUFFER_SIZE
  {
    SpaceIsConserved(s.heap.bufs[p].value);
  }

  lemma PassTakes(m: Sys, t: nat, p: nat, want: nat, had: seq<byte>)
    requires Inv(m) && Can(m, ReadSection(t)) && m.heap.files[m.threads[t].call.obj].value == PipeEnd(p, true)
    requires m.threads[t].call.want == want > 0 && RingIs(m, p, had) && had != []
    ensures var z, c, n := DoReadSection(m, t), m.threads[t].call, Min(|had|, want);
            && z.threads == m.threads[t := Thread(m.threads[t].table, Leaving(c.obj, Got(had[..n])))]
            && RingIs(z, p, had[n..]) && z.tables == m.tables && z.heap.files == m.heap.files
            && DeliveredOf(z, p) == DeliveredOf(m, p) + had[..n]
  {
    var ring := m.heap.bufs[p].value;
    SpaceIsConserved(ring);
    DropBytesTakesPrefix(ring, Min(|had|, want));
    assert On(m, t, p);
    ReadStep(m, t, p);
  }
}
