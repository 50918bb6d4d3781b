/** What every run of the pipe system keeps: the byte streams, and what write calls report. */
module PipeFlow {
  import opened Basics
  import opened PipeRing
  import opened FdTable
  import opened PipeSystem
  import opened PipeHeap
  import opened PipeCounts

  ghost function Bytes(acc: seq<Placed>): seq<byte> {
    seq(|acc|, i requires 0 <= i < |acc| => acc[i].b)
  }

  /** The bytes one write call placed, in the order in which they stand in the stream. */
  ghost function Select(acc: seq<Placed>, id: nat): seq<byte> {
    if acc == [] then []
    else Select(acc[..|acc| - 1], id) + (if acc[|acc| - 1].writer == id then [acc[|acc| - 1].b] else [])
  }

  lemma BytesTag(acc: seq<Placed>, id: nat, chunk: seq<byte>)
    ensures Bytes(acc + Tag(id, chunk)) == Bytes(acc) + chunk
  {
  }

  lemma {:induction false} SelectTag(acc: seq<Placed>, id: nat, chunk: seq<byte>, x: nat)
    ensures Select(acc + Tag(id, chunk), x) == Select(acc, x) + if x == id then chunk else []
    decreases |chunk|
  {
    if chunk == [] {
      assert acc + Tag(id, chunk) == acc;
    } else {
      var n := |chunk| - 1;
      SelectTag(acc, id, chunk[..n], x);
      var all := acc + Tag(id, chunk);
      assert all[..|all| - 1] == acc + Tag(id, chunk[..n]);
      assert chunk == chunk[..n] + [chunk[n]];
    }
  }

  /** Everything accepted has been delivered or is still in the ring, in order. */
  ghost predicate StreamOk(s: Sys, p: nat)
    requires p < |s.pipes|
  {
    var q := s.pipes[p];
    && q.delivered <= Bytes(q.accepted)
    && (p in s.heap.bufs ==>
          && s.heap.bufs[p].value.Valid()
          && Bytes(q.accepted) == q.delivered + s.heap.bufs[p].value.Contents())
  }

  /** The stream interleaves the prefixes that the write calls have placed so far. */
  ghost predicate MergeOk(s: Sys, p: nat)
    requires p < |s.pipes|
  {
    && (forall i :: 0 <= i < |s.pipes[p].accepted| ==> s.pipes[p].accepted[i].writer < |s.writes|)
    && (forall id :: 0 <= id < |s.writes| ==>
          && s.writes[id].placed <= |s.writes[id].data|
          && Select(s.pipes[p].accepted, id)
             == if s.writes[id].pipe == p then s.writes[id].data[..s.writes[id].placed] else [])
  }

  /** A write that returned reports what it placed, and falls short only once the read end is gone. */
  ghost predicate WriteOk(s: Sys, id: nat)
    requires id < |s.writes|
  {
    var w := s.writes[id];
    && w.pipe < |s.pipes| && w.placed <= |w.data|
    && (w.result.Some? ==>
          && w.result.value == w.placed
          && (w.placed < |w.data| ==> s.pipes[w.pipe].r !in s.heap.files))
  }

  ghost predicate CallOk(s: Sys, t: nat)
    requires t < |s.threads|
  {
    match s.threads[t].call
    case Reading(o, want) => want > 0 && o in s.heap.files && IsPipeEnd(s.heap.files[o].value, true)
    case WriteEntered(o, _) => o in s.heap.files && IsPipeEnd(s.heap.files[o].value, false)
    case Writing(o, id) =>
      && o in s.heap.files && IsPipeEnd(s.heap.files[o].value, false)
      && id < |s.writes| && s.writes[id].result.None? && s.writes[id].pipe == s.heap.files[o].value.pipe
    case _ => true
  }

  predicate IsPipeEnd(f: File, readable: bool) {
    f.PipeEnd? && f.readable == readable
  }

  /** No two threads are inside the same write call. */
  ghost predicate WritersDistinct(s: Sys) {
    forall t, u :: 0 <= t < u < |s.threads| && s.threads[t].call.Writing? && s.threads[u].call.Writing? ==>
      s.threads[t].call.id != s.threads[u].call.id
  }

  ghost predicate Inv(s: Sys) {
    && HeapInv(s)
    && (forall p :: 0 <= p < |s.pipes| ==> StreamOk(s, p) && MergeOk(s, p))
    && (forall id :: 0 <= id < |s.writes| ==> WriteOk(s, id))
    && (forall t :: 0 <= t < |s.threads| ==> CallOk(s, t))
    && WritersDistinct(s)
  }

  /** Steps that only move references keep the streams and the other calls. */
  lemma Frame(s: Sys, s': Sys, t: nat)
    requires Inv(s) && HeapInv(s') && Shrinks(s.heap, s'.heap)
    requires s'.pipes == s.pipes && s'.writes == s.writes
    requires t < |s.threads| <= |s'.threads|
    requires forall u :: 0 <= u < |s.threads| && u != t ==> s'.threads[u] == s.threads[u]
    requires forall u :: |s.threads| <= u < |s'.threads| ==> s'.threads[u].call.Idle?
    requires !s'.threads[t].call.Writing? && CallOk(s', t)
    ensures Inv(s')
  {
    forall u | 0 <= u < |s'.threads|
      ensures CallOk(s', u)
    {
      if u < |s.threads| && u != t {
        assert CallOk(s, u);
        forall o | o in Held(s'.threads[u].call)
          ensures o in s'.heap.files
        {
          HeldIsLive(s', u, o);
        }
      }
    }
    forall p | 0 <= p < |s.pipes|
      ensures StreamOk(s', p) && MergeOk(s', p)
    {
      assert StreamOk(s, p) && MergeOk(s, p);
    }
    forall id | 0 <= id < |s.writes|
      ensures WriteOk(s', id)
    {
      assert WriteOk(s, id);
    }
  }

  lemma Pipe2Flow(s: Sys, t: nat)
    requires Inv(s) && Can(s, Pipe2(t))
    ensures Inv(DoPipe2(s, t))
  {
    var s' := DoPipe2(s, t);
    Pipe2Counts(s, t);
    Pipe2Bufs(s, t);
    forall u | 0 <= u < |s'.threads|
      ensures CallOk(s', u)
    {
      assert CallOk(s, u);
    }
    forall p | 0 <= p < |s'.pipes|
      ensures StreamOk(s', p) && MergeOk(s', p)
    {
      assert p < |s.pipes| ==> StreamOk(s, p) && MergeOk(s, p);
      if p == |s.pipes| {
        forall id | 0 <= id < |s.writes|
          ensures s.writes[id].pipe != p && s.writes[id].placed <= |s.writes[id].data|
        {
          assert WriteOk(s, id);
        }
      }
    }
    forall id | 0 <= id < |s.writes|
      ensures WriteOk(s', id)
    {
      assert WriteOk(s, id);
      assert PipeOk(s.heap, s.pipes, s.nextObj, s.writes[id].pipe);
    }
  }

  /** A thread inside a read or write holds a live end of a pipe with a live, valid buffer. */
  lemma EndIsUsable(s: Sys, t: nat)
    requires Inv(s) && t < |s.threads|
    ensures s.threads[t].call.Reading? ==> IsEnd(s, s.threads[t].call.obj, true)
    ensures s.threads[t].call.WriteEntered? || s.threads[t].call.Writing? ==>
              IsEnd(s, s.threads[t].call.obj, false)
  {
    var c := s.threads[t].call;
    if c.Reading? || c.WriteEntered? || c.Writing? {
      assert CallOk(s, t);
      assert FileOk(s.heap, s.pipes, s.nextObj, c.obj);
      var p := s.heap.files[c.obj].value.pipe;
      assert PipeOk(s.heap, s.pipes, s.nextObj, p);
      assert StreamOk(s, p);
    }
  }

  /** For the holder of one end, a closed pipe is one whose other end is referenced by nothing. */
  lemma ClosedMeansAlone(s: Sys, o: nat)
    requires HeapInv(s) && o in s.heap.files && s.heap.files[o].value.PipeEnd?
    ensures s.heap.files[o].value.pipe < |s.pipes| && s.heap.files[o].value.pipe in s.heap.bufs
    ensures var f := s.heap.files[o].value;
            var q := s.pipes[f.pipe];
            o == (if f.readable then q.r else q.w)
            && (Closed(s.heap, f.pipe) <==> (if f.readable then q.w else q.r) !in s.heap.files)
  {
    assert FileOk(s.heap, s.pipes, s.nextObj, o);
    assert PipeOk(s.heap, s.pipes, s.nextObj, s.heap.files[o].value.pipe);
  }

  lemma ReadSectionFlow(s: Sys, t: nat)
    requires Inv(s) && Can(s, ReadSection(t))
    ensures Inv(DoReadSection(s, t))
  {
    var s' := DoReadSection(s, t);
    if s' != s {
      SectionCounts(s, s', t);
      SectionFrame(s, s', t);
      ReadSectionStreams(s, t);
      forall id | 0 <= id < |s.writes|
        ensures WriteOk(s', id)
      {
        assert WriteOk(s, id);
      }
      forall q | 0 <= q < |s.pipes|
        ensures MergeOk(s', q)
      {
        assert MergeOk(s, q);
        assert s'.pipes[q].accepted == s.pipes[q].accepted;
      }
    }
  }

  /** A read takes its chunk off the front of the ring and adds it to what has been delivered. */
  lemma ReadSectionStreams(s: Sys, t: nat)
    requires Inv(s) && Can(s, ReadSection(t))
    ensures forall q :: 0 <= q < |s.pipes| ==> StreamOk(DoReadSection(s, t), q)
  {
    var s', c := DoReadSection(s, t), s.threads[t].call;
    var p := s.heap.files[c.obj].value.pipe;
    ReadSectionStream(s, t);
    forall q | 0 <= q < |s.pipes| && q != p
      ensures StreamOk(s', q)
    {
      assert StreamOk(s, q);
    }
  }

  lemma ReadSectionStream(s: Sys, t: nat)
    requires Inv(s) && Can(s, ReadSection(t))
    ensures StreamOk(DoReadSection(s, t), s.heap.files[s.threads[t].call.obj].value.pipe)
  {
    var c := s.threads[t].call;
    var p := s.heap.files[c.obj].value.pipe;
    var ring := s.heap.bufs[p].value;
    var n := Min(ring.AvailableRead(), c.want);
    assert StreamOk(s, p);
    SpaceIsConserved(ring);
    DropBytesTakesPrefix(ring, n);
    assert ring.Contents() == ring.Contents()[..n] + ring.Contents()[n..];
  }

  /** Other threads' calls are untouched by a section that leaves their write records alone. */
  lemma SectionFrame(s: Sys, s': Sys, t: nat)
    requires Inv(s) && t < |s.threads|
    requires |s'.threads| == |s.threads|
    requires s'.threads == s.threads[t := s.threads[t].(call := s'.threads[t].call)]
    requires s'.heap.files == s.heap.files
    requires |s.writes| <= |s'.writes|
    requires forall u :: 0 <= u < |s.threads| && u != t && s.threads[u].call.Writing? && s.threads[u].call.id < |s.writes| ==>
               s'.writes[s.threads[u].call.id] == s.writes[s.threads[u].call.id]
    requires CallOk(s', t)
    requires s'.threads[t].call.Writing? ==>
               forall u :: 0 <= u < |s.threads| && u != t && s.threads[u].call.Writing? ==>
                 s.threads[u].call.id != s'.threads[t].call.id
    ensures forall u :: 0 <= u < |s'.threads| ==> CallOk(s', u)
    ensures WritersDistinct(s')
  {
    forall u | 0 <= u < |s'.threads|
      ensures CallOk(s', u)
    {
      assert CallOk(s, u);
    }
  }

  lemma WriteCheckFlow(s: Sys, t: nat)
    requires Inv(s) && Can(s, WriteCheck(t))
    ensures Inv(DoWriteCheck(s, t))
  {
    var s' := DoWriteCheck(s, t);
    SectionCounts(s, s', t);
    assert CallOk(s, t);
    forall u | 0 <= u < |s.threads| && s.threads[u].call.Writing?
      ensures s.threads[u].call.id < |s.writes|
    {
      assert CallOk(s, u);
    }
    SectionFrame(s, s', t);
    WriteCheckStreams(s, s', t);
  }

  lemma WriteCheckStreams(s: Sys, s': Sys, t: nat)
    requires Inv(s) && Can(s, WriteCheck(t)) && s' == DoWriteCheck(s, t)
    ensures forall q :: 0 <= q < |s'.pipes| ==> StreamOk(s', q) && MergeOk(s', q)
    ensures forall id :: 0 <= id < |s'.writes| ==> WriteOk(s', id)
  {
    assert s'.pipes == s.pipes && s'.heap == s.heap;
    assert s.writes <= s'.writes;
    forall q | 0 <= q < |s.pipes|
      ensures StreamOk(s', q) && MergeOk(s', q)
    {
      assert StreamOk(s, q) && MergeOk(s, q);
      SelectAbsent(s.pipes[q].accepted, |s.writes|);
    }
    forall id | 0 <= id < |s'.writes|
      ensures WriteOk(s', id)
    {
      assert id < |s.writes| ==> WriteOk(s, id);
    }
  }

  lemma {:induction false} SelectAbsent(acc: seq<Placed>, id: nat)
    requires forall i :: 0 <= i < |acc| ==> acc[i].writer < id
    ensures Select(acc, id) == []
  {
    if acc != [] {
      SelectAbsent(acc[..|acc| - 1], id);
    }
  }

  lemma WriteSectionFlow(s: Sys, t: nat)
    requires Inv(s) && Can(s, WriteSection(t))
    ensures Inv(DoWriteSection(s, t))
  {
    var s', c := DoWriteSection(s, t), s.threads[t].call;
    var p := s.heap.files[c.obj].value.pipe;
    assert CallOk(s, t);
    if s' != s {
      SectionCounts(s, s', t);
      forall u | 0 <= u < |s.threads| && u != t && s.threads[u].call.Writing?
        ensures s.threads[u].call.id != c.id
      {
        if u < t {
          assert s.threads[u].call.id != s.threads[t].call.id;
        } else {
          assert s.threads[t].call.id != s.threads[u].call.id;
        }
      }
      SectionFrame(s, s', t);
      WriteSectionStreams(s, t);
      WriteSectionReports(s, t);
    }
  }

  lemma PlaceChunkStream(s: Sys, p: nat, id: nat, n: nat)
    requires p < |s.pipes| && p in s.heap.bufs && StreamOk(s, p) && id < |s.writes|
    requires s.writes[id].placed + n <= |s.writes[id].data|
    requires n <= s.heap.bufs[p].value.AvailableWrite()
    ensures StreamOk(PlaceChunk(s, p, id, n), p)
  {
    var ring, w := s.heap.bufs[p].value, s.writes[id];
    var chunk := w.data[w.placed..w.placed + n];
    SpaceIsConserved(ring);
    PutAllAppends(ring, chunk);
    BytesTag(s.pipes[p].accepted, id, chunk);
  }

  lemma PlaceChunkMerge(s: Sys, p: nat, id: nat, n: nat)
    requires p < |s.pipes| && p in s.heap.bufs && StreamOk(s, p) && MergeOk(s, p) && id < |s.writes|
    requires s.writes[id].placed + n <= |s.writes[id].data| && s.writes[id].pipe == p
    ensures MergeOk(PlaceChunk(s, p, id, n), p)
  {
    var s', w := PlaceChunk(s, p, id, n), s.writes[id];
    var chunk := w.data[w.placed..w.placed + n];
    assert w.data[..w.placed] + chunk == w.data[..w.placed + n];
    forall x | 0 <= x < |s.writes|
      ensures Select(s'.pipes[p].accepted, x)
              == if s'.writes[x].pipe == p then s'.writes[x].data[..s'.writes[x].placed] else []
    {
      SelectTag(s.pipes[p].accepted, id, chunk, x);
    }
  }

  lemma WriteSectionStreams(s: Sys, t: nat)
    requires Inv(s) && Can(s, WriteSection(t))
    ensures forall q :: 0 <= q < |s.pipes| ==> StreamOk(DoWriteSection(s, t), q) && MergeOk(DoWriteSection(s, t), q)
  {
    var s', c := DoWriteSection(s, t), s.threads[t].call;
    var p := s.heap.files[c.obj].value.pipe;
    var room, w := s.heap.bufs[p].value.AvailableWrite(), s.writes[c.id];
    var m := if room == 0 then s else PlaceChunk(s, p, c.id, Min(room, |w.data| - w.placed));
    assert CallOk(s, t) && WriteOk(s, c.id);
    if room > 0 {
      PlaceChunkFrame(s, p, c.id, Min(room, |w.data| - w.placed));
    }
    assert s' == m || s' == FinishWrite(m, t, m.writes[c.id].placed);
    FinishStreams(m, t);
  }

  lemma PlaceChunkFrame(s: Sys, p: nat, id: nat, n: nat)
    requires p < |s.pipes| && p in s.heap.bufs && id < |s.writes|
    requires forall q :: 0 <= q < |s.pipes| ==> StreamOk(s, q) && MergeOk(s, q)
    requires s.writes[id].placed + n <= |s.writes[id].data| && s.writes[id].pipe == p
    requires s.heap.bufs[p].value.Valid() && n <= s.heap.bufs[p].value.AvailableWrite()
    ensures var m := PlaceChunk(s, p, id, n);
            forall q :: 0 <= q < |s.pipes| ==> StreamOk(m, q) && MergeOk(m, q)
  {
    var m := PlaceChunk(s, p, id, n);
    PlaceChunkStream(s, p, id, n);
    PlaceChunkMerge(s, p, id, n);
    forall q | 0 <= q < |s.pipes| && q != p
      ensures StreamOk(m, q) && MergeOk(m, q)
    {
      assert StreamOk(s, q) && MergeOk(s, q);
    }
  }

  lemma FinishStreams(s: Sys, t: nat)
    requires t < |s.threads| && s.threads[t].call.Writing? && s.threads[t].call.id < |s.writes|
    requires forall q :: 0 <= q < |s.pipes| ==> StreamOk(s, q) && MergeOk(s, q)
    ensures var s' := FinishWrite(s, t, s.writes[s.threads[t].call.id].placed);
            forall q :: 0 <= q < |s.pipes| ==> StreamOk(s', q) && MergeOk(s', q)
  {
    var s' := FinishWrite(s, t, s.writes[s.threads[t].call.id].placed);
    forall q | 0 <= q < |s.pipes|
      ensures StreamOk(s', q) && MergeOk(s', q)
    {
      assert StreamOk(s, q) && MergeOk(s, q);
    }
  }

  lemma WriteSectionReports(s: Sys, t: nat)
    requires Inv(s) && Can(s, WriteSection(t))
    ensures forall id :: 0 <= id < |s.writes| ==> WriteOk(DoWriteSection(s, t), id)
  {
    var s', c := DoWriteSection(s, t), s.threads[t].call;
    assert CallOk(s, t);
    ClosedMeansAlone(s, c.obj);
    forall id | 0 <= id < |s.writes|
      ensures WriteOk(s', id)
    {
      assert WriteOk(s, id);
    }
  }

  lemma CloneStep(s: Sys, a: Action)
    requires Inv(s) && Can(s, a) && (a.Spawn? || a.Fork? || a.Exit?)
    ensures Inv(Do(s, a))
  {
    match a
    case Spawn(t) => SpawnCounts(s, t); Frame(s, DoSpawn(s, t), t);
    case Fork(t) => ForkCounts(s, t); Frame(s, DoFork(s, t), t);
    case Exit(t) => ExitCounts(s, t); Frame(s, DoExit(s, t), t);
  }

  lemma AddStep(s: Sys, a: Action)
    requires Inv(s) && Can(s, a) && (a.AddFd? || a.AddFull? || a.Leave? || a.Dup2?)
    ensures Inv(Do(s, a))
  {
    match a
    case AddFd(t, slot) => AddFdCounts(s, t, slot); Frame(s, DoAddFd(s, t, slot), t);
    case AddFull(t) => AddFullCounts(s, t); Frame(s, DoAddFull(s, t), t);
    case Leave(t) => LeaveCounts(s, t); Frame(s, DoLeave(s, t), t);
    case Dup2(t, oldFd, newFd) => Dup2Counts(s, t, oldFd, newFd); Frame(s, DoDup2(s, t, oldFd, newFd), t);
  }

  lemma CloseStep(s: Sys, t: nat, fd: nat, ret: Ret)
    requires Inv(s) && t < |s.threads| && fd < AX_FILE_LIMIT && Held(s.threads[t].call) == []
    requires TableOf(s, t)[fd].Some?
    ensures Inv(CloseSlot(s, t, fd, ret))
  {
    CloseCounts(s, t, fd, ret);
    Frame(s, CloseSlot(s, t, fd, ret), t);
  }

  /** A call that fails at once changes nothing but its result. */
  lemma FailStep(s: Sys, t: nat, errno: Errno)
    requires Inv(s) && t < |s.threads| && s.threads[t].call.Idle?
    ensures Inv(SetCall(s, t, Idle(Failed(errno))))
  {
    SameRefs(s, SetCall(s, t, Idle(Failed(errno))), t, Idle(Failed(errno)));
    Frame(s, SetCall(s, t, Idle(Failed(errno))), t);
  }

  lemma EnterStep(s: Sys, t: nat, fd: int, c: Call)
    requires Inv(s) && t < |s.threads| && s.threads[t].call.Idle? && Lookup(TableOf(s, t), fd).Some?
    requires Held(c) == [Lookup(TableOf(s, t), fd).value] && !c.Writing?
    requires c.Reading? ==> c.want > 0 && c.obj in s.heap.files && IsPipeEnd(s.heap.files[c.obj].value, true)
    requires c.WriteEntered? ==> c.obj in s.heap.files && IsPipeEnd(s.heap.files[c.obj].value, false)
    ensures Inv(Enter(s, t, Lookup(TableOf(s, t), fd).value, c))
  {
    GetCounts(s, t, fd, c);
    Frame(s, Enter(s, t, Lookup(TableOf(s, t), fd).value, c), t);
  }

  lemma LookupStep(s: Sys, a: Action)
    requires Inv(s) && Can(s, a) && (a.DupGet? || a.ReadEnter? || a.WriteEnter? || a.Close?)
    ensures Inv(Do(s, a))
  {
    var x, t := Lookup(TableOf(s, a.t), a.fd), a.t;
    if x.None? {
      FailStep(s, t, EBADF);
    } else if a.Close? {
      CloseStep(s, t, a.fd, Nothing);
    } else {
      EnterStep(s, t, a.fd, Do(s, a).threads[t].call);
    }
  }

  /** Every step keeps the invariant. */
  lemma StepKeepsInv(s: Sys, a: Action)
    requires Inv(s) && Can(s, a)
    ensures Inv(Do(s, a))
  {
    match a
    case Pipe2(t) => Pipe2Flow(s, t);
    case ReadSection(t) => ReadSectionFlow(s, t);
    case WriteCheck(t) => WriteCheckFlow(s, t);
    case WriteSection(t) => WriteSectionFlow(s, t);
    case Rollback(t) => CloseStep(s, t, s.threads[t].call.readFd, Failed(EMFILE));
    case DupGet(_, _) => LookupStep(s, a);
    case ReadEnter(_, _, _) => LookupStep(s, a);
    case WriteEnter(_, _, _) => LookupStep(s, a);
    case Close(_, _) => LookupStep(s, a);
    case Spawn(_) => CloneStep(s, a);
    case Fork(_) => CloneStep(s, a);
    case Exit(_) => CloneStep(s, a);
    case _ => AddStep(s, a);
  }

  /** The invariant holds after every run. */
  lemma {:induction false} RunKeepsInv(s: Sys, run: seq<Action>)
    requires Inv(s) && Run(s, run).Some?
    ensures Inv(Run(s, run).value)
  {
    if run != [] {
      var n := |run| - 1;
      RunKeepsInv(s, run[..n]);
      StepKeepsInv(Run(s, run[..n]).value, run[n]);
    }
  }

  lemma InitIsInv(s: Sys)
    requires Init(s)
    ensures Inv(s)
  {
  }
}
