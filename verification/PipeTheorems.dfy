/** The pipe's guarantees, for every run of the system and every interleaving of its threads. */
module PipeTheorems {
  import opened Basics
  import opened RefCount
  import opened PipeRing
  import opened FdTable
  import opened PipeSystem
  import opened PipeHeap
  import opened PipeFlow

  ghost predicate Reachable(s: Sys) {
    exists s0, run :: Init(s0) && Run(s0, run) == Some(s)
  }

  lemma ReachableIsInv(s: Sys)
    requires Reachable(s)
    ensures Inv(s)
  {
    var s0, run :| Init(s0) && Run(s0, run) == Some(s);
    InitIsInv(s0);
    RunKeepsInv(s0, run);
  }

  // ---- The stream ----

  /** Whatever readers and writers do, bytes come out as they went in, and the ring stays well formed. */
  lemma StreamIsConserved(s: Sys, p: nat)
    requires Reachable(s) && p in s.heap.bufs
    ensures p < |s.pipes| && s.heap.bufs[p].value.Valid()
    ensures Bytes(s.pipes[p].accepted) == s.pipes[p].delivered + s.heap.bufs[p].value.Contents()
    ensures s.heap.bufs[p].value.AvailableRead() + s.heap.bufs[p].value.AvailableWrite() == RING_BUFFER_SIZE
    ensures s.heap.bufs[p].count == Live(s.heap, s.pipes[p])
  {
    ReachableIsInv(s);
    assert StreamOk(s, p) && PipeOk(s.heap, s.pipes, s.nextObj, p);
    SpaceIsConserved(s.heap.bufs[p].value);
  }

  /** The stream merges what the write calls on this pipe have placed so far, each in order. */
  lemma StreamIsMerge(s: Sys, p: nat, id: nat)
    requires Reachable(s) && p < |s.pipes| && id < |s.writes|
    ensures s.writes[id].placed <= |s.writes[id].data|
    ensures Select(s.pipes[p].accepted, id)
            == if s.writes[id].pipe == p then s.writes[id].data[..s.writes[id].placed] else []
    ensures forall i :: 0 <= i < |s.pipes[p].accepted| ==> s.pipes[p].accepted[i].writer < |s.writes|
  {
    ReachableIsInv(s);
    assert MergeOk(s, p);
  }

  /** A write that returned reports what it placed, and reports less than asked only if no reader is left. */
  lemma WriteReportsPlaced(s: Sys, id: nat)
    requires Reachable(s) && id < |s.writes| && s.writes[id].result.Some?
    ensures s.writes[id].pipe < |s.pipes| && s.writes[id].result.value == s.writes[id].placed <= |s.writes[id].data|
    ensures Select(s.pipes[s.writes[id].pipe].accepted, id) == s.writes[id].data[..s.writes[id].result.value]
    ensures s.writes[id].result.value < |s.writes[id].data| ==>
              NoReference(s, s.pipes[s.writes[id].pipe].r)
  {
    ReachableIsInv(s);
    assert WriteOk(s, id);
    StreamIsMerge(s, s.writes[id].pipe, id);
    DeadIsUnreferenced(s, s.pipes[s.writes[id].pipe].r);
  }

  /** No thread ever touches a freed file or buffer: a call in its loop can always take its next step. */
  lemma CallsCanProceed(s: Sys, t: nat)
    requires Reachable(s) && t < |s.threads|
    ensures s.threads[t].call.Reading? ==> Can(s, ReadSection(t))
    ensures s.threads[t].call.WriteEntered? ==> Can(s, WriteCheck(t))
    ensures s.threads[t].call.Writing? ==> Can(s, WriteSection(t))
    ensures NextAdd(s.threads[t].call).Some? ==> Can(s, AddFull(t)) || exists fd :: Can(s, AddFd(t, fd))
  {
    ReachableIsInv(s);
    EndIsUsable(s, t);
    assert CallOk(s, t);
    if s.threads[t].call.Writing? {
      assert WriteOk(s, s.threads[t].call.id);
    }
    if NextAdd(s.threads[t].call).Some? && !IsFull(TableOf(s, t)) {
      var fd :| 0 <= fd < AX_FILE_LIMIT && TableOf(s, t)[fd].None?;
      assert Can(s, AddFd(t, fd));
    }
  }

  // ---- End of file ----

  /** Neither a slot of any table nor any call in flight refers to `o`. */
  ghost predicate NoReference(s: Sys, o: nat) {
    && (forall i, fd :: 0 <= i < |s.tables| && 0 <= fd < AX_FILE_LIMIT ==> s.tables[i][fd] != Some(o))
    && (forall t :: 0 <= t < |s.threads| ==> o !in Held(s.threads[t].call))
  }

  lemma DeadIsUnreferenced(s: Sys, o: nat)
    requires Inv(s)
    ensures o !in s.heap.files <==> NoReference(s, o)
  {
    assert Exact(s.heap.files, o, Refs(s, o));
    TableRefsWitness(s.tables, o);
    CallRefsWitness(s.threads, o);
    assert NoReference(s, o) ==> forall i :: 0 <= i < |s.tables| ==> !InSlots(s.tables[i], o);
    if o !in s.heap.files {
      forall i, fd | 0 <= i < |s.tables| && 0 <= fd < AX_FILE_LIMIT
        ensures s.tables[i][fd] != Some(o)
      {
        assert !InSlots(s.tables[i], o);
      }
    }
  }

  /** A file that is gone does not come back. */
  ghost predicate FilesEvolve(s: Sys, s': Sys) {
    s.nextObj <= s'.nextObj && forall o :: o in s'.heap.files && o < s.nextObj ==> o in s.heap.files
  }

  /** Histories only grow, and the side whose end is gone not even that. */
  ghost predicate PipesEvolve(s: Sys, s': Sys) {
    && |s.pipes| <= |s'.pipes|
    && forall p :: 0 <= p < |s.pipes| ==>
         && s'.pipes[p].r == s.pipes[p].r && s'.pipes[p].w == s.pipes[p].w
         && s.pipes[p].accepted <= s'.pipes[p].accepted
         && s.pipes[p].delivered <= s'.pipes[p].delivered
         && (s.pipes[p].w !in s.heap.files ==> s'.pipes[p].accepted == s.pipes[p].accepted)
         && (s.pipes[p].r !in s.heap.files ==> s'.pipes[p].delivered == s.pipes[p].delivered)
  }

  ghost predicate Evolves(s: Sys, s': Sys) {
    FilesEvolve(s, s') && PipesEvolve(s, s')
  }

  lemma {:induction false} HeapOnlyShrinks(h: Heap, os: seq<nat>)
    ensures forall o :: o in DropAll(h, os).files ==> o in h.files && DropAll(h, os).files[o].value == h.files[o].value
    ensures forall o :: o in CloneAll(h, os).files ==> o in h.files && CloneAll(h, os).files[o].value == h.files[o].value
  {
    if os != [] {
      HeapOnlyShrinks(h, os[..|os| - 1]);
    }
  }

  lemma StepFiles(s: Sys, a: Action)
    requires Can(s, a)
    ensures FilesEvolve(s, Do(s, a))
  {
    var slots := TableOf(s, a.t);
    if a.Fork? || a.Exit? {
      HeapOnlyShrinks(s.heap, Objs(slots));
    } else if a.AddFull? {
      HeapOnlyShrinks(s.heap, Held(s.threads[a.t].call));
    } else if a.Dup2? && Lookup(slots, a.oldFd).Some? && a.oldFd != a.newFd {
      HeapOnlyShrinks(CloneFile(s.heap, slots[a.oldFd].value), Entry(slots[a.newFd]));
    }
  }

  /** A file that lives on is the file it was. */
  lemma StepFileValues(s: Sys, a: Action, o: nat)
    requires Inv(s) && Can(s, a) && o in s.heap.files && o in Do(s, a).heap.files
    ensures Do(s, a).heap.files[o].value == s.heap.files[o].value
  {
    var slots := TableOf(s, a.t);
    assert FileOk(s.heap, s.pipes, s.nextObj, o);
    if a.Fork? || a.Exit? {
      HeapOnlyShrinks(s.heap, Objs(slots));
    } else if a.AddFull? {
      HeapOnlyShrinks(s.heap, Held(s.threads[a.t].call));
    } else if a.Dup2? && Lookup(slots, a.oldFd).Some? && a.oldFd != a.newFd {
      HeapOnlyShrinks(CloneFile(s.heap, slots[a.oldFd].value), Entry(slots[a.newFd]));
    }
  }

  lemma StepPipes(s: Sys, a: Action)
    requires Inv(s) && Can(s, a)
    ensures PipesEvolve(s, Do(s, a))
  {
    match a
    case ReadSection(t) => ReadPipes(s, t);
    case WriteSection(t) => WritePipes(s, t);
    case _ =>
      assert s.pipes <= Do(s, a).pipes;
  }

  lemma ReadPipes(s: Sys, t: nat)
    requires Inv(s) && Can(s, ReadSection(t))
    ensures PipesEvolve(s, DoReadSection(s, t))
  {
    ClosedMeansAlone(s, s.threads[t].call.obj);
  }

  lemma WritePipes(s: Sys, t: nat)
    requires Inv(s) && Can(s, WriteSection(t))
    ensures PipesEvolve(s, DoWriteSection(s, t))
  {
    ClosedMeansAlone(s, s.threads[t].call.obj);
  }

  lemma {:induction false} RunEvolves(s: Sys, run: seq<Action>)
    requires Inv(s) && Run(s, run).Some?
    ensures Evolves(s, Run(s, run).value)
  {
    if run != [] {
      var n := |run| - 1;
      var m := Run(s, run[..n]).value;
      RunEvolves(s, run[..n]);
      RunKeepsInv(s, run[..n]);
      StepFiles(m, run[n]);
      StepPipes(m, run[n]);
      EvolvesTransitive(s, m, Run(s, run).value);
    }
  }

  lemma EvolvesTransitive(a: Sys, b: Sys, c: Sys)
    requires Inv(a) && Evolves(a, b) && Evolves(b, c)
    ensures Evolves(a, c)
  {
    forall p | 0 <= p < |a.pipes|
      ensures a.pipes[p].w !in a.heap.files ==> c.pipes[p].accepted == a.pipes[p].accepted
      ensures a.pipes[p].r !in a.heap.files ==> c.pipes[p].delivered == a.pipes[p].delivered
    {
      assert PipeOk(a.heap, a.pipes, a.nextObj, p);
    }
  }

  /**
   A read for at least one byte returns 0 exactly when the ring is empty and nothing refers to the
   write end. From then on no run whatsoever can add to the stream, and all of it has been delivered.
   */
  lemma EndOfFile(s: Sys, t: nat, later: seq<Action>)
    requires Reachable(s) && t < |s.threads| && s.threads[t].call.Reading?
    ensures Can(s, ReadSection(t))
    ensures var c := s.threads[t].call;
            var p := s.heap.files[c.obj].value.pipe;
            var s' := Do(s, ReadSection(t));
            && (s'.threads[t].call == Leaving(c.obj, Got([]))
                <==> s.heap.bufs[p].value.Contents() == [] && NoReference(s, s.pipes[p].w))
            && (s'.threads[t].call == Leaving(c.obj, Got([])) && Run(s', later).Some? ==>
                  var z := Run(s', later).value;
                  && p < |z.pipes| && z.pipes[p].accepted == s.pipes[p].accepted
                  && Bytes(z.pipes[p].accepted) == s.pipes[p].delivered
                  && NoReference(z, s.pipes[p].w))
  {
    CallsCanProceed(s, t);
    ReachableIsInv(s);
    var c := s.threads[t].call;
    var p := s.heap.files[c.obj].value.pipe;
    var s' := Do(s, ReadSection(t));
    ReadOutcome(s, t);
    assert StreamOk(s, p) && CallOk(s, t);
    if s'.threads[t].call == Leaving(c.obj, Got([])) && Run(s', later).Some? {
      StepKeepsInv(s, ReadSection(t));
      RunEvolves(s', later);
      RunKeepsInv(s', later);
      assert s'.pipes == s.pipes && s'.heap == s.heap;
      assert PipeOk(s.heap, s.pipes, s.nextObj, p);
      DeadIsUnreferenced(s, s.pipes[p].w);
      DeadIsUnreferenced(Run(s', later).value, s.pipes[p].w);
    }
  }

  /** One pass of the read loop: returns the oldest bytes, or end of file, or goes round unchanged. */
  lemma ReadOutcome(s: Sys, t: nat)
    requires Inv(s) && Can(s, ReadSection(t))
    ensures var c := s.threads[t].call;
            var p := s.heap.files[c.obj].value.pipe;
            var had := s.heap.bufs[p].value.Contents();
            var s' := Do(s, ReadSection(t));
            if had != [] then s'.threads[t].call == Leaving(c.obj, Got(had[..Min(|had|, c.want)]))
            else if NoReference(s, s.pipes[p].w) then s' == SetCall(s, t, Leaving(c.obj, Got([])))
            else s' == s
  {
    var c := s.threads[t].call;
    var p := s.heap.files[c.obj].value.pipe;
    SpaceIsConserved(s.heap.bufs[p].value);
    assert CallOk(s, t);
    ClosedMeansAlone(s, c.obj);
    DeadIsUnreferenced(s, s.pipes[p].w);
  }

  // ---- Writes that wait ----

  ghost function RoomFor(s: Sys, t: nat): (int, int)
    requires Can(s, WriteSection(t))
  {
    var c := s.threads[t].call;
    (s.heap.bufs[s.heap.files[c.obj].value.pipe].value.AvailableWrite(),
     |s.writes[c.id].data| - s.writes[c.id].placed)
  }

  /** One pass of the write loop returns exactly when room is left over, or the ring is full and no reader remains. */
  lemma WriteOutcome(s: Sys, t: nat)
    requires Inv(s) && Can(s, WriteSection(t))
    ensures var c := s.threads[t].call;
            var p := s.heap.files[c.obj].value.pipe;
            var (room, rest) := RoomFor(s, t);
            Do(s, WriteSection(t)).threads[t].call.Leaving?
            <==> rest < room || (room == 0 && NoReference(s, s.pipes[p].r))
  {
    ClosedMeansAlone(s, s.threads[t].call.obj);
    DeadIsUnreferenced(s, s.pipes[s.heap.files[s.threads[t].call.obj].value.pipe].r);
  }

  /**
   A write that finds room for all its bytes should not have to wait for a reader. It does when it
   fills the ring exactly: then it goes round again, and however often it is scheduled it stays in its
   loop until some other thread acts. With a reader alive it returns by itself if and only if the
   bytes left are fewer than the room.
   */
  lemma {:induction false} ExactFillWaits(s: Sys, t: nat, k: nat)
    requires Inv(s) && Can(s, WriteSection(t))
    requires s.pipes[s.heap.files[s.threads[t].call.obj].value.pipe].r in s.heap.files
    ensures RoomFor(s, t).1 < RoomFor(s, t).0 ==> Do(s, WriteSection(t)).threads[t].call.Leaving?
    ensures RoomFor(s, t).1 >= RoomFor(s, t).0 ==>
              && Run(s, seq(k, _ => WriteSection(t))).Some?
              && Run(s, seq(k, _ => WriteSection(t))).value.threads == s.threads
    ensures k > 0 && RoomFor(s, t).1 >= RoomFor(s, t).0 ==>
              StuckWriter(Run(s, seq(k, _ => WriteSection(t))).value, t)
  {
    var run := seq(k, _ => WriteSection(t));
    ClosedMeansAlone(s, s.threads[t].call.obj);
    if k > 0 && RoomFor(s, t).1 >= RoomFor(s, t).0 {
      assert run[..k - 1] == seq(k - 1, _ => WriteSection(t));
      ExactFillWaits(s, t, k - 1);
      var m := Run(s, run[..k - 1]).value;
      if k == 1 {
        FillStep(s, t);
      } else {
        assert Do(m, WriteSection(t)) == m;
      }
    }
  }

  /** In its loop, the ring full, a reader alive: a pass changes nothing. */
  ghost predicate StuckWriter(s: Sys, t: nat) {
    Can(s, WriteSection(t)) && RoomFor(s, t).0 == 0 && Do(s, WriteSection(t)) == s
  }

  lemma FillStep(s: Sys, t: nat)
    requires Inv(s) && Can(s, WriteSection(t)) && RoomFor(s, t).1 >= RoomFor(s, t).0
    requires s.pipes[s.heap.files[s.threads[t].call.obj].value.pipe].r in s.heap.files
    ensures Do(s, WriteSection(t)).threads == s.threads
    ensures StuckWriter(Do(s, WriteSection(t)), t)
  {
    var c := s.threads[t].call;
    var p := s.heap.files[c.obj].value.pipe;
    var ring, w := s.heap.bufs[p].value, s.writes[c.id];
    ClosedMeansAlone(s, c.obj);
    SpaceIsConserved(ring);
    var n := ring.AvailableWrite();
    if n > 0 {
      PutAllAppends(ring, w.data[w.placed..w.placed + n]);
      SpaceIsConserved(PutAll(ring, w.data[w.placed..w.placed + n]));
    }
  }

  // ---- poll ----

  /** `Pipe::poll` on the end `o`: (readable, writable). */
  ghost function Poll(s: Sys, o: nat): (bool, bool)
    requires IsEnd(s, o, true) || IsEnd(s, o, false)
  {
    var f := s.heap.files[o].value;
    var ring := s.heap.bufs[f.pipe].value;
    (f.readable && ring.AvailableRead() > 0, !f.readable && ring.AvailableWrite() > 0)
  }

  /** A read returns at once exactly if poll says readable or the writers are gone, which poll does not report. */
  lemma PollAndRead(s: Sys, t: nat)
    requires Inv(s) && Can(s, ReadSection(t))
    ensures var c := s.threads[t].call;
            var p := s.heap.files[c.obj].value.pipe;
            Do(s, ReadSection(t)).threads[t].call.Leaving?
            <==> Poll(s, c.obj).0 || NoReference(s, s.pipes[p].w)
  {
    SpaceIsConserved(s.heap.bufs[s.heap.files[s.threads[t].call.obj].value.pipe].value);
    ReadOutcome(s, t);
  }

  /** With a reader alive, poll's "writable" holds for a one-byte write unless exactly one byte is free. */
  lemma PollAndWrite(s: Sys, t: nat)
    requires Inv(s) && Can(s, WriteSection(t)) && RoomFor(s, t).1 == 1
    requires s.pipes[s.heap.files[s.threads[t].call.obj].value.pipe].r in s.heap.files
    ensures Do(s, WriteSection(t)).threads[t].call.Leaving?
            <==> Poll(s, s.threads[t].call.obj).1 && RoomFor(s, t).0 != 1
  {
    DeadIsUnreferenced(s, s.pipes[s.heap.files[s.threads[t].call.obj].value.pipe].r);
    WriteOutcome(s, t);
  }
}
