/** Every step of the pipe system keeps every strong count exact. */
module PipeCounts {
  import opened Basics
  import opened RefCount
  import opened FdTable
  import opened PipeSystem
  import opened PipeHeap

  /** Thread tables exist, counts are exact, and buffers are counted by their live ends. */
  ghost predicate HeapInv(s: Sys) {
    && (forall t :: 0 <= t < |s.threads| ==> s.threads[t].table < |s.tables|)
    && CountsExact(s)
    && BufsOk(s.heap, s.pipes, s.nextObj)
  }

  /** Counts stay exact when clones and drops make up for the references gained and lost. */
  lemma Balanced(s: Sys, s': Sys, clones: seq<nat>, drops: seq<nat>)
    requires CountsExact(s)
    requires s'.heap == DropAll(CloneAll(s.heap, clones), drops)
    requires forall o :: o in clones ==> o in s.heap.files
    requires forall o: nat :: Refs(s', o) + Occ(drops, o) == Refs(s, o) + Occ(clones, o)
    ensures CountsExact(s')
  {
    forall o: nat
      ensures Exact(s'.heap.files, o, Refs(s', o))
    {
      assert Exact(s.heap.files, o, Refs(s, o));
      OccMember(clones, o);
      CloneAllCounts(s.heap, clones, o, Refs(s, o));
      DropAllCounts(CloneAll(s.heap, clones), drops, o, Refs(s, o) + Occ(clones, o));
    }
  }

  /** References after one thread's call and one slot of its table have changed. */
  lemma MoveRefs(s: Sys, t: nat, fd: nat, x: Option<nat>, c: Call, o: nat)
    requires t < |s.threads| && s.threads[t].table < |s.tables| && fd < AX_FILE_LIMIT
    ensures Refs(SetCall(SetTable(s, t, TableOf(s, t)[fd := x]), t, c), o)
            + Occ(Entry(TableOf(s, t)[fd]), o) + Occ(Held(s.threads[t].call), o)
         == Refs(s, o) + Occ(Entry(x), o) + Occ(Held(c), o)
  {
    var slots := TableOf(s, t);
    TableRefsUpdate(s.tables, s.threads[t].table, slots[fd := x], o);
    ObjsUpdate(slots, fd, x, o);
    CallRefsUpdate(s.threads, t, s.threads[t].(call := c), o);
  }

  lemma MoveCallRefs(s: Sys, t: nat, c: Call, o: nat)
    requires t < |s.threads|
    ensures Refs(SetCall(s, t, c), o) + Occ(Held(s.threads[t].call), o) == Refs(s, o) + Occ(Held(c), o)
  {
    CallRefsUpdate(s.threads, t, s.threads[t].(call := c), o);
  }

  ghost predicate IsHeapStep(s: Sys, s': Sys, clones: seq<nat>, drops: seq<nat>) {
    && s'.heap == DropAll(CloneAll(s.heap, clones), drops)
    && s'.pipes == s.pipes && s'.nextObj == s.nextObj
    && (forall o :: o in clones ==> o in s.heap.files)
    && (forall t :: 0 <= t < |s'.threads| ==> s'.threads[t].table < |s'.tables|)
  }

  lemma HeapStep(s: Sys, s': Sys, clones: seq<nat>, drops: seq<nat>)
    requires HeapInv(s) && IsHeapStep(s, s', clones, drops)
    requires forall o: nat :: Refs(s', o) + Occ(drops, o) == Refs(s, o) + Occ(clones, o)
    ensures HeapInv(s')
    ensures Shrinks(s.heap, s'.heap)
  {
    Balanced(s, s', clones, drops);
    CloneAllKeeps(s.heap, s.pipes, s.nextObj, clones);
    DropAllKeeps(CloneAll(s.heap, clones), s.pipes, s.nextObj, drops);
  }

  lemma SpawnCounts(s: Sys, t: nat)
    requires HeapInv(s) && Can(s, Spawn(t))
    ensures HeapInv(DoSpawn(s, t)) && Shrinks(s.heap, DoSpawn(s, t).heap)
  {
    var s' := DoSpawn(s, t);
    assert s'.threads[..|s.threads|] == s.threads;
    HeapStep(s, s', [], []);
  }

  lemma ForkCounts(s: Sys, t: nat)
    requires HeapInv(s) && Can(s, Fork(t))
    ensures HeapInv(DoFork(s, t)) && Shrinks(s.heap, DoFork(s, t).heap)
  {
    var s', os := DoFork(s, t), Objs(TableOf(s, t));
    assert s'.threads[..|s.threads|] == s.threads && s'.tables[..|s.tables|] == s.tables;
    forall o | o in os
      ensures o in s.heap.files
    {
      ObjsMember(TableOf(s, t), o);
      var fd :| 0 <= fd < AX_FILE_LIMIT && TableOf(s, t)[fd] == Some(o);
      SlotIsLive(s, s.threads[t].table, fd);
    }
    HeapStep(s, s', os, []);
  }

  lemma ExitCounts(s: Sys, t: nat)
    requires HeapInv(s) && Can(s, Exit(t))
    ensures HeapInv(DoExit(s, t)) && Shrinks(s.heap, DoExit(s, t).heap)
  {
    var s', os := DoExit(s, t), Objs(TableOf(s, t));
    ObjsOfEmpty(EmptySlots());
    forall o: nat
      ensures Refs(s', o) + Occ(os, o) == Refs(s, o) + Occ([], o)
    {
      TableRefsUpdate(s.tables, s.threads[t].table, EmptySlots(), o);
    }
    HeapStep(s, s', [], os);
  }

  lemma NewPairExact(files: map<nat, Arc<File>>, r: nat, a: File, b: File, o: nat, n: nat)
    requires Exact(files, o, n) && (o in files ==> o < r)
    ensures Exact(files[r := Arc(1, a)][r + 1 := Arc(1, b)], o, n + Occ([r, r + 1], o))
  {
    assert [r, r + 1][..1] == [r] && [r][..0] == [];
    assert Occ([r, r + 1], o) == Occ([r], o) + (if r + 1 == o then 1 else 0);
    assert Occ([r], o) == if r == o then 1 else 0;
  }

  lemma Pipe2Refs(s: Sys, t: nat, o: nat)
    requires HeapInv(s) && Can(s, Pipe2(t))
    ensures Exact(DoPipe2(s, t).heap.files, o, Refs(DoPipe2(s, t), o))
  {
    var r, p := s.nextObj, |s.pipes|;
    assert Exact(s.heap.files, o, Refs(s, o)) && (o in s.heap.files ==> o < r) by {
      assert CountsExact(s);
      assert o in s.heap.files ==> FileOk(s.heap, s.pipes, s.nextObj, o);
    }
    Pipe2Held(s, t, o);
    NewPairExact(s.heap.files, r, PipeEnd(p, true), PipeEnd(p, false), o, Refs(s, o));
  }

  lemma Pipe2Held(s: Sys, t: nat, o: nat)
    requires Can(s, Pipe2(t))
    ensures Refs(DoPipe2(s, t), o) == Refs(s, o) + Occ([s.nextObj, s.nextObj + 1], o)
  {
    var c := PipeMade(s.nextObj, s.nextObj + 1);
    MoveCallRefs(s, t, c, o);
    assert Held(c) == [s.nextObj, s.nextObj + 1] && Held(s.threads[t].call) == [];
  }

  lemma Pipe2Bufs(s: Sys, t: nat)
    requires HeapInv(s) && Can(s, Pipe2(t))
    ensures BufsOk(DoPipe2(s, t).heap, DoPipe2(s, t).pipes, DoPipe2(s, t).nextObj)
    ensures |s.pipes| !in s.heap.bufs
    ensures forall o :: o in s.heap.files ==> o < s.nextObj
  {
    var s', h := DoPipe2(s, t), s.heap;
    assert forall o :: o in h.files ==> FileOk(h, s.pipes, s.nextObj, o);
    forall x | x in s'.heap.files
      ensures FileOk(s'.heap, s'.pipes, s'.nextObj, x)
    {
      assert x in h.files ==> FileOk(h, s.pipes, s.nextObj, x);
    }
    forall p | 0 <= p < |s'.pipes|
      ensures PipeOk(s'.heap, s'.pipes, s'.nextObj, p)
    {
      assert p < |s.pipes| ==> PipeOk(h, s.pipes, s.nextObj, p);
    }
  }

  lemma Pipe2Counts(s: Sys, t: nat)
    requires HeapInv(s) && Can(s, Pipe2(t))
    ensures HeapInv(DoPipe2(s, t))
  {
    Pipe2Bufs(s, t);
    forall o: nat
      ensures Exact(DoPipe2(s, t).heap.files, o, Refs(DoPipe2(s, t), o))
    {
      Pipe2Refs(s, t, o);
    }
  }

  lemma HeldAfterAdd(c: Call, slot: nat, o: nat)
    requires NextAdd(c).Some?
    ensures Occ(Held(c), o) == Occ(Entry(NextAdd(c)), o) + Occ(Held(AfterAdd(c, slot)), o)
  {
    OccConcat(Entry(NextAdd(c)), Held(AfterAdd(c, slot)), o);
    assert Held(c) == Entry(NextAdd(c)) + Held(AfterAdd(c, slot));
  }

  lemma AddFdCounts(s: Sys, t: nat, slot: nat)
    requires HeapInv(s) && Can(s, AddFd(t, slot))
    ensures HeapInv(DoAddFd(s, t, slot)) && Shrinks(s.heap, DoAddFd(s, t, slot).heap)
  {
    var s', c := DoAddFd(s, t, slot), s.threads[t].call;
    forall o: nat
      ensures Refs(s', o) + Occ([], o) == Refs(s, o) + Occ([], o)
    {
      MoveRefs(s, t, slot, NextAdd(c), AfterAdd(c, slot), o);
      HeldAfterAdd(c, slot, o);
    }
    HeapStep(s, s', [], []);
  }

  lemma AddFullCounts(s: Sys, t: nat)
    requires HeapInv(s) && Can(s, AddFull(t))
    ensures HeapInv(DoAddFull(s, t)) && Shrinks(s.heap, DoAddFull(s, t).heap)
  {
    var s', c := DoAddFull(s, t), s.threads[t].call;
    forall o: nat
      ensures Refs(s', o) + Occ(Held(c), o) == Refs(s, o) + Occ([], o)
    {
      MoveCallRefs(s, t, AfterFull(c), o);
    }
    HeapStep(s, s', [], Held(c));
  }

  /** Closing descriptor `fd`, by `close` or by pipe2's rollback. */
  lemma CloseCounts(s: Sys, t: nat, fd: nat, ret: Ret)
    requires HeapInv(s) && t < |s.threads| && fd < AX_FILE_LIMIT
    requires Held(s.threads[t].call) == []
    requires TableOf(s, t)[fd].Some?
    ensures HeapInv(CloseSlot(s, t, fd, ret)) && Shrinks(s.heap, CloseSlot(s, t, fd, ret).heap)
  {
    var x, s' := TableOf(s, t)[fd].value, CloseSlot(s, t, fd, ret);
    forall o: nat
      ensures Refs(s', o) + Occ([x], o) == Refs(s, o) + Occ([], o)
    {
      MoveRefs(s, t, fd, None, Idle(ret), o);
    }
    assert DropAll(s.heap, [x]) == DropFile(DropAll(s.heap, [x][..0]), x);
    HeapStep(s, s', [], [x]);
  }

  /** Looking a file up and holding it: `dup`, `read` and `write` on entry. */
  lemma GetCounts(s: Sys, t: nat, fd: int, c: Call)
    requires HeapInv(s) && t < |s.threads|
    requires Held(s.threads[t].call) == []
    requires Lookup(TableOf(s, t), fd).Some? && Held(c) == [Lookup(TableOf(s, t), fd).value]
    ensures HeapInv(Enter(s, t, Lookup(TableOf(s, t), fd).value, c))
    ensures Shrinks(s.heap, Enter(s, t, Lookup(TableOf(s, t), fd).value, c).heap)
    ensures Lookup(TableOf(s, t), fd).value in s.heap.files
  {
    var x := Lookup(TableOf(s, t), fd).value;
    var s' := Enter(s, t, x, c);
    SlotIsLive(s, s.threads[t].table, fd);
    forall o: nat
      ensures Refs(s', o) + Occ([], o) == Refs(s, o) + Occ([x], o)
    {
      MoveCallRefs(s, t, c, o);
    }
    assert CloneAll(s.heap, [x]) == CloneFile(CloneAll(s.heap, [x][..0]), x);
    HeapStep(s, s', [x], []);
  }

  lemma LeaveCounts(s: Sys, t: nat)
    requires HeapInv(s) && Can(s, Leave(t))
    ensures HeapInv(DoLeave(s, t)) && Shrinks(s.heap, DoLeave(s, t).heap)
  {
    var s', c := DoLeave(s, t), s.threads[t].call;
    forall o: nat
      ensures Refs(s', o) + Occ([c.obj], o) == Refs(s, o) + Occ([], o)
    {
      MoveCallRefs(s, t, Idle(c.result), o);
    }
    assert DropAll(s.heap, [c.obj]) == DropFile(DropAll(s.heap, [c.obj][..0]), c.obj);
    HeapStep(s, s', [], [c.obj]);
  }

  lemma Dup2Counts(s: Sys, t: nat, oldFd: int, newFd: int)
    requires HeapInv(s) && Can(s, Dup2(t, oldFd, newFd))
    ensures HeapInv(DoDup2(s, t, oldFd, newFd))
    ensures Shrinks(s.heap, DoDup2(s, t, oldFd, newFd).heap)
  {
    var s', slots := DoDup2(s, t, oldFd, newFd), TableOf(s, t);
    if Dup2Result(slots, oldFd, newFd).BadFd? || oldFd == newFd {
      SameRefs(s, s', t, s'.threads[t].call);
    } else {
      var f, drops := slots[oldFd].value, Entry(slots[newFd]);
      SlotIsLive(s, s.threads[t].table, oldFd);
      forall o: nat
        ensures Refs(s', o) + Occ(drops, o) == Refs(s, o) + Occ([f], o)
      {
        MoveRefs(s, t, newFd, slots[oldFd], Idle(NewFd(newFd)), o);
      }
      assert CloneAll(s.heap, [f]) == CloneFile(CloneAll(s.heap, [f][..0]), f);
      HeapStep(s, s', [f], drops);
    }
  }

  /** Steps that move no reference: only the call changes, and it holds what it held. */
  lemma SameRefs(s: Sys, s': Sys, t: nat, c: Call)
    requires HeapInv(s) && t < |s.threads|
    requires Held(c) == Held(s.threads[t].call)
    requires s' == SetCall(s, t, c)
    ensures HeapInv(s') && Shrinks(s.heap, s'.heap)
  {
    forall o: nat
      ensures Refs(s', o) == Refs(s, o)
    {
      MoveCallRefs(s, t, c, o);
    }
    HeapStep(s, s', [], []);
  }

  /** Lock-held sections change a ring and the histories, never a count. */
  lemma SectionCounts(s: Sys, s': Sys, t: nat)
    requires HeapInv(s) && t < |s.threads|
    requires s'.tables == s.tables && s'.nextObj == s.nextObj
    requires |s'.threads| == |s.threads|
    requires s'.threads == s.threads[t := s.threads[t].(call := s'.threads[t].call)]
    requires Held(s'.threads[t].call) == Held(s.threads[t].call)
    requires s'.heap.files == s.heap.files
    requires s'.heap.bufs.Keys == s.heap.bufs.Keys
    requires forall p :: p in s.heap.bufs ==> s'.heap.bufs[p].count == s.heap.bufs[p].count
    requires |s'.pipes| == |s.pipes|
    requires forall p :: 0 <= p < |s.pipes| ==> s'.pipes[p].r == s.pipes[p].r && s'.pipes[p].w == s.pipes[p].w
    ensures HeapInv(s')
  {
    forall o: nat
      ensures Exact(s'.heap.files, o, Refs(s', o))
    {
      assert Exact(s.heap.files, o, Refs(s, o));
      CallRefsUpdate(s.threads, t, s'.threads[t], o);
    }
    forall x | x in s'.heap.files
      ensures FileOk(s'.heap, s'.pipes, s'.nextObj, x)
    {
      assert FileOk(s.heap, s.pipes, s.nextObj, x);
    }
    forall p | 0 <= p < |s'.pipes|
      ensures PipeOk(s'.heap, s'.pipes, s'.nextObj, p)
    {
      assert PipeOk(s.heap, s.pipes, s.nextObj, p);
    }
  }
}
