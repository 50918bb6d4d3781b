/** What the calls that hand descriptors around do, told by descriptor numbers: fork, exit, close, dup, dup2, pipe2. */
module PipeDescriptors {
  import opened Basics
  import opened RefCount
  import opened PipeRing
  import opened FdTable
  import opened PipeSystem
  import opened PipeHeap
  import opened PipeCounts
  import opened PipeFlow
  import opened PipeTheorems
  import opened PipeTrace
  import opened PipeCalls
  import opened PipeCreation
  import opened PipeSyscalls

  /** What number `fd` names for thread `t`. */
  ghost function Named(s: Sys, t: nat, fd: int): Option<nat> {
    if t < |s.threads| && s.threads[t].table < |s.tables| then Lookup(TableOf(s, t), fd) else None
  }

  /** Numbers mean what they did, for every thread, except `fd` in the table of thread `t`. */
  ghost predicate OthersNamed(s: Sys, z: Sys, t: nat, fd: int) {
    && |s.threads| <= |z.threads| && t < |s.threads|
    && forall u, n: int :: 0 <= u < |s.threads| && (n != fd || s.threads[u].table != s.threads[t].table) ==>
         Named(z, u, n) == Named(s, u, n)
  }

  // ---- fork and clone ----

  /** The child gets every descriptor of its parent, in a table of its own; nobody else's table changes. */
  lemma ForkGivesAll(s: Sys, t: nat)
    requires Inv(s) && Can(s, Fork(t))
    ensures var z, u := Do(s, Fork(t)), |s.threads|;
            && |z.threads| == u + 1 && z.threads[u].call.Idle? && z.threads[u].table < |z.tables|
            && (forall fd: int :: Named(z, u, fd) == Named(s, t, fd))
            && (forall v, fd: int :: 0 <= v < u ==> Named(z, v, fd) == Named(s, v, fd))
            && (forall v :: 0 <= v < u ==> z.threads[v] == s.threads[v])
            && Unshared(z, u)
  {
  }

  /** A file the parent names is referenced as long as the child does nothing, whatever all others do. */
  lemma ForkedReferenceLasts(s: Sys, t: nat, fd: int, run: seq<Action>)
    requires Inv(s) && Can(s, Fork(t)) && Named(s, t, fd).Some?
    requires ByOthers(run, |s.threads|) && Run(Do(s, Fork(t)), run).Some?
    ensures !NoReference(Run(Do(s, Fork(t)), run).value, Named(s, t, fd).value)
    ensures Named(s, t, fd).value in Run(Do(s, Fork(t)), run).value.heap.files
  {
    var z, u := Do(s, Fork(t)), |s.threads|;
    ForkGivesAll(s, t);
    StepKeepsInv(s, Fork(t));
    RunKeepsInv(z, run);
    UnsharedTableIsStable(z, u, run);
    assert Named(z, u, fd) == Named(s, t, fd);
    var y := Run(z, run).value;
    assert y.tables[y.threads[u].table][fd] == Some(Named(s, t, fd).value);
    DeadIsUnreferenced(y, Named(s, t, fd).value);
  }

  /** So a reader of that pipe does not see the end of the file meanwhile. */
  lemma ForkedWriterHoldsOff(s: Sys, t: nat, fd: int, run: seq<Action>, reader: nat, p: nat)
    requires Inv(s) && Can(s, Fork(t)) && p < |s.pipes| && Named(s, t, fd) == Some(s.pipes[p].w)
    requires ByOthers(run, |s.threads|) && Run(Do(s, Fork(t)), run).Some?
    requires var y := Run(Do(s, Fork(t)), run).value;
             Can(y, ReadSection(reader)) && EndOf(y, y.threads[reader].call.obj, p, true)
    ensures var y := Run(Do(s, Fork(t)), run).value;
            Do(y, ReadSection(reader)).threads[reader].call != Leaving(y.threads[reader].call.obj, Got([]))
  {
    var z := Do(s, Fork(t));
    var y := Run(z, run).value;
    ForkedReferenceLasts(s, t, fd, run);
    StepKeepsInv(s, Fork(t));
    RunKeepsInv(z, run);
    RunEvolves(z, run);
    ReadOutcome(y, reader);
    assert CallOk(y, reader);
  }

  /** A thread's table is the same for ever: threads that share one go on naming the same files. */
  lemma {:induction false} TableIsForever(s: Sys, run: seq<Action>, t: nat)
    requires t < |s.threads| && Run(s, run).Some?
    ensures t < |Run(s, run).value.threads| && Run(s, run).value.threads[t].table == s.threads[t].table
  {
    if run != [] {
      var n := |run| - 1;
      TableIsForever(s, run[..n], t);
      TablesStay(Run(s, run[..n]).value, t, run[n]);
    }
  }

  /** A thread made with the table shared names, at any later time, what its maker names. */
  lemma SpawnShares(s: Sys, t: nat, run: seq<Action>, fd: int)
    requires Can(s, Spawn(t)) && Run(Do(s, Spawn(t)), run).Some?
    ensures var y := Run(Do(s, Spawn(t)), run).value;
            |s.threads| < |y.threads| && Named(y, |s.threads|, fd) == Named(y, t, fd)
    ensures forall v, n: int :: 0 <= v < |s.threads| ==> Named(Do(s, Spawn(t)), v, n) == Named(s, v, n)
  {
    TableIsForever(Do(s, Spawn(t)), run, t);
    TableIsForever(Do(s, Spawn(t)), run, |s.threads|);
  }

  /** Exit: no number names anything in that table; other tables stay; what only that table named is gone. */
  lemma ExitEmpties(s: Sys, t: nat)
    requires Inv(s) && Can(s, Exit(t))
    ensures var z := Do(s, Exit(t));
            && z.threads == s.threads && |z.tables| == |s.tables|
            && (forall fd: int :: Named(z, t, fd) == None)
            && (forall i :: 0 <= i < |s.tables| && i != s.threads[t].table ==> z.tables[i] == s.tables[i])
            && (forall o: nat :: o in z.heap.files <==> !NoReference(z, o))
            && (forall o: nat :: o in z.heap.files ==> o in s.heap.files)
  {
    var z := Do(s, Exit(t));
    StepKeepsInv(s, Exit(t));
    StepFiles(s, Exit(t));
    forall o: nat
      ensures o in z.heap.files <==> !NoReference(z, o)
      ensures o in z.heap.files ==> o in s.heap.files
    {
      DeadIsUnreferenced(z, o);
      if o in z.heap.files {
        assert FileOk(z.heap, z.pipes, z.nextObj, o);
      }
    }
  }

  // ---- close ----

  /** Close: the number names nothing afterwards, and EBADF says that it named nothing before. */
  lemma CloseOutcome(s: Sys, t: nat, fd: int)
    requires Inv(s) && Can(s, Close(t, fd))
    ensures var z := Do(s, Close(t, fd));
            && OthersNamed(s, z, t, fd) && Named(z, t, fd) == None
            && z.threads[t].call == Idle(if Named(s, t, fd).Some? then Nothing else Failed(EBADF))
            && (forall o: nat :: o in z.heap.files <==> !NoReference(z, o))
  {
    StepKeepsInv(s, Close(t, fd));
    var z := Do(s, Close(t, fd));
    forall o: nat
      ensures o in z.heap.files <==> !NoReference(z, o)
    {
      DeadIsUnreferenced(z, o);
    }
  }

  // ---- dup and dup2 ----

  /** An undisturbed dup returns a number that was free, which then names what the old one does. */
  lemma DupReturns(s: Sys, t: nat, fd: int, slot: nat)
    requires Inv(s) && Can(s, DupGet(t, fd)) && Named(s, t, fd).Some? && IsFree(TableOf(s, t), slot)
    ensures Can(Do(s, DupGet(t, fd)), AddFd(t, slot))
    ensures var z := Do(Do(s, DupGet(t, fd)), AddFd(t, slot));
            && z.threads[t].call == Idle(NewFd(slot)) && OthersNamed(s, z, t, slot)
            && Named(z, t, slot) == Named(z, t, fd) == Named(s, t, fd)
  {
  }

  /** With no number free it fails with EMFILE and leaves files and tables as they were; a bad number is EBADF. */
  lemma DupFails(s: Sys, t: nat, fd: int)
    requires Inv(s) && Can(s, DupGet(t, fd))
    ensures Named(s, t, fd).None? ==>
              && Do(s, DupGet(t, fd)).threads[t].call == Idle(Failed(EBADF))
              && Do(s, DupGet(t, fd)).tables == s.tables && Do(s, DupGet(t, fd)).heap == s.heap
    ensures Named(s, t, fd).Some? && IsFull(TableOf(s, t)) ==>
              && Can(Do(s, DupGet(t, fd)), AddFull(t))
              && var z := Do(Do(s, DupGet(t, fd)), AddFull(t));
              && z.threads[t].call == Idle(Failed(EMFILE)) && z.tables == s.tables && z.heap == s.heap
  {
    if Named(s, t, fd).Some? && IsFull(TableOf(s, t)) {
      var o := Named(s, t, fd).value;
      SlotIsLive(s, s.threads[t].table, fd);
      LiveCount(s, o);
      HeldForAWhile(s.heap, o);
      var h := CloneFile(s.heap, o);
      assert [o][..0] == [] && DropAll(h, [o]) == DropFile(h, o);
    }
  }

  /** dup2 returns the new number, which then names what the old one does; it fails exactly if the old one names nothing. */
  lemma Dup2Outcome(s: Sys, t: nat, oldFd: int, newFd: int)
    requires Inv(s) && Can(s, Dup2(t, oldFd, newFd))
    ensures var z := Do(s, Dup2(t, oldFd, newFd));
            && OthersNamed(s, z, t, newFd)
            && (Named(s, t, oldFd).Some? ==>
                  z.threads[t].call == Idle(NewFd(newFd)) && Named(z, t, newFd) == Named(s, t, oldFd))
            && (Named(s, t, oldFd).None? ==>
                  z.threads[t].call == Idle(Failed(EBADF)) && z.tables == s.tables && z.heap == s.heap)
            && (forall o: nat :: o in z.heap.files <==> !NoReference(z, o))
  {
    StepKeepsInv(s, Dup2(t, oldFd, newFd));
    var z := Do(s, Dup2(t, oldFd, newFd));
    forall o: nat
      ensures o in z.heap.files <==> !NoReference(z, o)
    {
      DeadIsUnreferenced(z, o);
    }
  }

  // ---- pipe2 ----

  /**
   An undisturbed pipe2 returns two numbers that were free: the first names the read end of a new, empty
   pipe, the second its write end.
   */
  lemma Pipe2Returns(s: Sys, t: nat, a: nat, b: nat)
    requires Inv(s) && Can(s, Pipe2(t)) && IsFree(TableOf(s, t), a) && IsFree(TableOf(s, t), b) && a != b
    ensures var run := [Pipe2(t), AddFd(t, a), AddFd(t, b)];
            && Run(s, run).Some?
            && var z, p := Run(s, run).value, |s.pipes|;
            && z.threads[t].call == Idle(NewPipe(a, b)) && |z.pipes| == p + 1 && |z.threads| == |s.threads|
            && Ready(z, t, a, p, true) && Ready(z, t, b, p, false) && RingIs(z, p, [])
            && Inv(z) && !NoReference(z, z.pipes[p].r)
            && (forall fd: int :: fd != a && fd != b ==> Named(z, t, fd) == Named(s, t, fd))
  {
    Pipe2Steps(s, t, a, b);
    RunThree(s, Pipe2(t), AddFd(t, a), AddFd(t, b));
    var run := [Pipe2(t), AddFd(t, a), AddFd(t, b)];
    RunKeepsInv(s, run);
    var z := Run(s, run).value;
    assert z.tables[z.threads[t].table][a] == Some(z.pipes[|s.pipes|].r);
  }

  lemma Pipe2Steps(s: Sys, t: nat, a: nat, b: nat)
    requires Can(s, Pipe2(t)) && IsFree(TableOf(s, t), a) && IsFree(TableOf(s, t), b) && a != b
    ensures Can(DoPipe2(s, t), AddFd(t, a)) && Can(DoAddFd(DoPipe2(s, t), t, a), AddFd(t, b))
    ensures var z, p := DoAddFd(DoAddFd(DoPipe2(s, t), t, a), t, b), |s.pipes|;
            && z.threads[t].call == Idle(NewPipe(a, b)) && |z.pipes| == p + 1 && |z.threads| == |s.threads|
            && Ready(z, t, a, p, true) && Ready(z, t, b, p, false) && RingIs(z, p, [])
            && Named(z, t, a) == Some(z.pipes[p].r)
            && (forall fd: int :: fd != a && fd != b ==> Named(z, t, fd) == Named(s, t, fd))
  {
  }

  /** What is written to a new pipe comes out of it: pipe2, write and read one after another, with fewer than 256 bytes. */
  lemma FreshPipeWorks(s: Sys, t: nat, a: nat, b: nat, data: seq<byte>)
    requires Inv(s) && Can(s, Pipe2(t)) && IsFree(TableOf(s, t), a) && IsFree(TableOf(s, t), b) && a != b
    requires 0 < |data| < RING_BUFFER_SIZE
    ensures var s1 := Run(s, [Pipe2(t), AddFd(t, a), AddFd(t, b)]);
            && s1.Some?
            && var s2 := Run(s1.value, [WriteEnter(t, b, data), WriteCheck(t), WriteSection(t), Leave(t)]);
            && s2.Some? && t < |s2.value.threads| && s2.value.threads[t].call == Idle(Wrote(|data|))
            && var s3 := Run(s2.value, [ReadEnter(t, a, |data|), ReadSection(t), Leave(t)]);
            && s3.Some? && t < |s3.value.threads| && s3.value.threads[t].call == Idle(Got(data))
  {
    var p := |s.pipes|;
    Pipe2Returns(s, t, a, b);
    var m := Run(s, [Pipe2(t), AddFd(t, a), AddFd(t, b)]).value;
    SmallWriteReturns(m, t, b, p, data, []);
    var writing := [WriteEnter(t, b, data), WriteCheck(t), WriteSection(t), Leave(t)];
    var n := Run(m, writing).value;
    RunKeepsInv(m, writing);
    assert [] + data == data && data[..|data|] == data;
    ReadReturns(n, t, a, p, |data|, data);
  }

  /** With no number free it fails with EMFILE and leaves tables and files as they were. */
  lemma Pipe2Full(s: Sys, t: nat)
    requires Inv(s) && Can(s, Pipe2(t)) && IsFull(TableOf(s, t))
    ensures Can(DoPipe2(s, t), AddFull(t))
    ensures var z := DoAddFull(DoPipe2(s, t), t);
            && z.threads[t].call == Idle(Failed(EMFILE)) && z.tables == s.tables
            && (forall o: nat :: o in z.heap.files <==> o in s.heap.files)
  {
    var m := DoPipe2(s, t);
    var z := DoAddFull(m, t);
    StepKeepsInv(s, Pipe2(t));
    StepKeepsInv(m, AddFull(t));
    forall o: nat
      ensures o in z.heap.files <==> o in s.heap.files
    {
      DeadIsUnreferenced(s, o);
      DeadIsUnreferenced(z, o);
      SameReferences(s, z, t, o);
    }
  }

  lemma SameReferences(s: Sys, z: Sys, t: nat, o: nat)
    requires z.tables == s.tables && |z.threads| == |s.threads| && t < |s.threads|
    requires Held(s.threads[t].call) == [] && Held(z.threads[t].call) == []
    requires forall u :: 0 <= u < |s.threads| && u != t ==> z.threads[u] == s.threads[u]
    ensures NoReference(z, o) <==> NoReference(s, o)
  {
  }

  // ---- What a thread can always do ----

  /**
   Outside of a call every call can begin; dup2 alone panics, exactly if the old number is good and the new
   one outside the table.
   */
  lemma EveryCallCanBegin(s: Sys, t: nat)
    requires Inv(s) && t < |s.threads| && s.threads[t].call.Idle?
    ensures Can(s, Spawn(t)) && Can(s, Fork(t)) && Can(s, Exit(t)) && Can(s, Pipe2(t))
    ensures forall fd: int :: Can(s, Close(t, fd)) && Can(s, DupGet(t, fd))
    ensures forall a: int, b: int :: Can(s, Dup2(t, a, b)) <==>
              !(Named(s, t, a).Some? && a != b && !(0 <= b < AX_FILE_LIMIT))
  {
  }

  /** Reading and writing can begin on a number that names a pipe, or nothing. */
  lemma IoCanBegin(s: Sys, t: nat, fd: int, want: nat, data: seq<byte>)
    requires Inv(s) && t < |s.threads| && s.threads[t].call.Idle?
    requires Named(s, t, fd).Some? ==> s.heap.files[LiveFile(s, t, fd)].value.PipeEnd?
    ensures Can(s, ReadEnter(t, fd, want)) && Can(s, WriteEnter(t, fd, data))
  {
    if Named(s, t, fd).Some? {
      var o := LiveFile(s, t, fd);
    }
  }

  /** The file a number names; it is alive. */
  ghost function LiveFile(s: Sys, t: nat, fd: int): (o: nat)
    requires Inv(s) && Named(s, t, fd).Some?
    ensures Named(s, t, fd) == Some(o) && o in s.heap.files
  {
    SlotIsLive(s, s.threads[t].table, fd);
    Named(s, t, fd).value
  }
}
