/** `pipe2` against a full table, alone and with other threads at the same table. */
module PipeCreation {
  import opened Basics
  import opened RefCount
  import opened PipeRing
  import opened FdTable
  import opened PipeSystem
  import opened PipeCounts
  import opened PipeFlow

  lemma RunSnoc(s: Sys, run: seq<Action>, m: Sys, a: Action)
    requires Run(s, run) == Some(m) && Can(m, a)
    ensures Run(s, run + [a]) == Some(Do(m, a))
  {
    assert (run + [a])[..|run|] == run;
  }

  /** Dropping both ends of a pipe that was just made, write end first, gives back the old heap. */
  lemma UndoPair(h: Heap, r: nat, p: nat, ring: Ring)
    requires r !in h.files && r + 1 !in h.files && p !in h.bufs
    ensures var h2 := Heap(h.files[r := Arc(1, PipeEnd(p, true))][r + 1 := Arc(1, PipeEnd(p, false))],
                           h.bufs[p := Arc(2, ring)]);
            DropFile(DropAll(h2, [r + 1]), r) == h
  {
    var h2 := Heap(h.files[r := Arc(1, PipeEnd(p, true))][r + 1 := Arc(1, PipeEnd(p, false))],
                   h.bufs[p := Arc(2, ring)]);
    assert DropAll(h2, [r + 1]) == DropFile(DropAll(h2, [r + 1][..0]), r + 1);
    var h1 := DropFile(h2, r + 1);
    assert h1.files == h.files[r := Arc(1, PipeEnd(p, true))];
    assert h1.bufs == h.bufs[p := Arc(1, ring)];
    assert DropFile(h1, r).files == h.files && DropFile(h1, r).bufs == h.bufs;
  }

  /**
   A pipe2 that finds one free slot but not two, undisturbed: it reports EMFILE, and tables, files
   and buffers are exactly as before.
   */
  lemma RefusedPipe2LeavesNothing(s: Sys, t: nat, fd: nat)
    requires Inv(s) && Can(s, Pipe2(t)) && IsFree(TableOf(s, t), fd)
    requires forall i :: 0 <= i < AX_FILE_LIMIT && i != fd ==> TableOf(s, t)[i].Some?
    ensures var s1 := Do(s, Pipe2(t));
            && Can(s1, AddFd(t, fd))
            && var s2 := Do(s1, AddFd(t, fd));
            && Can(s2, AddFull(t))
            && var s3 := Do(s2, AddFull(t));
            && Can(s3, Rollback(t))
            && var z := Do(s3, Rollback(t));
            && z.tables == s.tables && z.heap == s.heap
            && z.threads == SetCall(s, t, Idle(Failed(EMFILE))).threads
  {
    RefusedHead(s, t, fd);
    RefusedTail(DoAddFd(DoPipe2(s, t), t, fd), t, fd, s.nextObj, s.heap, TableOf(s, t));
  }

  /** The first two steps: the pipe is made and its read end takes the last free slot. */
  lemma RefusedHead(s: Sys, t: nat, fd: nat)
    requires Inv(s) && Can(s, Pipe2(t)) && IsFree(TableOf(s, t), fd)
    requires forall i :: 0 <= i < AX_FILE_LIMIT && i != fd ==> TableOf(s, t)[i].Some?
    ensures Can(DoPipe2(s, t), AddFd(t, fd))
    ensures var m := DoAddFd(DoPipe2(s, t), t, fd);
            && m.heap == DoPipe2(s, t).heap && |m.pipes| == |s.pipes| + 1
            && m.tables == s.tables[s.threads[t].table := TableOf(s, t)[fd := Some(s.nextObj)]]
            && m.threads == SetCall(s, t, PipeReadAdded(fd, s.nextObj + 1)).threads
            && IsFull(TableOf(m, t))
    ensures s.nextObj !in s.heap.files && s.nextObj + 1 !in s.heap.files && |s.pipes| !in s.heap.bufs
  {
    Pipe2Bufs(s, t);
  }

  /** The last two steps: the write end is refused and dropped, then the read end is closed. */
  lemma RefusedTail(s: Sys, t: nat, fd: nat, r: nat, h: Heap, slots: Slots)
    requires t < |s.threads| && s.threads[t].table < |s.tables| && fd < AX_FILE_LIMIT && slots[fd].None?
    requires s.threads[t].call == PipeReadAdded(fd, r + 1)
    requires TableOf(s, t) == slots[fd := Some(r)] && IsFull(TableOf(s, t))
    requires r !in h.files && r + 1 !in h.files && |s.pipes| > 0 && |s.pipes| - 1 !in h.bufs
    requires s.heap.files
          == h.files[r := Arc(1, PipeEnd(|s.pipes| - 1, true))][r + 1 := Arc(1, PipeEnd(|s.pipes| - 1, false))]
    requires s.heap.bufs == h.bufs[|s.pipes| - 1 := Arc(2, NewRing())]
    ensures Can(s, AddFull(t)) && Can(DoAddFull(s, t), Rollback(t))
    ensures DoRollback(DoAddFull(s, t), t).heap == h
    ensures DoRollback(DoAddFull(s, t), t).tables == s.tables[s.threads[t].table := slots]
    ensures DoRollback(DoAddFull(s, t), t).threads == SetCall(s, t, Idle(Failed(EMFILE))).threads
  {
    UndoPair(h, r, |s.pipes| - 1, NewRing());
    assert slots[fd := Some(r)][fd := None] == slots;
  }

  ghost predicate Unshared(s: Sys, t: nat)
    requires t < |s.threads|
  {
    forall u :: 0 <= u < |s.threads| && u != t ==> s.threads[u].table != s.threads[t].table
  }

  /** A table used by one thread only is left alone by everything the others do. */
  lemma {:induction false} UnsharedTableIsStable(s: Sys, t: nat, run: seq<Action>)
    requires t < |s.threads| && s.threads[t].table < |s.tables| && Unshared(s, t)
    requires forall i :: 0 <= i < |run| ==> run[i].t != t
    requires Run(s, run).Some?
    ensures var z := Run(s, run).value;
            && t < |z.threads| && z.threads[t] == s.threads[t]
            && |s.tables| <= |z.tables| && TableOf(z, t) == TableOf(s, t) && Unshared(z, t)
  {
    if run != [] {
      var n := |run| - 1;
      UnsharedTableIsStable(s, t, run[..n]);
      OthersKeepTable(Run(s, run[..n]).value, t, run[n]);
    }
  }

  lemma OthersKeepTable(s: Sys, t: nat, a: Action)
    requires t < |s.threads| && s.threads[t].table < |s.tables| && Unshared(s, t) && a.t != t && Can(s, a)
    ensures var z := Do(s, a);
            && t < |z.threads| && z.threads[t] == s.threads[t]
            && |s.tables| <= |z.tables| && TableOf(z, t) == TableOf(s, t) && Unshared(z, t)
  {
    if a.Spawn? || a.Fork? || a.Exit? {
      ProcessStepKeepsTable(s, t, a);
    } else {
      FileStepKeepsTable(s, t, a);
    }
  }

  lemma ProcessStepKeepsTable(s: Sys, t: nat, a: Action)
    requires t < |s.threads| && s.threads[t].table < |s.tables| && Unshared(s, t) && a.t != t && Can(s, a)
    requires a.Spawn? || a.Fork? || a.Exit?
    ensures var z := Do(s, a);
            && t < |z.threads| && z.threads[t] == s.threads[t]
            && |s.tables| <= |z.tables| && TableOf(z, t) == TableOf(s, t) && Unshared(z, t)
  {
  }

  lemma FileStepKeepsTable(s: Sys, t: nat, a: Action)
    requires t < |s.threads| && s.threads[t].table < |s.tables| && Unshared(s, t) && a.t != t && Can(s, a)
    requires !a.Spawn? && !a.Fork? && !a.Exit?
    ensures var z := Do(s, a);
            && t < |z.threads| && z.threads[t] == s.threads[t]
            && |s.tables| <= |z.tables| && TableOf(z, t) == TableOf(s, t) && Unshared(z, t)
  {
  }

  /** With its table unshared, pipe2's rollback finds its read end still there, whatever others did. */
  lemma RollbackFindsReadEnd(s: Sys, t: nat, run: seq<Action>)
    requires t < |s.threads| && s.threads[t].table < |s.tables| && Unshared(s, t)
    requires s.threads[t].call.PipeRollback? && Lookup(TableOf(s, t), s.threads[t].call.readFd).Some?
    requires forall i :: 0 <= i < |run| ==> run[i].t != t
    requires Run(s, run).Some?
    ensures Can(Run(s, run).value, Rollback(t))
    ensures Lookup(TableOf(Run(s, run).value, t), s.threads[t].call.readFd)
            == Lookup(TableOf(s, t), s.threads[t].call.readFd)
  {
    UnsharedTableIsStable(s, t, run);
  }

  /**
   With the table shared it need not: a second thread that closes the new descriptor in between
   leaves the rollback nothing to close, and the kernel's `unwrap` of that failure panics.
   */
  lemma RollbackRace(s: Sys, t: nat, u: nat)
    requires t < |s.threads| && u < |s.threads| && t != u && s.threads[t].table < |s.tables|
    requires s.threads[t].call.PipeReadAdded? && s.threads[u].call.Idle?
    requires s.threads[u].table == s.threads[t].table
    requires IsFull(TableOf(s, t)) && s.threads[t].call.readFd < AX_FILE_LIMIT
    ensures var fd := s.threads[t].call.readFd;
            var z := Run(s, [AddFull(t), Close(u, fd)]);
            && z.Some? && t < |z.value.threads| && z.value.threads[t].call == PipeRollback(fd)
            && !Can(z.value, Rollback(t))
  {
    var fd := s.threads[t].call.readFd;
    var m := DoAddFull(s, t);
    assert TableOf(m, u)[fd].Some?;
    RunSnoc(s, [], s, AddFull(t));
    RunSnoc(s, [] + [AddFull(t)], m, Close(u, fd));
    assert [] + [AddFull(t)] + [Close(u, fd)] == [AddFull(t), Close(u, fd)];
  }

  /** No step of thread `t`. */
  ghost predicate ByOthers(run: seq<Action>, t: nat) {
    forall i :: 0 <= i < |run| ==> run[i].t != t
  }

  ghost predicate CanRollBack(s: Sys, run: seq<Action>, t: nat) {
    Run(s, run).Some? && Can(Run(s, run).value, Rollback(t))
  }

  ghost predicate RollbackAlwaysWorks(s: Sys, t: nat) {
    forall run :: ByOthers(run, t) && Run(s, run).Some? ==> CanRollBack(s, run, t)
  }

  lemma CloseEmpties(s: Sys, t: nat, u: nat)
    requires t < |s.threads| && s.threads[t].table < |s.tables| && s.threads[t].call.PipeRollback?
    requires Lookup(TableOf(s, t), s.threads[t].call.readFd).Some?
    requires u < |s.threads| && u != t && s.threads[u].table == s.threads[t].table && s.threads[u].call.Idle?
    ensures var a := Close(u, s.threads[t].call.readFd);
            Can(s, a) && !Can(Do(s, a), Rollback(t))
  {
  }

  // ---- With sharing threads inside calls of their own ----

  ghost predicate SharerIdle(s: Sys, t: nat) {
    t < |s.threads| && exists u :: 0 <= u < |s.threads| && Sharer(s, t, u) && s.threads[u].call.Idle?
  }

  ghost predicate Sharer(s: Sys, t: nat, u: nat)
    requires t < |s.threads| && u < |s.threads|
  {
    u != t && s.threads[u].table == s.threads[t].table
  }

  /** No run of the other threads brings one that shares the table out of its call. */
  ghost predicate SharersStayBusy(s: Sys, t: nat) {
    forall run :: ByOthers(run, t) && Run(s, run).Some? ==> !SharerIdle(Run(s, run).value, t)
  }

  /** A step of a thread that is inside a call before and after empties no slot. */
  lemma BusyStep(s: Sys, t: nat, a: Action, fd: int)
    requires Can(s, a) && a.t != t && t < |s.threads| && s.threads[t].table < |s.tables|
    requires Lookup(TableOf(s, t), fd).Some?
    requires Sharer(s, t, a.t) ==> !s.threads[a.t].call.Idle? && !Do(s, a).threads[a.t].call.Idle?
    ensures var z := Do(s, a);
            && t < |z.threads| && z.threads[t] == s.threads[t] && s.threads[t].table < |z.tables|
            && Lookup(TableOf(z, t), fd) == Lookup(TableOf(s, t), fd)
  {
  }

  lemma {:induction false} BusyRun(s: Sys, t: nat, run: seq<Action>, fd: int)
    requires t < |s.threads| && s.threads[t].table < |s.tables| && Lookup(TableOf(s, t), fd).Some?
    requires SharersStayBusy(s, t) && ByOthers(run, t) && Run(s, run).Some?
    ensures var z := Run(s, run).value;
            && t < |z.threads| && z.threads[t] == s.threads[t] && s.threads[t].table < |z.tables|
            && Lookup(TableOf(z, t), fd) == Lookup(TableOf(s, t), fd)
  {
    if run != [] {
      var n := |run| - 1;
      var m, a := Run(s, run[..n]).value, run[n];
      BusyRun(s, t, run[..n], fd);
      assert ByOthers(run[..n], t);
      assert !SharerIdle(m, t) && !SharerIdle(Run(s, run).value, t);
      SharersKept(m, t, a);
      BusyStep(m, t, a, fd);
    }
  }

  lemma SharersKept(s: Sys, t: nat, a: Action)
    requires Can(s, a) && a.t != t && t < |s.threads|
    requires !SharerIdle(s, t) && !SharerIdle(Do(s, a), t)
    ensures Sharer(s, t, a.t) ==> !s.threads[a.t].call.Idle? && !Do(s, a).threads[a.t].call.Idle?
  {
    if Sharer(s, t, a.t) {
      TablesStay(s, t, a);
      assert Sharer(Do(s, a), t, a.t);
    }
  }

  lemma TablesStay(s: Sys, t: nat, a: Action)
    requires Can(s, a) && t < |s.threads|
    ensures |s.threads| <= |Do(s, a).threads|
    ensures Do(s, a).threads[t].table == s.threads[t].table && Do(s, a).threads[a.t].table == s.threads[a.t].table
  {
  }

  /**
   In general the rollback cannot fail, whatever the others do, if and only if no run of theirs brings a
   thread that shares the table out of its call.
   */
  lemma RollbackSafeIff(s: Sys, t: nat)
    requires t < |s.threads| && s.threads[t].table < |s.tables|
    requires s.threads[t].call.PipeRollback? && Lookup(TableOf(s, t), s.threads[t].call.readFd).Some?
    ensures RollbackAlwaysWorks(s, t) <==> SharersStayBusy(s, t)
  {
    if SharersStayBusy(s, t) {
      forall run | ByOthers(run, t) && Run(s, run).Some?
        ensures CanRollBack(s, run, t)
      {
        BusyRun(s, t, run, s.threads[t].call.readFd);
      }
    } else {
      var run :| ByOthers(run, t) && Run(s, run).Some? && SharerIdle(Run(s, run).value, t);
      if CanRollBack(s, run, t) {
        CloseAfter(s, t, run);
      }
    }
  }

  lemma CloseAfter(s: Sys, t: nat, run: seq<Action>)
    requires t < |s.threads| && ByOthers(run, t) && CanRollBack(s, run, t) && SharerIdle(Run(s, run).value, t)
    ensures !RollbackAlwaysWorks(s, t)
  {
    var z := Run(s, run).value;
    var u :| 0 <= u < |z.threads| && Sharer(z, t, u) && z.threads[u].call.Idle?;
    var a := Close(u, z.threads[t].call.readFd);
    CloseEmpties(z, t, u);
    RunSnoc(s, run, z, a);
    Defeated(s, t, run + [a]);
  }

  lemma Defeated(s: Sys, t: nat, run: seq<Action>)
    requires ByOthers(run, t) && Run(s, run).Some? && !Can(Run(s, run).value, Rollback(t))
    ensures !RollbackAlwaysWorks(s, t)
  {
    assert !CanRollBack(s, run, t);
  }

  /** Thread `u` is outside of a call, or at the end of one, or one step of its own away from that. */
  ghost predicate Finishing(s: Sys, u: nat) {
    && u < |s.threads| && s.threads[u].table < |s.tables|
    && (AtEnd(s.threads[u].call) || exists a :: Finishes(s, a, u))
  }

  ghost predicate Finishes(s: Sys, a: Action, u: nat) {
    Can(s, a) && a.t == u && u < |Do(s, a).threads| && AtEnd(Do(s, a).threads[u].call)
  }

  predicate AtEnd(c: Call) { c.Idle? || c.Leaving? }

  /**
   As a condition on the state: with every thread that shares the table finishing, the rollback cannot fail,
   whatever the others do, if and only if nobody shares the table.
   */
  lemma RollbackSafeIffUnshared(s: Sys, t: nat)
    requires t < |s.threads| && s.threads[t].table < |s.tables|
    requires s.threads[t].call.PipeRollback? && Lookup(TableOf(s, t), s.threads[t].call.readFd).Some?
    requires forall u :: 0 <= u < |s.threads| && Sharer(s, t, u) ==> Finishing(s, u)
    ensures RollbackAlwaysWorks(s, t) <==> Unshared(s, t)
  {
    if Unshared(s, t) {
      forall run | ByOthers(run, t) && Run(s, run).Some?
        ensures CanRollBack(s, run, t)
      {
        RollbackFindsReadEnd(s, t, run);
      }
    } else {
      var u :| 0 <= u < |s.threads| && u != t && s.threads[u].table == s.threads[t].table;
      assert Sharer(s, t, u);
      FinishingGetsIdle(s, t, u);
      RollbackSafeIff(s, t);
    }
  }

  lemma FinishingGetsIdle(s: Sys, t: nat, u: nat)
    requires t < |s.threads| && u < |s.threads| && Sharer(s, t, u) && Finishing(s, u)
    ensures !SharersStayBusy(s, t)
  {
    if AtEnd(s.threads[u].call) {
      EndGetsIdle(s, t, u, [], s);
    } else {
      var a :| Finishes(s, a, u);
      RunSnoc(s, [], s, a);
      FinishingStep(s, t, u, a);
      EndGetsIdle(s, t, u, [] + [a], Do(s, a));
    }
  }

  lemma FinishingStep(s: Sys, t: nat, u: nat, a: Action)
    requires t < |s.threads| && u < |s.threads| && Sharer(s, t, u) && Finishes(s, a, u)
    ensures var m := Do(s, a);
            t < |m.threads| && Sharer(m, t, u) && m.threads[u].table < |m.tables| && AtEnd(m.threads[u].call)
  {
    TablesStay(s, t, a);
  }

  lemma EndGetsIdle(s: Sys, t: nat, u: nat, run: seq<Action>, m: Sys)
    requires Run(s, run) == Some(m) && ByOthers(run, t)
    requires t < |m.threads| && u < |m.threads| && Sharer(m, t, u) && m.threads[u].table < |m.tables|
    requires AtEnd(m.threads[u].call)
    ensures !SharersStayBusy(s, t)
  {
    if m.threads[u].call.Idle? {
      assert SharerIdle(m, t);
    } else {
      var a := Leave(u);
      RunSnoc(s, run, m, a);
      TablesStay(m, t, a);
      LeaveIsIdle(m, t, u);
      assert ByOthers(run + [a], t) && Run(s, run + [a]).Some?;
    }
  }

  lemma LeaveIsIdle(m: Sys, t: nat, u: nat)
    requires Can(m, Leave(u)) && t < |m.threads| && Sharer(m, t, u)
    ensures SharerIdle(DoLeave(m, u), t)
  {
    assert Sharer(DoLeave(m, u), t, u) && DoLeave(m, u).threads[u].call.Idle?;
  }

  // ---- What pipe2 holds on to ----

  /** Where the two ends `r` and `w` of a pipe2 call's pipe are, at each stage of the call. */
  ghost predicate EndsInHand(s: Sys, t: nat, r: nat, w: nat) {
    && t < |s.threads| && s.threads[t].table < |s.tables|
    && match s.threads[t].call
       case PipeMade(a, b) => a == r && b == w
       case PipeReadAdded(fd, b) => b == w && Lookup(TableOf(s, t), fd) == Some(r)
       case PipeRollback(fd) => Lookup(TableOf(s, t), fd) == Some(r)
       case Idle(NewPipe(fd, fd2)) => Lookup(TableOf(s, t), fd) == Some(r) && Lookup(TableOf(s, t), fd2) == Some(w)
       case Idle(Failed(e)) => e == EMFILE
       case _ => false
  }

  lemma OwnAdd(s: Sys, t: nat, a: Action, r: nat, w: nat)
    requires Can(s, a) && a.t == t && (a.AddFd? || a.AddFull?) && EndsInHand(s, t, r, w) && Unshared(s, t)
    ensures EndsInHand(Do(s, a), t, r, w) && Unshared(Do(s, a), t)
  {
  }

  /**
   With its table unshared, pipe2 has its own two ends at every stage, whatever the others do: the rollback
   closes this pipe's read end, and the numbers returned name this pipe's two ends.
   */
  lemma {:induction false} Pipe2KeepsItsEnds(s: Sys, t: nat, r: nat, w: nat, run: seq<Action>)
    requires t < |s.threads| && s.threads[t].table < |s.tables| && s.threads[t].call == PipeMade(r, w) && Unshared(s, t)
    requires forall i :: 0 <= i < |run| && run[i].t == t ==> run[i].AddFd? || run[i].AddFull?
    requires Run(s, run).Some?
    ensures EndsInHand(Run(s, run).value, t, r, w) && Unshared(Run(s, run).value, t)
    ensures Run(s, run).value.threads[t].call.PipeRollback? ==> CanRollBack(s, run, t)
  {
    if run != [] {
      var n := |run| - 1;
      Pipe2KeepsItsEnds(s, t, r, w, run[..n]);
      var m := Run(s, run[..n]).value;
      if run[n].t == t {
        OwnAdd(m, t, run[n], r, w);
      } else {
        OthersKeepTable(m, t, run[n]);
      }
    }
  }
}
