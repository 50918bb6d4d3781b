/** Reference counts of the pipe system: what cloning, dropping and moving references keep. */
module PipeHeap {
  import opened Basics
  import opened RefCount
  import opened FdTable
  import opened PipeSystem

  // ---- Ends and buffers ----

  ghost function Live(h: Heap, e: Pipe): nat {
    (if e.r in h.files then 1 else 0) + (if e.w in h.files then 1 else 0)
  }

  /** A live pipe end is one of the two file objects its pipe was made with. */
  ghost predicate FileOk(h: Heap, pipes: seq<Pipe>, nextObj: nat, o: nat)
    requires o in h.files
  {
    && o < nextObj
    && var f := h.files[o].value;
    f.PipeEnd? ==> f.pipe < |pipes| && o == if f.readable then pipes[f.pipe].r else pipes[f.pipe].w
  }

  /** The buffer's count is the number of ends alive, and it dies with the last one. */
  ghost predicate PipeOk(h: Heap, pipes: seq<Pipe>, nextObj: nat, p: nat)
    requires p < |pipes|
  {
    var e := pipes[p];
    && e.r != e.w && e.r < nextObj && e.w < nextObj
    && (e.r in h.files ==> h.files[e.r].value == PipeEnd(p, true))
    && (e.w in h.files ==> h.files[e.w].value == PipeEnd(p, false))
    && Exact(h.bufs, p, Live(h, e))
  }

  ghost predicate BufsOk(h: Heap, pipes: seq<Pipe>, nextObj: nat) {
    && (forall o :: o in h.files ==> FileOk(h, pipes, nextObj, o))
    && (forall p :: 0 <= p < |pipes| ==> PipeOk(h, pipes, nextObj, p))
    && (forall p :: p in h.bufs ==> p < |pipes|)
  }

  /** Nothing new appears and nothing that stays changes value. */
  ghost predicate Shrinks(h: Heap, h': Heap) {
    && (forall o :: o in h'.files ==> o in h.files && h'.files[o].value == h.files[o].value)
    && (forall p :: p in h'.bufs ==> p in h.bufs && h'.bufs[p].value == h.bufs[p].value)
  }

  lemma CloneFileKeeps(h: Heap, pipes: seq<Pipe>, nextObj: nat, o: nat)
    requires BufsOk(h, pipes, nextObj)
    ensures BufsOk(CloneFile(h, o), pipes, nextObj)
    ensures Shrinks(h, CloneFile(h, o)) && Shrinks(CloneFile(h, o), h)
  {
    var h' := CloneFile(h, o);
    forall x | x in h'.files
      ensures FileOk(h', pipes, nextObj, x)
    {
      assert FileOk(h, pipes, nextObj, x);
    }
    forall p | 0 <= p < |pipes|
      ensures PipeOk(h', pipes, nextObj, p)
    {
      assert PipeOk(h, pipes, nextObj, p);
    }
  }

  lemma DropFileKeeps(h: Heap, pipes: seq<Pipe>, nextObj: nat, o: nat)
    requires BufsOk(h, pipes, nextObj)
    ensures BufsOk(DropFile(h, o), pipes, nextObj)
    ensures Shrinks(h, DropFile(h, o))
  {
    var h' := DropFile(h, o);
    if o in h.files {
      assert FileOk(h, pipes, nextObj, o);
    }
    forall x | x in h'.files
      ensures FileOk(h', pipes, nextObj, x)
    {
      assert FileOk(h, pipes, nextObj, x);
    }
    forall p | 0 <= p < |pipes|
      ensures PipeOk(h', pipes, nextObj, p)
    {
      assert PipeOk(h, pipes, nextObj, p);
    }
  }

  lemma {:induction false} CloneAllKeeps(h: Heap, pipes: seq<Pipe>, nextObj: nat, os: seq<nat>)
    requires BufsOk(h, pipes, nextObj)
    ensures BufsOk(CloneAll(h, os), pipes, nextObj)
    ensures Shrinks(h, CloneAll(h, os)) && Shrinks(CloneAll(h, os), h)
  {
    if os != [] {
      var n := |os| - 1;
      CloneAllKeeps(h, pipes, nextObj, os[..n]);
      CloneFileKeeps(CloneAll(h, os[..n]), pipes, nextObj, os[n]);
    }
  }

  lemma {:induction false} DropAllKeeps(h: Heap, pipes: seq<Pipe>, nextObj: nat, os: seq<nat>)
    requires BufsOk(h, pipes, nextObj)
    ensures BufsOk(DropAll(h, os), pipes, nextObj)
    ensures Shrinks(h, DropAll(h, os))
  {
    if os != [] {
      var n := |os| - 1;
      DropAllKeeps(h, pipes, nextObj, os[..n]);
      DropFileKeeps(DropAll(h, os[..n]), pipes, nextObj, os[n]);
    }
  }

  lemma {:induction false} CloneAllCounts(h: Heap, os: seq<nat>, o: nat, n: nat)
    requires Exact(h.files, o, n)
    requires Occ(os, o) > 0 ==> n > 0
    ensures Exact(CloneAll(h, os).files, o, n + Occ(os, o))
  {
    if os != [] {
      CloneAllCounts(h, os[..|os| - 1], o, n);
    }
  }

  lemma {:induction false} DropAllCounts(h: Heap, os: seq<nat>, o: nat, n: nat)
    requires Exact(h.files, o, n)
    requires Occ(os, o) <= n
    ensures Exact(DropAll(h, os).files, o, n - Occ(os, o))
  {
    if os != [] {
      DropAllCounts(h, os[..|os| - 1], o, n);
    }
  }

  // ---- Counting references ----

  lemma {:induction false} TableRefsUpdate(tables: seq<Slots>, i: nat, x: Slots, o: nat)
    requires i < |tables|
    ensures TableRefs(tables[i := x], o) + Occ(Objs(tables[i]), o) == TableRefs(tables, o) + Occ(Objs(x), o)
  {
    var n, u := |tables| - 1, tables[i := x];
    if i < n {
      TableRefsUpdate(tables[..n], i, x, o);
      assert u[..n] == tables[..n][i := x];
    } else {
      assert u[..n] == tables[..n];
    }
  }

  lemma {:induction false} CallRefsUpdate(threads: seq<Thread>, i: nat, x: Thread, o: nat)
    requires i < |threads|
    ensures CallRefs(threads[i := x], o) + Occ(Held(threads[i].call), o)
         == CallRefs(threads, o) + Occ(Held(x.call), o)
  {
    var n, u := |threads| - 1, threads[i := x];
    if i < n {
      CallRefsUpdate(threads[..n], i, x, o);
      assert u[..n] == threads[..n][i := x];
    } else {
      assert u[..n] == threads[..n];
    }
  }

  lemma {:induction false} TableRefsBound(tables: seq<Slots>, i: nat, o: nat)
    requires i < |tables|
    ensures Occ(Objs(tables[i]), o) <= TableRefs(tables, o)
  {
    var n := |tables| - 1;
    if i < n {
      TableRefsBound(tables[..n], i, o);
    }
  }

  lemma {:induction false} CallRefsBound(threads: seq<Thread>, i: nat, o: nat)
    requires i < |threads|
    ensures Occ(Held(threads[i].call), o) <= CallRefs(threads, o)
  {
    var n := |threads| - 1;
    if i < n {
      CallRefsBound(threads[..n], i, o);
    }
  }

  ghost predicate InSlots(t: Slots, o: nat) {
    exists fd :: 0 <= fd < AX_FILE_LIMIT && t[fd] == Some(o)
  }

  /** A reference counted in the tables is in some slot, and the other way round. */
  lemma {:induction false} TableRefsWitness(tables: seq<Slots>, o: nat)
    ensures TableRefs(tables, o) > 0 <==> exists i :: 0 <= i < |tables| && InSlots(tables[i], o)
  {
    if tables != [] {
      var n := |tables| - 1;
      var front := tables[..n];
      SlotsRefs(tables[n], o);
      TableRefsWitness(front, o);
      assert forall i :: 0 <= i < n ==> front[i] == tables[i];
      assert TableRefs(tables, o) == TableRefs(front, o) + Occ(Objs(tables[n]), o);
      if TableRefs(front, o) > 0 {
        var i :| 0 <= i < |front| && InSlots(front[i], o);
        assert InSlots(tables[i], o);
      }
      if i :| 0 <= i < |tables| && InSlots(tables[i], o) {
        assert i < n ==> InSlots(front[i], o);
      }
    }
  }

  lemma SlotsRefs(t: Slots, o: nat)
    ensures Occ(Objs(t), o) > 0 <==> InSlots(t, o)
  {
    OccMember(Objs(t), o);
    ObjsMember(t, o);
  }

  lemma {:induction false} CallRefsWitness(threads: seq<Thread>, o: nat)
    ensures CallRefs(threads, o) > 0 <==> exists i :: 0 <= i < |threads| && o in Held(threads[i].call)
  {
    if threads != [] {
      var n := |threads| - 1;
      CallRefsWitness(threads[..n], o);
      OccMember(Held(threads[n].call), o);
      if CallRefs(threads[..n], o) > 0 {
        var i :| 0 <= i < n && o in Held(threads[..n][i].call);
        assert o in Held(threads[i].call);
      }
      if i :| 0 <= i < |threads| && o in Held(threads[i].call) {
        if i < n {
          assert o in Held(threads[..n][i].call);
        }
      }
    }
  }

  ghost predicate CountsExact(s: Sys) {
    forall o: nat :: Exact(s.heap.files, o, Refs(s, o))
  }

  /** Every file a slot names is live. */
  lemma SlotIsLive(s: Sys, i: nat, fd: nat)
    requires CountsExact(s) && i < |s.tables| && fd < AX_FILE_LIMIT && s.tables[i][fd].Some?
    ensures s.tables[i][fd].value in s.heap.files
    ensures Refs(s, s.tables[i][fd].value) > 0
  {
    var o := s.tables[i][fd].value;
    TableRefsWitness(s.tables, o);
    assert InSlots(s.tables[i], o);
    assert Exact(s.heap.files, o, Refs(s, o));
  }

  /** Every file a call in flight holds is live. */
  lemma HeldIsLive(s: Sys, t: nat, o: nat)
    requires CountsExact(s) && t < |s.threads| && o in Held(s.threads[t].call)
    ensures o in s.heap.files
    ensures Refs(s, o) > 0
  {
    CallRefsWitness(s.threads, o);
    assert Exact(s.heap.files, o, Refs(s, o));
  }
}
