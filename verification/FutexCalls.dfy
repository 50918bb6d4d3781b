/** The futex table and one wake or requeue call run without interruption, in the form the code has. */
module FutexCalls {
  import opened Basics
  import Futex

  class WaitQueue {
    var tasks: seq<nat>

    constructor ()
      ensures tasks == []
    {
      tasks := [];
    }

    method NotifyOne() returns (woke: Option<nat>)
      modifies this
      ensures woke.None? <==> old(tasks) == []
      ensures old(tasks) == (if woke.Some? then [woke.value] else []) + tasks
    {
      if tasks == [] {
        woke := None;
      } else {
        woke := Some(tasks[0]);
        tasks := tasks[1..];
      }
    }

    method Requeue(n: nat, target: WaitQueue) returns (moved: seq<nat>)
      modifies this, target
      ensures moved == old(tasks)[..Min(n, |old(tasks)|)]
      ensures this != target ==> moved + tasks == old(tasks) && target.tasks == old(target.tasks) + moved
      ensures this == target ==> tasks == old(tasks)[|moved|..] + moved
    {
      moved := tasks[..Min(n, |tasks|)];
      tasks := tasks[|moved|..];
      target.tasks := target.tasks + moved;
    }
  }

  class FutexTable {
    var table: map<nat, WaitQueue>

    constructor ()
      ensures table == map[]
    {
      table := map[];
    }

    method Get(addr: nat) returns (wq: WaitQueue?)
      ensures wq == null <==> addr !in table
      ensures wq != null ==> addr in table && wq == table[addr]
    {
      wq := if addr in table then table[addr] else null;
    }

    method GetOrInsert(addr: nat) returns (wq: WaitQueue)
      modifies this
      ensures table == old(table)[addr := wq]
      ensures addr in old(table) ==> wq == old(table)[addr]
      ensures addr !in old(table) ==> fresh(wq) && wq.tasks == []
    {
      if addr !in table {
        wq := new WaitQueue();
        table := table[addr := wq];
      } else {
        wq := table[addr];
        assert table[addr := wq] == table;
      }
    }
  }

  /** The wake loop: the longest-waiting tasks, as many as asked for and present, in order. */
  method NotifyUpTo(wq: WaitQueue, value: nat) returns (count: nat, woken: seq<nat>)
    modifies wq
    ensures woken + wq.tasks == old(wq.tasks)
    ensures |woken| == count == Min(value, |old(wq.tasks)|)
  {
    count, woken := 0, [];
    while count < value
      invariant count == |woken| <= value
      invariant woken + wq.tasks == old(wq.tasks)
    {
      var woke := wq.NotifyOne();
      if woke.None? {
        break;
      }
      woken := woken + [woke.value];
      count := count + 1;
    }
  }

  /** FUTEX_WAKE on an address. */
  method FutexWake(ft: FutexTable, addr: nat, value: nat) returns (count: nat, woken: seq<nat>)
    modifies ft.table.Values
    ensures count == |woken|
    ensures addr !in ft.table ==> count == 0
    ensures addr in ft.table ==>
              && count == Min(value, |old(ft.table[addr].tasks)|)
              && woken + ft.table[addr].tasks == old(ft.table[addr].tasks)
    ensures forall a :: a in ft.table && (addr !in ft.table || ft.table[a] != ft.table[addr]) ==>
              ft.table[a].tasks == old(ft.table[a].tasks)
  {
    count, woken := 0, [];
    var wq := ft.Get(addr);
    if wq != null {
      count, woken := NotifyUpTo(wq, value);
    }
  }

  /**
   FUTEX_REQUEUE from one queue to another. Woken, moved and remaining tasks are the original queue,
   in order; none move unless all `value` tasks were found; the result counts both.
   */
  method RequeueTasks(wq: WaitQueue?, wq2: WaitQueue, value: nat, value2: nat)
    returns (count: nat, woken: seq<nat>, moved: seq<nat>)
    modifies wq, wq2
    ensures count == |woken| + |moved| && |woken| <= value && |moved| <= value2
    ensures wq == null ==> count == 0 && wq2.tasks == old(wq2.tasks)
    ensures wq != null ==>
              var split := Futex.SplitTasks(old(wq.tasks), value, value2);
              && woken == split.0 && moved == split.1
              && (wq != wq2 ==> wq.tasks == split.2 && wq2.tasks == old(wq2.tasks) + moved)
              && (wq == wq2 ==> wq.tasks == split.2 + moved)
  {
    count, woken, moved := 0, [], [];
    if wq != null {
      ghost var all := wq.tasks;
      count, woken := NotifyUpTo(wq, value);
      ghost var left := wq.tasks;
      if count == value {
        moved := wq.Requeue(value2, wq2);
        count := count + |moved|;
        assert left == moved + left[|moved|..] && all == woken + moved + left[|moved|..];
        assert left[|moved|..] == Futex.SplitTasks(all, value, value2).2;
      }
    }
  }
}
