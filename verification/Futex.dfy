/**
 One process's futex table and the futex calls of its threads, as a concurrent system. Each lock-held
 section is one step: looking a queue up, inserting one, going to sleep, waking one thread, requeueing,
 and dropping a guard. Comparing the futex word and going to sleep are separate steps, as in the code.
 */
module Futex {
  import opened Basics
  import opened RefCount

  /** A reference to the wait queue of an address (`WaitQueueGuard`). */
  datatype Guard = Guard(key: nat, q: nat)

  datatype Ret =
    | Nothing
    | Again                                                      // EAGAIN
    | Awoken                                                     // a wait that ended
    | Woke(woken: seq<nat>, limit: nat)
    | Requeued(first: seq<nat>, moved: seq<nat>, value: nat, value2: nat)

  /** The number a wake or requeue call returns. */
  function Count(r: Ret): nat {
    match r
    case Woke(w, _) => |w|
    case Requeued(w, m, _, _) => |w| + |m|
    case _ => 0
  }

  datatype Call =
    | Idle(ret: Ret)
    | WaitChecked(addr: nat, timed: bool)                        // the word had the expected value
    | WaitArmed(g: Guard, timed: bool)                           // guard held, not asleep yet
    | Blocked(g: Guard, timed: bool, at: nat)                    // asleep in the queue of address `at`
    | Waking(g: Guard, value: nat, woken: seq<nat>)
    | RequeueBegun(addr: nat, addr2: nat, value: nat, value2: nat)
    | RequeueGot(source: Option<Guard>, addr2: nat, value: nat, value2: nat)
    | Requeueing(source: Option<Guard>, g2: Guard, value: nat, value2: nat, woken: seq<nat>)
    | Leaving(gs: seq<Guard>, result: Ret)                       // guards being dropped, first one first

  datatype Sys = Sys(
    mem: map<nat, int>,                                          // futex words; absent means 0
    table: map<nat, nat>,                                        // address to queue
    queues: map<nat, Arc<seq<nat>>>,                             // live queues: strong count, tasks in order
    threads: seq<Call>,
    nextQ: nat)

  function Word(s: Sys, a: nat): int {
    if a in s.mem then s.mem[a] else 0
  }

  function GuardsOf(c: Call): seq<Guard> {
    match c
    case WaitArmed(g, _) => [g]
    case Blocked(g, _, _) => [g]
    case Waking(g, _, _) => [g]
    case RequeueGot(source, _, _, _) => OptGuard(source)
    case Requeueing(source, g2, _, _, _) => OptGuard(source) + [g2]
    case Leaving(gs, _) => gs
    case _ => []
  }

  function OptGuard(g: Option<Guard>): seq<Guard> {
    if g.Some? then [g.value] else []
  }

  // ---- Steps ----

  datatype Action =
    | Spawn(t: nat)
    | Store(t: nat, addr: nat, word: int)                        // user code writes a futex word
    | WaitCheck(t: nat, addr: nat, wanted: int, timed: bool)
    | WaitGet(t: nat)
    | Sleep(t: nat)
    | Timeout(t: nat)
    | WakeGet(t: nat, addr: nat, value: nat)
    | ExitWake(t: nat, addr: nat)                                // clear_child_tid on thread exit
    | WakeStep(t: nat)
    | RequeueCheck(t: nat, addr: nat, addr2: nat, value: nat, value2: nat, compare: Option<int>)
    | RequeueGet(t: nat)
    | RequeueInsert(t: nat)
    | RequeueStep(t: nat)
    | DropGuard(t: nat)

  function SetCall(s: Sys, t: nat, c: Call): Sys
    requires t < |s.threads|
  {
    s.(threads := s.threads[t := c])
  }

  /** `FutexTable::get` for a key that is present: one more reference to its queue. */
  function TakeGuard(s: Sys, addr: nat): Sys
    requires addr in s.table
  {
    if s.table[addr] in s.queues then s.(queues := CloneRef(s.queues, s.table[addr])) else s
  }

  /** `FutexTable::get_or_insert`: the table and the guard both refer to a new queue. */
  function InsertGuard(s: Sys, addr: nat): Sys {
    if addr in s.table then TakeGuard(s, addr)
    else s.(table := s.table[addr := s.nextQ], queues := s.queues[s.nextQ := Arc(2, [])], nextQ := s.nextQ + 1)
  }

  function GuardFor(s: Sys, addr: nat): Guard
    requires addr in s.table
  {
    Guard(addr, s.table[addr])
  }

  predicate QueueIs(s: Sys, q: nat) {
    q in s.queues && forall i :: 0 <= i < |s.queues[q].value| ==>
                       s.queues[q].value[i] < |s.threads| && s.threads[s.queues[q].value[i]].Blocked?
  }

  predicate Can(s: Sys, a: Action) {
    && a.t < |s.threads|
    && var c := s.threads[a.t];
    match a
    case Spawn(_) => c.Idle?
    case Store(_, _, _) => c.Idle?
    case WaitCheck(_, _, _, _) => c.Idle?
    case WaitGet(_) => c.WaitChecked?
    case Sleep(_) => c.WaitArmed? && c.g.q in s.queues
    case Timeout(_) => c.Blocked? && c.timed && c.at == c.g.key && c.g.q in s.queues
    case WakeGet(_, _, _) => c.Idle?
    case ExitWake(_, _) => c.Idle?
    case WakeStep(_) => c.Waking? && QueueIs(s, c.g.q)
    case RequeueCheck(_, _, _, _, _, _) => c.Idle?
    case RequeueGet(_) => c.RequeueBegun?
    case RequeueInsert(_) => c.RequeueGot?
    case RequeueStep(_) => c.Requeueing? && c.g2.q in s.queues && (c.source.Some? ==> QueueIs(s, c.source.value.q))
    case DropGuard(_) => c.Leaving? && c.gs != [] && c.gs[0].q in s.queues
  }

  function Do(s: Sys, a: Action): Sys
    requires Can(s, a)
  {
    match a
    case Spawn(_) => s.(threads := s.threads + [Idle(Nothing)])
    case Store(_, addr, word) => s.(mem := s.mem[addr := word])
    case WaitCheck(t, addr, wanted, timed) =>
      SetCall(s, t, if Word(s, addr) != wanted then Idle(Again) else WaitChecked(addr, timed))
    case WaitGet(t) => DoWaitGet(s, t)
    case Sleep(t) => DoSleep(s, t)
    case Timeout(t) => DoTimeout(s, t)
    case WakeGet(t, addr, value) => DoWakeGet(s, t, addr, value)
    case ExitWake(t, addr) => DoWakeGet(s.(mem := s.mem[addr := 0]), t, addr, 1)
    case WakeStep(t) => DoWakeStep(s, t)
    case RequeueCheck(t, addr, addr2, value, value2, compare) =>
      SetCall(s, t, if compare.Some? && Word(s, addr) != compare.value then Idle(Again)
                    else RequeueBegun(addr, addr2, value, value2))
    case RequeueGet(t) => DoRequeueGet(s, t)
    case RequeueInsert(t) => DoRequeueInsert(s, t)
    case RequeueStep(t) => DoRequeueStep(s, t)
    case DropGuard(t) => DoDropGuard(s, t)
  }

  function DoWaitGet(s: Sys, t: nat): Sys
    requires Can(s, WaitGet(t))
  {
    var c := s.threads[t];
    var s' := InsertGuard(s, c.addr);
    SetCall(s', t, WaitArmed(GuardFor(s', c.addr), c.timed))
  }

  function DoSleep(s: Sys, t: nat): Sys
    requires Can(s, Sleep(t))
  {
    var c := s.threads[t];
    SetCall(SetTasks(s, c.g.q, s.queues[c.g.q].value + [t]), t, Blocked(c.g, c.timed, c.g.key))
  }

  /** A timed wait that was not requeued takes itself out of its queue. */
  function DoTimeout(s: Sys, t: nat): Sys
    requires Can(s, Timeout(t))
  {
    var c := s.threads[t];
    SetCall(SetTasks(s, c.g.q, Without(s.queues[c.g.q].value, t)), t, Leaving([c.g], Awoken))
  }

  function DoWakeGet(s: Sys, t: nat, addr: nat, value: nat): Sys
    requires t < |s.threads|
  {
    if addr in s.table then SetCall(TakeGuard(s, addr), t, Waking(GuardFor(s, addr), value, []))
    else SetCall(s, t, Idle(Woke([], value)))
  }

  /** One turn of the wake loop: it ends at the limit or at the first empty queue. */
  function DoWakeStep(s: Sys, t: nat): Sys
    requires Can(s, WakeStep(t))
  {
    var c := s.threads[t];
    var tasks := s.queues[c.g.q].value;
    if |c.woken| >= c.value || tasks == [] then SetCall(s, t, Leaving([c.g], Woke(c.woken, c.value)))
    else SetCall(NotifyOne(s, c.g.q), t, Waking(c.g, c.value, c.woken + [tasks[0]]))
  }

  /** `notify_one`: the task at the front becomes runnable and leaves its wait. */
  function NotifyOne(s: Sys, q: nat): Sys
    requires QueueIs(s, q) && s.queues[q].value != []
  {
    var u := s.queues[q].value[0];
    SetCall(SetTasks(s, q, s.queues[q].value[1..]), u, Leaving([s.threads[u].g], Awoken))
  }

  function DoRequeueGet(s: Sys, t: nat): Sys
    requires Can(s, RequeueGet(t))
  {
    var c := s.threads[t];
    if c.addr in s.table
    then SetCall(TakeGuard(s, c.addr), t, RequeueGot(Some(GuardFor(s, c.addr)), c.addr2, c.value, c.value2))
    else SetCall(s, t, RequeueGot(None, c.addr2, c.value, c.value2))
  }

  function DoRequeueInsert(s: Sys, t: nat): Sys
    requires Can(s, RequeueInsert(t))
  {
    var c := s.threads[t];
    var s' := InsertGuard(s, c.addr2);
    SetCall(s', t, Requeueing(c.source, GuardFor(s', c.addr2), c.value, c.value2, []))
  }

  /** One turn of the requeue call: wake up to `value`, and only if all of them were found, move the rest. */
  function DoRequeueStep(s: Sys, t: nat): Sys
    requires Can(s, RequeueStep(t))
  {
    var c := s.threads[t];
    if c.source.None? then SetCall(s, t, Leaving([c.g2], Requeued([], [], c.value, c.value2))) else
    var g := c.source.value;
    var tasks := s.queues[g.q].value;
    if |c.woken| < c.value then
      if tasks == [] then SetCall(s, t, Leaving([g, c.g2], Requeued(c.woken, [], c.value, c.value2)))
      else SetCall(NotifyOne(s, g.q), t,
                   Requeueing(c.source, c.g2, c.value, c.value2, c.woken + [tasks[0]]))
    else
      var moved := tasks[..Min(c.value2, |tasks|)];
      SetCall(MoveTasks(s, g.q, c.g2, |moved|), t, Leaving([g, c.g2], Requeued(c.woken, moved, c.value, c.value2)))
  }

  /** `WaitQueue::requeue`: the first `n` tasks go to the back of the other queue. */
  function MoveTasks(s: Sys, q: nat, g2: Guard, n: nat): Sys
    requires QueueIs(s, q) && g2.q in s.queues && n <= |s.queues[q].value|
  {
    var moved := s.queues[q].value[..n];
    var s1 := SetTasks(s, q, s.queues[q].value[n..]);
    var s2 := SetTasks(s1, g2.q, s1.queues[g2.q].value + moved);
    s2.(threads := Relocated(s.threads, moved, g2.key))
  }

  function Relocated(threads: seq<Call>, moved: seq<nat>, at: nat): (r: seq<Call>)
    ensures |r| == |threads|
  {
    seq(|threads|, i requires 0 <= i < |threads| =>
      if i in moved && threads[i].Blocked? then threads[i].(at := at) else threads[i])
  }

  /**
   `WaitQueueGuard::drop`: under the table lock, the entry is removed if this guard is the only
   reference left and nobody sleeps in the queue; then the guard's own reference goes.
   */
  function DoDropGuard(s: Sys, t: nat): Sys
    requires Can(s, DropGuard(t))
  {
    var c := s.threads[t];
    var g := c.gs[0];
    var s1 := if RemovesEntry(s, g) then RemoveEntry(s, g.key) else s;
    var s2 := if g.q in s1.queues then s1.(queues := DropRef(s1.queues, g.q)) else s1;
    SetCall(s2, t, if |c.gs| == 1 then Idle(c.result) else c.(gs := c.gs[1..]))
  }

  predicate RemovesEntry(s: Sys, g: Guard)
    requires g.q in s.queues
  {
    s.queues[g.q].count == 1 && s.queues[g.q].value == []
  }

  /** Removing an entry drops the table's reference to the queue that was there. */
  function RemoveEntry(s: Sys, key: nat): Sys {
    if key !in s.table then s
    else if s.table[key] in s.queues
    then s.(table := s.table - {key}, queues := DropRef(s.queues, s.table[key]))
    else s.(table := s.table - {key})
  }

  function SetTasks(s: Sys, q: nat, tasks: seq<nat>): Sys
    requires q in s.queues
  {
    s.(queues := s.queues[q := s.queues[q].(value := tasks)])
  }

  function Without(tasks: seq<nat>, t: nat): seq<nat> {
    if tasks == [] then []
    else if tasks[0] == t then tasks[1..]
    else [tasks[0]] + Without(tasks[1..], t)
  }

  /** The tasks a requeue wakes, moves and leaves: it moves none unless all `value` were there to wake. */
  function SplitTasks(tasks: seq<nat>, value: nat, value2: nat): (r: (seq<nat>, seq<nat>, seq<nat>))
    ensures r.0 + r.1 + r.2 == tasks
    ensures |r.0| == Min(value, |tasks|) && |r.1| == if |r.0| == value then Min(value2, |tasks| - value) else 0
  {
    var w := Min(value, |tasks|);
    var m := if w == value then Min(value2, |tasks| - w) else 0;
    (tasks[..w], tasks[w..w + m], tasks[w + m..])
  }

  // ---- Runs ----

  ghost function Run(s: Sys, run: seq<Action>): Option<Sys> {
    if run == [] then Some(s) else
    var m := Run(s, run[..|run| - 1]);
    if m.Some? && Can(m.value, run[|run| - 1]) then Some(Do(m.value, run[|run| - 1])) else None
  }

  ghost predicate Init(s: Sys) {
    s.table == map[] && s.queues == map[] && s.threads == [Idle(Nothing)]
  }
}
