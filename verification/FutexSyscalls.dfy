/** Whole futex calls, from an idle thread to the number it gets back, told by addresses, words and sleepers. */
module FutexSyscalls {
  import opened Basics
  import opened RefCount
  import opened Futex
  import opened FutexInvariant
  import opened FutexTheorems
  import opened FutexRuns

  // ---- Leaving a call ----

  /** Only thread `t` has changed, and reference counts. */
  ghost predicate SameSleepers(s: Sys, z: Sys, t: nat) {
    && z.table == s.table && z.mem == s.mem && |z.threads| == |s.threads|
    && (forall k :: TasksAt(z, k) == TasksAt(s, k))
    && (forall x :: 0 <= x < |s.threads| && x != t ==> z.threads[x] == s.threads[x])
  }

  lemma DropIsQuiet(s: Sys, t: nat)
    requires Inv(s) && t < |s.threads| && s.threads[t].Leaving?
    ensures Can(s, DropGuard(t)) && SameSleepers(s, DoDropGuard(s, t), t)
    ensures var c := s.threads[t];
            c.gs != []
            && DoDropGuard(s, t).threads[t] == if |c.gs| == 1 then Idle(c.result) else Leaving(c.gs[1..], c.result)
  {
    assert LimitsOk(s.threads[t]);
    GuardIsLive(s, t, 0);
    DropRemovesNothing(s, t);
  }

  /** However many guards a call still holds, once they are dropped the caller has the result that was decided. */
  lemma {:induction false} CallReturns(s: Sys, t: nat)
    requires Inv(s) && t < |s.threads| && s.threads[t].Leaving?
    ensures var run := seq(|s.threads[t].gs|, _ => DropGuard(t));
            && Run(s, run).Some?
            && SameSleepers(s, Run(s, run).value, t) && Run(s, run).value.threads[t] == Idle(s.threads[t].result)
    decreases |s.threads[t].gs|
  {
    DropIsQuiet(s, t);
    var c, m := s.threads[t], DoDropGuard(s, t);
    RunOne(s, DropGuard(t));
    RepeatedFront(DropGuard(t), |c.gs|);
    if |c.gs| > 1 {
      StepKeepsInv(s, DropGuard(t));
      CallReturns(m, t);
      RunConcat(s, [DropGuard(t)], m, seq(|c.gs| - 1, _ => DropGuard(t)));
    } else {
      assert [DropGuard(t)] + seq(0, _ => DropGuard(t)) == [DropGuard(t)];
    }
  }

  lemma RepeatedFront(a: Action, k: nat)
    requires k > 0
    ensures [a] + seq(k - 1, _ => a) == seq(k, _ => a)
  {
  }

  lemma RunOne(s: Sys, a: Action)
    requires Can(s, a)
    ensures Run(s, [a]) == Some(Do(s, a))
  {
    RunSnoc(s, [], s, a);
    assert [] + [a] == [a];
  }

  // ---- Waiting ----

  /** A store changes one word and moves no sleeper. */
  lemma StoreOutcome(s: Sys, t: nat, addr: nat, word: int)
    requires Can(s, Store(t, addr, word))
    ensures var z := Do(s, Store(t, addr, word));
            && (forall k :: Word(z, k) == if k == addr then word else Word(s, k))
            && z.threads == s.threads && forall k :: TasksAt(z, k) == TasksAt(s, k)
  {
  }

  /** A wait that finds the word as expected, undisturbed: the thread is asleep, last in line at its address. */
  lemma WaitSleeps(s: Sys, t: nat, addr: nat, timed: bool)
    requires Inv(s) && t < |s.threads| && s.threads[t].Idle?
    ensures var run := [WaitCheck(t, addr, Word(s, addr), timed), WaitGet(t), Sleep(t)];
            && Run(s, run).Some?
            && var z := Run(s, run).value;
            && |z.threads| == |s.threads|
            && z.threads[t].Blocked? && z.threads[t].at == addr && z.threads[t].timed == timed
            && (forall k :: TasksAt(z, k) == TasksAt(s, k) + if k == addr then [t] else [])
            && (forall x :: 0 <= x < |s.threads| && x != t ==> z.threads[x] == s.threads[x])
  {
    var a := WaitCheck(t, addr, Word(s, addr), timed);
    var m1 := Do(s, a);
    StepKeepsInv(s, a);
    WaitArms(m1, t);
    var m2 := DoWaitGet(m1, t);
    ArmedSleeps(m2, t);
    SleepAddsLast(m2, t);
    RunThree(s, a, WaitGet(t), Sleep(t));
    assert forall k :: TasksAt(m1, k) == TasksAt(s, k);
  }

  lemma WaitArms(s: Sys, t: nat)
    requires Inv(s) && t < |s.threads| && s.threads[t].WaitChecked?
    ensures Can(s, WaitGet(t))
    ensures var m, c := DoWaitGet(s, t), s.threads[t];
            && Inv(m) && |m.threads| == |s.threads| && m.threads[t].WaitArmed?
            && m.threads[t].g.key == c.addr && m.threads[t].timed == c.timed
            && (forall k :: TasksAt(m, k) == TasksAt(s, k))
            && (forall x :: 0 <= x < |s.threads| && x != t ==> m.threads[x] == s.threads[x])
  {
    var i := InsertGuard(s, s.threads[t].addr);
    LookupIsQuiet(s, s.threads[t].addr);
    StepKeepsInv(s, WaitGet(t));
    forall k
      ensures TasksAt(DoWaitGet(s, t), k) == TasksAt(s, k)
    {
      assert TasksAt(i, k) == TasksAt(s, k);
    }
  }

  /** Looking an address up, or making an entry for it, moves no sleeper. */
  lemma LookupIsQuiet(s: Sys, addr: nat)
    requires Inv(s)
    ensures forall k :: TasksAt(InsertGuard(s, addr), k) == TasksAt(s, k)
    ensures addr in s.table ==> forall k :: TasksAt(TakeGuard(s, addr), k) == TasksAt(s, k)
  {
    FreshQueue(s);
  }

  lemma SleepAddsLast(s: Sys, t: nat)
    requires Inv(s) && t < |s.threads| && s.threads[t].WaitArmed? && Can(s, Sleep(t))
    ensures forall k :: TasksAt(DoSleep(s, t), k) == TasksAt(s, k) + if k == s.threads[t].g.key then [t] else []
  {
    GuardIsLive(s, t, 0);
    assert GuardOk(s, GuardsOf(s.threads[t])[0]);
  }

  lemma RunThree(s: Sys, a: Action, b: Action, c: Action)
    requires Can(s, a) && Can(Do(s, a), b) && Can(Do(Do(s, a), b), c)
    ensures Run(s, [a, b, c]) == Some(Do(Do(Do(s, a), b), c))
  {
    RunSnoc(s, [], s, a);
    RunSnoc(s, [] + [a], Do(s, a), b);
    RunSnoc(s, [] + [a] + [b], Do(Do(s, a), b), c);
    assert [] + [a] + [b] + [c] == [a, b, c];
  }

  /** A timeout takes the thread, and nobody else, out of its line, and ends its wait. */
  lemma TimeoutLeaves(s: Sys, t: nat)
    requires Inv(s) && Can(s, Timeout(t))
    ensures var z, c := Do(s, Timeout(t)), s.threads[t];
            && z.threads[t] == Leaving([c.g], Awoken) && t !in TasksAt(z, c.at)
            && (forall x :: x in TasksAt(z, c.at) <==> x in TasksAt(s, c.at) && x != t)
            && |TasksAt(z, c.at)| == |TasksAt(s, c.at)| - 1
            && (forall k :: k != c.at ==> TasksAt(z, k) == TasksAt(s, k))
  {
    var c := s.threads[t];
    assert SleeperOk(s, t) && GuardOk(s, GuardsOf(c)[0]) && QueueOk(s, c.g.q);
    var tasks := s.queues[c.g.q].value;
    forall x: nat
      ensures x in Without(tasks, t) <==> x in tasks && x != t
    {
      WithoutMember(tasks, t, x);
    }
    OneFewer(tasks, t);
  }

  lemma {:induction false} OneFewer(tasks: seq<nat>, t: nat)
    requires t in tasks
    ensures |Without(tasks, t)| == |tasks| - 1
  {
    if tasks[0] != t {
      OneFewer(tasks[1..], t);
    }
  }

  // ---- Waking ----

  /** The steps of a wake call after its lookup, when nobody interrupts it. */
  ghost function WakeRest(s: Sys, u: nat, addr: nat, value: nat): seq<Action> {
    if addr in s.table then seq(|Front(s, addr, value)|, _ => WakeStep(u)) + [WakeStep(u)] + [DropGuard(u)] else []
  }

  /** What a wake by `u` at `addr` with this limit leaves behind. */
  ghost predicate WokeFront(s: Sys, z: Sys, u: nat, addr: nat, value: nat) {
    && |z.threads| == |s.threads| && u < |s.threads| && z.table == s.table
    && z.threads[u] == Idle(Woke(Front(s, addr, value), value))
    && (forall k :: TasksAt(z, k) == if k == addr then TasksAt(s, addr)[|Front(s, addr, value)|..] else TasksAt(s, k))
    && (forall x :: 0 <= x < |s.threads| && x != u ==>
          z.threads[x] == if x in Front(s, addr, value) && s.threads[x].Blocked? then Leaving([s.threads[x].g], Awoken)
                          else s.threads[x])
  }

  /** Such a call gets back the tasks it woke: the first `value` at the address, or as many as there are. */
  lemma WakeReturns(s: Sys, u: nat, addr: nat, value: nat)
    requires Inv(s) && Can(s, WakeGet(u, addr, value))
    ensures var run := [WakeGet(u, addr, value)] + WakeRest(s, u, addr, value);
            Run(s, run).Some? && WokeFront(s, Run(s, run).value, u, addr, value) && Run(s, run).value.mem == s.mem
  {
    var run := WakeCall(s, u, addr, value);
    WakeReports(s, u, addr, value);
    if addr in s.table {
      var m := Run(s, run).value;
      RunKeepsInv(s, run);
      WakeHoldsOne(s, u, addr, value);
      DropIsQuiet(m, u);
      RunSnoc(s, run, m, DropGuard(u));
      WakeStepsAre(s, u, addr, value);
    } else {
      assert [WakeGet(u, addr, value)] + [] == run;
    }
  }

  lemma WakeStepsAre(s: Sys, u: nat, addr: nat, value: nat)
    requires Inv(s) && addr in s.table
    ensures [WakeGet(u, addr, value)] + WakeRest(s, u, addr, value) == WakeCall(s, u, addr, value) + [DropGuard(u)]
  {
    TableQueueIsLive(s, addr);
    var loop := seq(|Front(s, addr, value)|, _ => WakeStep(u)) + [WakeStep(u)];
    Regroup([WakeGet(u, addr, value)], loop, [DropGuard(u)]);
  }

  /** The number a wake reports is the number of tasks it woke, and a requeue's that of those woken and moved. */
  lemma NumbersReported(woken: seq<nat>, moved: seq<nat>, a: nat, b: nat)
    ensures Count(Woke(woken, a)) == |woken| && Count(Requeued(woken, moved, a, b)) == |woken| + |moved|
  {
  }

  lemma WakeHoldsOne(s: Sys, u: nat, addr: nat, value: nat)
    requires Inv(s) && Can(s, WakeGet(u, addr, value)) && addr in s.table
    ensures var z := Run(s, WakeCall(s, u, addr, value));
            z.Some? && u < |z.value.threads| && z.value.threads[u].Leaving? && |z.value.threads[u].gs| == 1
  {
    var a := WakeGet(u, addr, value);
    var m := Do(s, a);
    RunOne(s, a);
    TableQueueIsLive(s, addr);
    StepKeepsInv(s, a);
    WakeLoop(m, u);
    RunConcat(s, [a], m, seq(Min(value, |s.queues[s.table[addr]].value|), _ => WakeStep(u)) + [WakeStep(u)]);
  }

  /** Thread exit: the word is 0 and the longest-waiting task at its address, if there is one, is woken. */
  lemma ExitWakeReturns(s: Sys, u: nat, addr: nat)
    requires Inv(s) && Can(s, ExitWake(u, addr))
    ensures var run := [ExitWake(u, addr)] + WakeRest(s, u, addr, 1);
            && Run(s, run).Some?
            && WokeFront(s, Run(s, run).value, u, addr, 1)
            && Run(s, run).value.mem == s.mem[addr := 0]
  {
    var m := Do(s, Store(u, addr, 0));
    StepKeepsInv(s, Store(u, addr, 0));
    WakeReturns(m, u, addr, 1);
    var rest := WakeRest(m, u, addr, 1);
    SameAfterFirst(m, WakeGet(u, addr, 1), s, ExitWake(u, addr), rest);
    OnlyWords(s, s.mem[addr := 0], Run(m, [WakeGet(u, addr, 1)] + rest).value, u, addr);
  }

  /** Who is woken does not depend on the words. */
  lemma OnlyWords(s: Sys, mem: map<nat, int>, z: Sys, u: nat, addr: nat)
    ensures WakeRest(s.(mem := mem), u, addr, 1) == WakeRest(s, u, addr, 1)
    ensures WokeFront(s.(mem := mem), z, u, addr, 1) ==> WokeFront(s, z, u, addr, 1)
  {
    assert forall k :: TasksAt(s.(mem := mem), k) == TasksAt(s, k);
  }

  lemma SameAfterFirst(s: Sys, a: Action, s': Sys, a': Action, rest: seq<Action>)
    requires Can(s, a) && Can(s', a') && Do(s, a) == Do(s', a')
    ensures Run(s, [a] + rest) == Run(s', [a'] + rest)
  {
    RunOne(s, a);
    RunOne(s', a');
    RunConcat(s, [a], Do(s, a), rest);
    RunConcat(s', [a'], Do(s', a'), rest);
  }

  // ---- Requeueing ----

  /** The comparison refuses if and only if one was asked for and the word differs. */
  lemma RequeueCheckOutcome(s: Sys, t: nat, addr: nat, addr2: nat, value: nat, value2: nat, compare: Option<int>)
    requires Can(s, RequeueCheck(t, addr, addr2, value, value2, compare))
    ensures var z := Do(s, RequeueCheck(t, addr, addr2, value, value2, compare));
            && (z.threads[t] == Idle(Again) <==> compare.Some? && Word(s, addr) != compare.value)
            && (compare.None? || Word(s, addr) == compare.value ==>
                  z.threads[t] == RequeueBegun(addr, addr2, value, value2))
            && z.table == s.table && z.queues == s.queues && z.mem == s.mem
  {
  }

  /** The two lookups: the source queue is that of `addr`, if it has one, and the target that of `addr2`. */
  lemma RequeueLookups(s: Sys, u: nat, addr: nat, addr2: nat, value: nat, value2: nat)
    requires Inv(s) && u < |s.threads| && s.threads[u] == RequeueBegun(addr, addr2, value, value2)
    ensures Can(s, RequeueGet(u)) && Can(DoRequeueGet(s, u), RequeueInsert(u))
    ensures var m := DoRequeueInsert(DoRequeueGet(s, u), u);
            && Inv(m) && addr2 in m.table && m.mem == s.mem && |m.threads| == |s.threads|
            && (forall k :: k in s.table ==> k in m.table && m.table[k] == s.table[k])
            && m.threads[u] == Requeueing(if addr in s.table then Some(Guard(addr, s.table[addr])) else None,
                                          Guard(addr2, m.table[addr2]), value, value2, [])
            && (forall k :: TasksAt(m, k) == TasksAt(s, k))
            && (forall x :: 0 <= x < |s.threads| && x != u ==> m.threads[x] == s.threads[x])
  {
    RequeueGetStep(s, u);
    RequeueInsertStep(DoRequeueGet(s, u), u);
  }

  lemma RequeueGetStep(s: Sys, u: nat)
    requires Inv(s) && u < |s.threads| && s.threads[u].RequeueBegun?
    ensures Can(s, RequeueGet(u))
    ensures var m, c := DoRequeueGet(s, u), s.threads[u];
            && Inv(m) && SameSleepers(s, m, u)
            && m.threads[u] == RequeueGot(if c.addr in s.table then Some(Guard(c.addr, s.table[c.addr])) else None,
                                          c.addr2, c.value, c.value2)
  {
    StepKeepsInv(s, RequeueGet(u));
    LookupIsQuiet(s, s.threads[u].addr);
  }

  lemma RequeueInsertStep(s: Sys, u: nat)
    requires Inv(s) && u < |s.threads| && s.threads[u].RequeueGot?
    ensures Can(s, RequeueInsert(u))
    ensures var m, c := DoRequeueInsert(s, u), s.threads[u];
            && Inv(m) && c.addr2 in m.table && m.mem == s.mem && |m.threads| == |s.threads|
            && (forall k :: k in s.table ==> k in m.table && m.table[k] == s.table[k])
            && m.threads[u] == Requeueing(c.source, Guard(c.addr2, m.table[c.addr2]), c.value, c.value2, [])
            && (forall k :: TasksAt(m, k) == TasksAt(s, k))
            && (forall x :: 0 <= x < |s.threads| && x != u ==> m.threads[x] == s.threads[x])
  {
    StepKeepsInv(s, RequeueInsert(u));
    var t := InsertGuard(s, s.threads[u].addr2);
    LookupIsQuiet(s, s.threads[u].addr2);
    forall k
      ensures TasksAt(DoRequeueInsert(s, u), k) == TasksAt(s, k)
    {
      assert TasksAt(t, k) == TasksAt(s, k);
    }
  }

  /** The lines of sleepers after a requeue that left `left` at `addr` and moved `moved` to `addr2`. */
  ghost predicate LinesMoved(s: Sys, z: Sys, addr: nat, addr2: nat, moved: seq<nat>, left: seq<nat>) {
    && (addr != addr2 ==> TasksAt(z, addr) == left && TasksAt(z, addr2) == TasksAt(s, addr2) + moved)
    && (addr == addr2 ==> TasksAt(z, addr) == left + moved)
    && (forall k :: k != addr && k != addr2 ==> TasksAt(z, k) == TasksAt(s, k))
  }

  /** The threads but `u` after a requeue: those woken leave their wait, those moved sleep at `addr2`. */
  ghost predicate ThreadsMoved(s: Sys, z: Sys, u: nat, addr2: nat, woken: seq<nat>, moved: seq<nat>) {
    && |z.threads| == |s.threads| && u < |s.threads|
    && (forall x :: 0 <= x < |s.threads| && x != u && s.threads[x].Blocked? ==>
          z.threads[x] == if x in woken then Leaving([s.threads[x].g], Awoken)
                          else if x in moved then s.threads[x].(at := addr2) else s.threads[x])
    && (forall x :: 0 <= x < |s.threads| && x != u && !s.threads[x].Blocked? ==> z.threads[x] == s.threads[x])
  }

  /** What a requeue by `u` from `addr` to `addr2` leaves behind, in terms of who slept where. */
  ghost predicate RequeuedAll(s: Sys, z: Sys, u: nat, addr: nat, addr2: nat, value: nat, value2: nat) {
    var (woken, moved, left) := SplitTasks(TasksAt(s, addr), value, value2);
    z.mem == s.mem && LinesMoved(s, z, addr, addr2, moved, left) && ThreadsMoved(s, z, u, addr2, woken, moved)
  }

  /** From the loop on, with the source found. */
  lemma RequeueFromLoop(s: Sys, u: nat, addr: nat, addr2: nat, value: nat, value2: nat)
    requires Inv(s) && u < |s.threads| && addr in s.table && addr2 in s.table
    requires s.threads[u] == Requeueing(Some(Guard(addr, s.table[addr])), Guard(addr2, s.table[addr2]), value, value2, [])
    ensures var (woken, moved, left) := SplitTasks(TasksAt(s, addr), value, value2);
            var run := seq(|woken|, _ => RequeueStep(u)) + [RequeueStep(u)];
            && Run(s, run).Some?
            && RequeuedAll(s, Run(s, run).value, u, addr, addr2, value, value2)
            && Run(s, run).value.threads[u].Leaving?
            && Run(s, run).value.threads[u].result == Requeued(woken, moved, value, value2)
            && |Run(s, run).value.threads[u].gs| == 2
  {
    RequeueCall(s, u);
    TableQueueIsLive(s, addr);
    TableQueueIsLive(s, addr2);
  }

  /** The steps of a requeue call after its lookups, when nobody interrupts it. */
  ghost function RequeueRest(s: Sys, u: nat, found: bool, addr: nat, value: nat, value2: nat): seq<Action> {
    if found
    then seq(|SplitTasks(TasksAt(s, addr), value, value2).0|, _ => RequeueStep(u)) + [RequeueStep(u)]
         + seq(2, _ => DropGuard(u))
    else [RequeueStep(u), DropGuard(u)]
  }

  /** A requeue as `RequeuedAll` says, and the thread has its result: the tasks woken and those moved. */
  ghost predicate RequeuedBy(s: Sys, z: Sys, u: nat, addr: nat, addr2: nat, value: nat, value2: nat) {
    && RequeuedAll(s, z, u, addr, addr2, value, value2)
    && var split := SplitTasks(TasksAt(s, addr), value, value2);
    z.threads[u] == Idle(Requeued(split.0, split.1, value, value2))
  }

  /**
   A requeue call, from an idle thread to its return: unless it is refused, it gets back exactly the tasks at
   `addr` that it woke and those that it moved, split with its own two numbers, and the moved ones are last in
   line at `addr2`.
   */
  lemma RequeueReturns(s: Sys, u: nat, addr: nat, addr2: nat, value: nat, value2: nat, compare: Option<int>)
    requires Inv(s) && Can(s, RequeueCheck(u, addr, addr2, value, value2, compare))
    requires compare.None? || Word(s, addr) == compare.value
    ensures var run := [RequeueCheck(u, addr, addr2, value, value2, compare), RequeueGet(u), RequeueInsert(u)]
                       + RequeueRest(s, u, addr in s.table, addr, value, value2);
            Run(s, run).Some? && RequeuedBy(s, Run(s, run).value, u, addr, addr2, value, value2)
  {
    var m := RequeueStarts(s, u, addr, addr2, value, value2, compare);
    var first := [RequeueCheck(u, addr, addr2, value, value2, compare), RequeueGet(u), RequeueInsert(u)];
    var rest := RequeueRest(m, u, addr in s.table, addr, value, value2);
    assert TasksAt(m, addr) == TasksAt(s, addr);
    if addr in s.table {
      RequeueTail(m, u, addr, addr2, value, value2);
    } else {
      RequeueNobody(m, u, addr, addr2, value, value2);
    }
    RequeueJoin(s, u, addr, addr2, value, value2, first, m, rest);
  }

  /** The state with both lookups made, in terms of the one the call began in. */
  ghost predicate LookedUp(s: Sys, m: Sys, u: nat, addr: nat, addr2: nat, value: nat, value2: nat) {
    && |m.threads| == |s.threads| && u < |s.threads| && m.mem == s.mem && addr2 in m.table
    && (forall k :: TasksAt(m, k) == TasksAt(s, k))
    && (forall x :: 0 <= x < |s.threads| && x != u ==> m.threads[x] == s.threads[x])
    && (addr in s.table ==> addr in m.table && m.table[addr] == s.table[addr])
    && m.threads[u] == Requeueing(if addr in s.table then Some(Guard(addr, s.table[addr])) else None,
                                  Guard(addr2, m.table[addr2]), value, value2, [])
  }

  lemma RequeueStarts(s: Sys, u: nat, addr: nat, addr2: nat, value: nat, value2: nat, compare: Option<int>)
    returns (m: Sys)
    requires Inv(s) && Can(s, RequeueCheck(u, addr, addr2, value, value2, compare))
    requires compare.None? || Word(s, addr) == compare.value
    ensures Inv(m) && LookedUp(s, m, u, addr, addr2, value, value2)
    ensures Run(s, [RequeueCheck(u, addr, addr2, value, value2, compare), RequeueGet(u), RequeueInsert(u)]) == Some(m)
  {
    var a := RequeueCheck(u, addr, addr2, value, value2, compare);
    var m0 := Do(s, a);
    StepKeepsInv(s, a);
    RequeueLookups(m0, u, addr, addr2, value, value2);
    m := DoRequeueInsert(DoRequeueGet(m0, u), u);
    RunThree(s, a, RequeueGet(u), RequeueInsert(u));
    assert forall k :: TasksAt(m0, k) == TasksAt(s, k);
  }

  lemma RequeueJoin(s: Sys, u: nat, addr: nat, addr2: nat, value: nat, value2: nat,
                    first: seq<Action>, m: Sys, rest: seq<Action>)
    requires Run(s, first) == Some(m) && LookedUp(s, m, u, addr, addr2, value, value2) && Run(m, rest).Some?
    requires RequeuedBy(m, Run(m, rest).value, u, addr, addr2, value, value2)
    ensures Run(s, first + rest).Some? && RequeuedBy(s, Run(s, first + rest).value, u, addr, addr2, value, value2)
  {
    RunConcat(s, first, m, rest);
    RequeuedSince(s, m, Run(m, rest).value, u, addr, addr2, value, value2);
  }

  lemma RequeuedSince(s: Sys, m: Sys, z: Sys, u: nat, addr: nat, addr2: nat, value: nat, value2: nat)
    requires LookedUp(s, m, u, addr, addr2, value, value2) && RequeuedBy(m, z, u, addr, addr2, value, value2)
    ensures RequeuedBy(s, z, u, addr, addr2, value, value2)
  {
    assert TasksAt(m, addr) == TasksAt(s, addr) && TasksAt(m, addr2) == TasksAt(s, addr2);
    var (woken, moved, left) := SplitTasks(TasksAt(s, addr), value, value2);
    assert LinesMoved(s, z, addr, addr2, moved, left);
    assert ThreadsMoved(s, z, u, addr2, woken, moved);
  }

  lemma RequeueTail(m: Sys, u: nat, addr: nat, addr2: nat, value: nat, value2: nat)
    requires Inv(m) && u < |m.threads| && addr in m.table && addr2 in m.table
    requires m.threads[u] == Requeueing(Some(Guard(addr, m.table[addr])), Guard(addr2, m.table[addr2]), value, value2, [])
    ensures var run := RequeueRest(m, u, true, addr, value, value2);
            Run(m, run).Some? && RequeuedBy(m, Run(m, run).value, u, addr, addr2, value, value2)
  {
    RequeueFromLoop(m, u, addr, addr2, value, value2);
    var loop := seq(|SplitTasks(TasksAt(m, addr), value, value2).0|, _ => RequeueStep(u)) + [RequeueStep(u)];
    var y := Run(m, loop).value;
    RunKeepsInv(m, loop);
    CallReturns(y, u);
    RunConcat(m, loop, y, seq(2, _ => DropGuard(u)));
  }

  /** With no entry for the source nobody is woken or moved. */
  lemma RequeueNobody(m: Sys, u: nat, addr: nat, addr2: nat, value: nat, value2: nat)
    requires Inv(m) && u < |m.threads| && addr2 in m.table && TasksAt(m, addr) == []
    requires m.threads[u] == Requeueing(None, Guard(addr2, m.table[addr2]), value, value2, [])
    ensures var run := RequeueRest(m, u, false, addr, value, value2);
            Run(m, run).Some? && RequeuedBy(m, Run(m, run).value, u, addr, addr2, value, value2)
  {
    GuardIsLive(m, u, 0);
    var y := DoRequeueStep(m, u);
    StepKeepsInv(m, RequeueStep(u));
    NobodyStep(m, u);
    DropIsQuiet(y, u);
    var z := DoDropGuard(y, u);
    RunTwo(m, RequeueStep(u), DropGuard(u));
    StillSame(m, y, z, u);
    NobodyRequeued(m, z, u, addr, addr2, value, value2);
  }

  lemma NobodyStep(m: Sys, u: nat)
    requires Can(m, RequeueStep(u)) && m.threads[u].source.None?
    ensures SameSleepers(m, DoRequeueStep(m, u), u)
    ensures DoRequeueStep(m, u).threads[u]
         == Leaving([m.threads[u].g2], Requeued([], [], m.threads[u].value, m.threads[u].value2))
  {
  }

  lemma StillSame(a: Sys, b: Sys, c: Sys, t: nat)
    requires SameSleepers(a, b, t) && SameSleepers(b, c, t)
    ensures SameSleepers(a, c, t)
  {
  }

  lemma NobodyRequeued(m: Sys, z: Sys, u: nat, addr: nat, addr2: nat, value: nat, value2: nat)
    requires SameSleepers(m, z, u) && u < |m.threads| && TasksAt(m, addr) == []
    ensures RequeuedAll(m, z, u, addr, addr2, value, value2)
    ensures SplitTasks(TasksAt(m, addr), value, value2) == ([], [], [])
  {
    assert TasksAt(m, addr2) + [] == TasksAt(m, addr2);
  }

  lemma RunTwo(s: Sys, a: Action, b: Action)
    requires Can(s, a) && Can(Do(s, a), b)
    ensures Run(s, [a, b]) == Some(Do(Do(s, a), b))
  {
    RunSnoc(s, [], s, a);
    RunSnoc(s, [] + [a], Do(s, a), b);
    assert [] + [a] + [b] == [a, b];
  }

  // ---- What a thread can always do ----

  /** The first steps of calls, which need nothing to have happened before. */
  predicate Begins(a: Action) {
    a.Spawn? || a.Store? || a.WaitCheck? || a.WakeGet? || a.ExitWake? || a.RequeueCheck?
  }

  /** Outside of a call every call can begin. */
  lemma EveryCallCanBegin(s: Sys, t: nat)
    requires t < |s.threads| && s.threads[t].Idle?
    ensures forall a: Action :: a.t == t && Begins(a) ==> Can(s, a)
  {
  }

  /** A new thread of the process is outside of any call, on the same words and queues as the others. */
  lemma SpawnJoins(s: Sys, t: nat)
    requires Can(s, Spawn(t))
    ensures var z := Do(s, Spawn(t));
            && |z.threads| == |s.threads| + 1 && z.threads[|s.threads|].Idle? && z.threads[..|s.threads|] == s.threads
            && (forall k :: Word(z, k) == Word(s, k)) && forall k :: TasksAt(z, k) == TasksAt(s, k)
  {
  }

  /** A timed sleeper that was not requeued can time out; one without a timeout cannot. */
  lemma TimeoutIff(s: Sys, t: nat)
    requires Inv(s) && t < |s.threads| && s.threads[t].Blocked? && s.threads[t].at == s.threads[t].g.key
    ensures Can(s, Timeout(t)) <==> s.threads[t].timed
  {
    GuardIsLive(s, t, 0);
  }
}
