/** Whole futex calls as runs of the system: which sleepers a wake reaches, and what a requeue does. */
module FutexRuns {
  import opened Basics
  import opened Futex
  import opened FutexInvariant
  import opened FutexTheorems

  lemma RunSnoc(s: Sys, run: seq<Action>, m: Sys, a: Action)
    requires Run(s, run) == Some(m) && Can(m, a)
    ensures Run(s, run + [a]) == Some(Do(m, a))
  {
    assert (run + [a])[..|run|] == run;
  }

  // ---- The gap between comparing and sleeping ----

  /** Between the comparison of the word and the sleep. */
  ghost predicate InGap(s: Sys, t: nat) {
    t < |s.threads| && (s.threads[t].WaitChecked? || s.threads[t].WaitArmed?)
  }

  lemma WakePassesBy(s: Sys, u: nat, t: nat)
    requires Can(s, WakeStep(u)) && u != t && InGap(s, t)
    ensures InGap(DoWakeStep(s, u), t) && DoWakeStep(s, u).threads[t] == s.threads[t]
  {
  }

  lemma RequeuePassesBy(s: Sys, u: nat, t: nat)
    requires Can(s, RequeueStep(u)) && u != t && InGap(s, t)
    ensures InGap(DoRequeueStep(s, u), t) && DoRequeueStep(s, u).threads[t] == s.threads[t]
  {
  }

  lemma StepPassesBy(s: Sys, a: Action, t: nat)
    requires Can(s, a) && a.t != t && InGap(s, t)
    ensures InGap(Do(s, a), t) && Do(s, a).threads[t] == s.threads[t]
  {
    match a
    case WakeStep(u) => WakePassesBy(s, u, t);
    case RequeueStep(u) => RequeuePassesBy(s, u, t);
    case _ =>
  }

  /**
   Nothing that other threads do reaches a waiter in the gap: whatever stores, wakes and requeues there
   are, its call stays as it is.
   */
  lemma {:induction false} GapIsDeaf(s: Sys, run: seq<Action>, t: nat)
    requires Inv(s) && InGap(s, t) && Run(s, run).Some? && forall i :: 0 <= i < |run| ==> run[i].t != t
    ensures InGap(Run(s, run).value, t) && Run(s, run).value.threads[t] == s.threads[t]
  {
    if run != [] {
      var n := |run| - 1;
      GapIsDeaf(s, run[..n], t);
      RunKeepsInv(s, run[..n]);
      StepPassesBy(Run(s, run[..n]).value, run[n], t);
    }
  }

  /** From the gap the waiter's own next steps, whatever came before, take it to sleep at its address. */
  lemma GapEndsInSleep(s: Sys, t: nat)
    requires Inv(s) && InGap(s, t)
    ensures s.threads[t].WaitChecked? ==>
              && Can(s, WaitGet(t)) && Can(DoWaitGet(s, t), Sleep(t))
              && AsleepAt(DoSleep(DoWaitGet(s, t), t), t, s.threads[t].addr)
    ensures s.threads[t].WaitArmed? ==> Can(s, Sleep(t)) && AsleepAt(DoSleep(s, t), t, s.threads[t].g.key)
  {
    if s.threads[t].WaitArmed? {
      ArmedSleeps(s, t);
    } else {
      StepKeepsInv(s, WaitGet(t));
      ArmedSleeps(DoWaitGet(s, t), t);
    }
  }

  lemma ArmedSleeps(s: Sys, t: nat)
    requires Inv(s) && t < |s.threads| && s.threads[t].WaitArmed?
    ensures Can(s, Sleep(t)) && AsleepAt(DoSleep(s, t), t, s.threads[t].g.key)
  {
    GuardIsLive(s, t, 0);
    assert GuardOk(s, GuardsOf(s.threads[t])[0]);
  }

  ghost predicate AsleepAt(s: Sys, t: nat, addr: nat) {
    && t < |s.threads| && s.threads[t].Blocked? && s.threads[t].at == addr && addr in s.table
    && s.table[addr] in s.queues && t in s.queues[s.table[addr]].value
  }

  // ---- Waking from the front ----

  /** From `s` to `z` thread `u` woke the first `k` tasks of queue `q`, and nothing else changed but `u`. */
  ghost predicate Notified(s: Sys, z: Sys, u: nat, q: nat, k: nat) {
    && q in s.queues && k <= |s.queues[q].value|
    && z.table == s.table && z.mem == s.mem && z.queues.Keys == s.queues.Keys && |z.threads| == |s.threads|
    && z.queues[q].value == s.queues[q].value[k..]
    && (forall p :: p in s.queues && p != q ==> z.queues[p].value == s.queues[p].value)
    && (forall x :: 0 <= x < |s.threads| && x != u ==>
          z.threads[x] == if x in s.queues[q].value[..k] && s.threads[x].Blocked?
                          then Leaving([s.threads[x].g], Awoken) else s.threads[x])
  }

  lemma NotifyNext(s: Sys, z: Sys, u: nat, q: nat, k: nat, c: Call)
    requires Inv(s) && Notified(s, z, u, q, k) && k < |s.queues[q].value| && QueueIs(z, q)
    requires u < |s.threads| && !s.threads[u].Blocked?
    ensures Notified(s, SetCall(NotifyOne(z, q), u, c), u, q, k + 1)
  {
    var tasks, w := s.queues[q].value, s.queues[q].value[k];
    assert QueueOk(s, q) && z.queues[q].value[0] == w;
    assert w in tasks && w !in tasks[..k];
    assert tasks[..k + 1] == tasks[..k] + [w] && tasks[k..][1..] == tasks[k + 1..];
  }

  lemma Repeated(a: Action, k: nat)
    requires k > 0
    ensures seq(k - 1, _ => a) + [a] == seq(k, _ => a)
  {
  }

  lemma WakeTurn(s: Sys, m: Sys, u: nat, k: nat)
    requires Inv(s) && Inv(m) && u < |s.threads| && s.threads[u].Waking? && 0 < k
    requires Notified(s, m, u, s.threads[u].g.q, k - 1) && k <= |s.queues[s.threads[u].g.q].value|
    requires var c := s.threads[u];
             && m.threads[u] == Waking(c.g, c.value, c.woken + s.queues[c.g.q].value[..k - 1])
             && |c.woken| + k <= c.value
    ensures Can(m, WakeStep(u))
    ensures var z, c := DoWakeStep(m, u), s.threads[u];
            && Notified(s, z, u, c.g.q, k)
            && z.threads[u] == Waking(c.g, c.value, c.woken + s.queues[c.g.q].value[..k])
  {
    var c := s.threads[u];
    var tasks := s.queues[c.g.q].value;
    assert QueueOk(m, c.g.q);
    QueueOkIs(m, c.g.q);
    assert c.woken + tasks[..k - 1] + [tasks[k - 1]] == c.woken + tasks[..k];
    NotifyNext(s, m, u, c.g.q, k - 1, Waking(c.g, c.value, c.woken + tasks[..k]));
  }

  /** `k` turns of the wake loop, all of which find a task. */
  lemma {:induction false} WakeTurns(s: Sys, u: nat, k: nat)
    requires Inv(s) && u < |s.threads| && s.threads[u].Waking? && s.threads[u].g.q in s.queues
    requires k <= |s.queues[s.threads[u].g.q].value| && |s.threads[u].woken| + k <= s.threads[u].value
    ensures Run(s, seq(k, _ => WakeStep(u))).Some?
    ensures var z, c := Run(s, seq(k, _ => WakeStep(u))).value, s.threads[u];
            && Notified(s, z, u, c.g.q, k)
            && z.threads[u] == Waking(c.g, c.value, c.woken + s.queues[c.g.q].value[..k])
  {
    var c := s.threads[u];
    var tasks := s.queues[c.g.q].value;
    if k > 0 {
      var run := seq(k - 1, _ => WakeStep(u));
      WakeTurns(s, u, k - 1);
      RunKeepsInv(s, run);
      var m := Run(s, run).value;
      WakeTurn(s, m, u, k);
      RunSnoc(s, run, m, WakeStep(u));
      Repeated(WakeStep(u), k);
    } else {
      assert c.woken + tasks[..0] == c.woken;
    }
  }

  /** The wake loop to its end, uninterrupted. */
  lemma WakeLoop(s: Sys, u: nat)
    requires Inv(s) && u < |s.threads| && s.threads[u].Waking? && s.threads[u].g.q in s.queues
    requires s.threads[u].woken == []
    ensures var c := s.threads[u];
            var tasks := s.queues[c.g.q].value;
            var n := Min(c.value, |tasks|);
            var run := seq(n, _ => WakeStep(u)) + [WakeStep(u)];
            && Run(s, run).Some?
            && Notified(s, Run(s, run).value, u, c.g.q, n)
            && Run(s, run).value.threads[u] == Leaving([c.g], Woke(tasks[..n], c.value))
  {
    var c := s.threads[u];
    var tasks := s.queues[c.g.q].value;
    var n := Min(c.value, |tasks|);
    var run := seq(n, _ => WakeStep(u));
    WakeTurns(s, u, n);
    RunKeepsInv(s, run);
    var m := Run(s, run).value;
    assert QueueOk(m, c.g.q);
    QueueOkIs(m, c.g.q);
    RunSnoc(s, run, m, WakeStep(u));
    assert [] + tasks[..n] == tasks[..n];
  }

  /** The steps of a wake call of thread `u` that nobody interrupts, up to its result. */
  function WakeCall(s: Sys, u: nat, addr: nat, value: nat): seq<Action> {
    if addr in s.table && s.table[addr] in s.queues
    then [WakeGet(u, addr, value)]
         + (seq(Min(value, |s.queues[s.table[addr]].value|), _ => WakeStep(u)) + [WakeStep(u)])
    else [WakeGet(u, addr, value)]
  }

  /**
   An uninterrupted wake ends a thread's wait if and only if the thread is among the first `value` tasks of
   the queue that the table gives for the address.
   */
  lemma WakeReachesIff(s: Sys, u: nat, addr: nat, value: nat, t: nat)
    requires Inv(s) && Can(s, WakeGet(u, addr, value)) && t < |s.threads| && s.threads[t].Blocked?
    ensures Run(s, WakeCall(s, u, addr, value)).Some?
    ensures var z := Run(s, WakeCall(s, u, addr, value)).value;
            && t < |z.threads|
            && z.threads[t] == if t in Front(s, addr, value) then Leaving([s.threads[t].g], Awoken) else s.threads[t]
  {
    WakeReports(s, u, addr, value);
  }

  /** It reports exactly those tasks, in order, and wakes nobody else. */
  lemma WakeReports(s: Sys, u: nat, addr: nat, value: nat)
    requires Inv(s) && Can(s, WakeGet(u, addr, value))
    ensures Run(s, WakeCall(s, u, addr, value)).Some?
    ensures var z := Run(s, WakeCall(s, u, addr, value)).value;
            var front := Front(s, addr, value);
            && |z.threads| == |s.threads| && z.table == s.table && z.mem == s.mem
            && (forall k :: TasksAt(z, k) == if k == addr then TasksAt(s, addr)[|front|..] else TasksAt(s, k))
            && (forall x :: 0 <= x < |s.threads| && x != u ==>
                  z.threads[x] == if x in front && s.threads[x].Blocked? then Leaving([s.threads[x].g], Awoken)
                                  else s.threads[x])
            && (if addr in s.table then z.threads[u].Leaving? && z.threads[u].result == Woke(front, value)
                else z.threads[u] == Idle(Woke(front, value)))
  {
    var a := WakeGet(u, addr, value);
    var m := Do(s, a);
    RunSnoc(s, [], s, a);
    assert [] + [a] == [a];
    if addr in s.table {
      TableQueueIsLive(s, addr);
      StepKeepsInv(s, a);
      WakeLoop(m, u);
      var rest := seq(Min(value, |s.queues[s.table[addr]].value|), _ => WakeStep(u)) + [WakeStep(u)];
      RunConcat(s, [a], m, rest);
    }
  }

  lemma WakeRuns(s: Sys, u: nat, addr: nat, value: nat)
    requires Inv(s) && Can(s, WakeGet(u, addr, value))
    ensures Run(s, WakeCall(s, u, addr, value)).Some?
    ensures var run := WakeCall(s, u, addr, value);
            forall i :: 0 <= i < |run| ==> run[i].t == u && !run[i].Store? && !run[i].ExitWake?
  {
    WakeReports(s, u, addr, value);
  }

  /** The tasks asleep at an address, longest-waiting first. */
  function TasksAt(s: Sys, addr: nat): seq<nat> {
    if addr in s.table && s.table[addr] in s.queues then s.queues[s.table[addr]].value else []
  }

  /** The tasks a wake of `addr` with limit `value` finds. */
  function Front(s: Sys, addr: nat, value: nat): seq<nat> {
    TasksAt(s, addr)[..Min(value, |TasksAt(s, addr)|)]
  }

  /**
   When a wake arrives: for a thread that has passed its comparison, an uninterrupted wake changes its call
   if and only if it sleeps already and is among the tasks the wake finds. In the gap it never does.
   */
  lemma WakeIsHeardIff(s: Sys, u: nat, addr: nat, value: nat, t: nat)
    requires Inv(s) && Can(s, WakeGet(u, addr, value)) && t < |s.threads|
    requires s.threads[t].Blocked? || InGap(s, t)
    ensures Run(s, WakeCall(s, u, addr, value)).Some?
    ensures var z := Run(s, WakeCall(s, u, addr, value)).value;
            && t < |z.threads|
            && (z.threads[t] != s.threads[t] <==> s.threads[t].Blocked? && t in Front(s, addr, value))
  {
    WakeReports(s, u, addr, value);
    if s.threads[t].Blocked? {
      WakeReachesIff(s, u, addr, value, t);
    } else {
      GapIsDeaf(s, WakeCall(s, u, addr, value), t);
    }
  }

  /**
   The lost wake, from any state: thread `t` compares the word with `v`, then thread `u` stores another value
   and wakes any number of sleepers, and `t` goes to sleep all the same, on a word that has changed.
   */
  lemma WakeInTheGapIsLost(s: Sys, t: nat, u: nat, addr: nat, v: int, v': int, timed: bool, value: nat)
    requires Inv(s) && t < |s.threads| && u < |s.threads| && t != u && s.threads[t].Idle? && s.threads[u].Idle?
    requires Word(s, addr) == v
    ensures var m := Stored(s, t, u, addr, v, v', timed);
            && Run(m, WakeCall(m, u, addr, value)).Some?
            && var z := Run(m, WakeCall(m, u, addr, value)).value;
            && t < |z.threads| && z.threads[t] == WaitChecked(addr, timed)
            && Can(z, WaitGet(t)) && Can(DoWaitGet(z, t), Sleep(t))
            && AsleepAt(DoSleep(DoWaitGet(z, t), t), t, addr) && Word(DoSleep(DoWaitGet(z, t), t), addr) == v'
  {
    var m := Stored(s, t, u, addr, v, v', timed);
    StoredOk(s, t, u, addr, v, v', timed);
    WakeRuns(m, u, addr, value);
    SleepsAnyway(m, t, WakeCall(m, u, addr, value), addr, timed);
  }

  lemma StoredOk(s: Sys, t: nat, u: nat, addr: nat, v: int, v': int, timed: bool)
    requires Inv(s) && t < |s.threads| && u < |s.threads| && t != u && s.threads[t].Idle? && s.threads[u].Idle?
    requires Word(s, addr) == v
    ensures var m := Stored(s, t, u, addr, v, v', timed);
            && Inv(m) && |m.threads| == |s.threads| && m.threads[t] == WaitChecked(addr, timed) && m.threads[u].Idle?
            && Word(m, addr) == v'
  {
    StepKeepsInv(s, WaitCheck(t, addr, v, timed));
    StepKeepsInv(Do(s, WaitCheck(t, addr, v, timed)), Store(u, addr, v'));
  }

  /** A waiter in the gap goes to sleep after any run of others; without stores, on the word as it was. */
  lemma SleepsAnyway(m: Sys, t: nat, run: seq<Action>, addr: nat, timed: bool)
    requires Inv(m) && t < |m.threads| && m.threads[t] == WaitChecked(addr, timed) && Run(m, run).Some?
    requires forall i :: 0 <= i < |run| ==> run[i].t != t && !run[i].Store? && !run[i].ExitWake?
    ensures var z := Run(m, run).value;
            && t < |z.threads| && z.threads[t] == WaitChecked(addr, timed)
            && Can(z, WaitGet(t)) && Can(DoWaitGet(z, t), Sleep(t))
            && AsleepAt(DoSleep(DoWaitGet(z, t), t), t, addr)
            && Word(DoSleep(DoWaitGet(z, t), t), addr) == Word(m, addr)
  {
    GapIsDeaf(m, run, t);
    RunKeepsInv(m, run);
    GapEndsInSleep(Run(m, run).value, t);
    WordStableWithoutStores(m, run, addr);
  }

  /** The state after `t` compared and `u` stored. */
  ghost function Stored(s: Sys, t: nat, u: nat, addr: nat, v: int, v': int, timed: bool): Sys
    requires t < |s.threads| && u < |s.threads| && t != u && s.threads[t].Idle? && s.threads[u].Idle?
  {
    Do(Do(s, WaitCheck(t, addr, v, timed)), Store(u, addr, v'))
  }

  lemma {:induction false} RunConcat(s: Sys, a: seq<Action>, m: Sys, b: seq<Action>)
    requires Run(s, a) == Some(m)
    ensures Run(s, a + b) == Run(m, b)
    decreases |b|
  {
    if b == [] {
      assert a + b == a;
    } else {
      var n := |b| - 1;
      RunConcat(s, a, m, b[..n]);
      assert (a + b)[..|a + b| - 1] == a + b[..n];
    }
  }

  // ---- Requeueing ----

  lemma RequeueTurn(s: Sys, m: Sys, u: nat, k: nat)
    requires Inv(s) && Inv(m) && u < |s.threads| && s.threads[u].Requeueing? && s.threads[u].source.Some? && 0 < k
    requires Notified(s, m, u, s.threads[u].source.value.q, k - 1)
    requires k <= |s.queues[s.threads[u].source.value.q].value| && s.threads[u].g2.q in s.queues
    requires var c := s.threads[u];
             && m.threads[u] == Requeueing(c.source, c.g2, c.value, c.value2,
                                           c.woken + s.queues[c.source.value.q].value[..k - 1])
             && |c.woken| + k <= c.value
    ensures Can(m, RequeueStep(u))
    ensures var z, c := DoRequeueStep(m, u), s.threads[u];
            && Notified(s, z, u, c.source.value.q, k)
            && z.threads[u] == Requeueing(c.source, c.g2, c.value, c.value2,
                                          c.woken + s.queues[c.source.value.q].value[..k])
  {
    var c := s.threads[u];
    var q := c.source.value.q;
    var tasks := s.queues[q].value;
    assert QueueOk(m, q);
    QueueOkIs(m, q);
    assert c.woken + tasks[..k - 1] + [tasks[k - 1]] == c.woken + tasks[..k];
    NotifyNext(s, m, u, q, k - 1, Requeueing(c.source, c.g2, c.value, c.value2, c.woken + tasks[..k]));
  }

  /** `k` turns of the requeue call's wake loop, all of which find a task. */
  lemma {:induction false} RequeueTurns(s: Sys, u: nat, k: nat)
    requires Inv(s) && u < |s.threads| && s.threads[u].Requeueing? && s.threads[u].source.Some?
    requires s.threads[u].source.value.q in s.queues && s.threads[u].g2.q in s.queues
    requires k <= |s.queues[s.threads[u].source.value.q].value|
    requires |s.threads[u].woken| + k <= s.threads[u].value
    ensures Run(s, seq(k, _ => RequeueStep(u))).Some?
    ensures var z, c := Run(s, seq(k, _ => RequeueStep(u))).value, s.threads[u];
            && Notified(s, z, u, c.source.value.q, k)
            && z.threads[u] == Requeueing(c.source, c.g2, c.value, c.value2,
                                          c.woken + s.queues[c.source.value.q].value[..k])
  {
    var c := s.threads[u];
    var q := c.source.value.q;
    var tasks := s.queues[q].value;
    if k > 0 {
      var run := seq(k - 1, _ => RequeueStep(u));
      RequeueTurns(s, u, k - 1);
      RunKeepsInv(s, run);
      var m := Run(s, run).value;
      RequeueTurn(s, m, u, k);
      RunSnoc(s, run, m, RequeueStep(u));
      Repeated(RequeueStep(u), k);
    } else {
      assert c.woken + tasks[..0] == c.woken;
    }
  }

  /**
   From `s` to `z` a requeue by thread `u` woke the tasks `woken` of queue `q`, moved `moved` to the back of the
   queue of guard `g2` and left `left`; nothing else has changed but `u`.
   */
  ghost predicate Shifted(s: Sys, z: Sys, u: nat, q: nat, g2: Guard, woken: seq<nat>, moved: seq<nat>, left: seq<nat>) {
    && q in s.queues && g2.q in s.queues
    && z.table == s.table && z.mem == s.mem && z.queues.Keys == s.queues.Keys && |z.threads| == |s.threads|
    && (q != g2.q ==> z.queues[q].value == left && z.queues[g2.q].value == s.queues[g2.q].value + moved)
    && (q == g2.q ==> z.queues[q].value == left + moved)
    && (forall p :: p in s.queues && p != q && p != g2.q ==> z.queues[p].value == s.queues[p].value)
    && (forall x :: 0 <= x < |s.threads| && x != u && s.threads[x].Blocked? ==>
          z.threads[x] == if x in woken then Leaving([s.threads[x].g], Awoken)
                          else if x in moved then s.threads[x].(at := g2.key) else s.threads[x])
    && (forall x :: 0 <= x < |s.threads| && x != u && !s.threads[x].Blocked? ==> z.threads[x] == s.threads[x])
  }

  /**
   The loop of a requeue call that nobody interrupts does to the two queues what `SplitTasks` says; the tasks
   it reports are those woken and those moved, in order.
   */
  lemma RequeueCall(s: Sys, u: nat)
    requires Inv(s) && u < |s.threads| && s.threads[u].Requeueing? && s.threads[u].source.Some?
    requires s.threads[u].woken == []
    ensures var c := s.threads[u];
            var q := c.source.value.q;
            && q in s.queues && c.g2.q in s.queues
            && var (woken, moved, left) := SplitTasks(s.queues[q].value, c.value, c.value2);
            var run := seq(|woken|, _ => RequeueStep(u)) + [RequeueStep(u)];
            && Run(s, run).Some?
            && var z := Run(s, run).value;
            && Shifted(s, z, u, q, c.g2, woken, moved, left)
            && z.threads[u] == Leaving([c.source.value, c.g2], Requeued(woken, moved, c.value, c.value2))
  {
    var c := s.threads[u];
    GuardIsLive(s, u, 0);
    GuardIsLive(s, u, 1);
    var q := c.source.value.q;
    var tasks := s.queues[q].value;
    var (woken, moved, left) := SplitTasks(tasks, c.value, c.value2);
    var run := seq(|woken|, _ => RequeueStep(u));
    RequeueTurns(s, u, |woken|);
    RunKeepsInv(s, run);
    var m := Run(s, run).value;
    assert QueueOk(m, q) && QueueOk(s, q);
    QueueOkIs(m, q);
    RunSnoc(s, run, m, RequeueStep(u));
    assert [] + tasks[..|woken|] == woken;
    RequeueLast(m, u, q, tasks, woken, moved, left);
    ShiftedSince(s, m, DoRequeueStep(m, u), u, q, c.g2, woken, moved, left);
  }

  /** The last step: it moves, or it finds the queue empty. */
  lemma RequeueLast(m: Sys, u: nat, q: nat, tasks: seq<nat>, woken: seq<nat>, moved: seq<nat>, left: seq<nat>)
    requires Can(m, RequeueStep(u)) && m.threads[u].source.Some? && m.threads[u].source.value.q == q && q in m.queues
    requires m.threads[u].woken == woken && SplitTasks(tasks, m.threads[u].value, m.threads[u].value2) == (woken, moved, left)
    requires m.queues[q].value == tasks[|woken|..]
    requires u !in tasks
    ensures var c, z := m.threads[u], DoRequeueStep(m, u);
            && z.threads[u] == Leaving([c.source.value, c.g2], Requeued(woken, moved, c.value, c.value2))
            && Shifted(m, z, u, q, c.g2, [], moved, left)
  {
    var c := m.threads[u];
    if |woken| == c.value {
      assert tasks[|woken|..][..|moved|] == moved && tasks[|woken|..][|moved|..] == left;
    } else {
      assert moved == [] && left == [] && tasks[|woken|..] == [];
    }
  }

  lemma ShiftedSince(s: Sys, m: Sys, z: Sys, u: nat, q: nat, g2: Guard, woken: seq<nat>, moved: seq<nat>, left: seq<nat>)
    requires Notified(s, m, u, q, |woken|) && s.queues[q].value == woken + moved + left && Distinct(s.queues[q].value)
    requires g2.q in s.queues && Shifted(m, z, u, q, g2, [], moved, left)
    ensures Shifted(s, z, u, q, g2, woken, moved, left)
  {
    var tasks := s.queues[q].value;
    assert tasks[..|woken|] == woken;
    forall x | x in woken
      ensures x !in moved
    {
      var i :| 0 <= i < |woken| && woken[i] == x;
      assert forall j :: 0 <= j < |moved| ==> tasks[|woken| + j] == moved[j] && tasks[i] == x;
    }
  }
}
