/** The futex table's guarantees, for every run and every interleaving. */
module FutexTheorems {
  import opened Basics
  import opened Futex
  import opened FutexInvariant

  ghost predicate Reachable(s: Sys) {
    exists s0, run :: Init(s0) && Run(s0, run) == Some(s)
  }

  lemma ReachableIsInv(s: Sys)
    requires Reachable(s)
    ensures Inv(s)
  {
    var s0, run :| Init(s0) && Run(s0, run) == Some(s);
    InitIsInv(s0);
    RunKeepsInv(s0, run);
  }

  /**
   A sleeping thread stands exactly once in the queue that the table gives for its current address,
   and in no other queue: no guard drop has stranded it.
   */
  lemma SleeperIsFindable(s: Sys, t: nat)
    requires Reachable(s) && t < |s.threads| && s.threads[t].Blocked?
    ensures s.threads[t].at in s.table && s.table[s.threads[t].at] in s.queues
    ensures t in s.queues[s.table[s.threads[t].at]].value
    ensures forall q, i :: q in s.queues && 0 <= i < |s.queues[q].value| && s.queues[q].value[i] == t ==>
              && q == s.table[s.threads[t].at]
              && t !in s.queues[q].value[..i] && t !in s.queues[q].value[i + 1..]
  {
    ReachableIsInv(s);
    assert SleeperOk(s, t);
    forall q, i | q in s.queues && 0 <= i < |s.queues[q].value| && s.queues[q].value[i] == t
      ensures q == s.table[s.threads[t].at]
      ensures t !in s.queues[q].value[..i] && t !in s.queues[q].value[i + 1..]
    {
      assert QueueOk(s, q);
    }
  }

  /** Guards for one address all refer to one live queue, the one a lookup would give. */
  lemma GuardsAgree(s: Sys, t: nat, i: nat)
    requires Reachable(s) && t < |s.threads| && i < |GuardsOf(s.threads[t])|
    ensures var g := GuardsOf(s.threads[t])[i];
            g.key in s.table && s.table[g.key] == g.q && g.q in s.queues
  {
    ReachableIsInv(s);
    assert GuardOk(s, GuardsOf(s.threads[t])[i]);
    GuardIsLive(s, t, i);
  }

  lemma QueueOkIs(s: Sys, q: nat)
    requires q in s.queues && QueueOk(s, q)
    ensures QueueIs(s, q)
  {
    assert forall i :: 0 <= i < |s.queues[q].value| ==> s.queues[q].value[i] in s.queues[q].value;
  }

  /** Calls in flight never meet a freed queue: each can take its next step. */
  lemma CallsCanProceed(s: Sys, t: nat)
    requires Reachable(s) && t < |s.threads|
    ensures var c := s.threads[t];
            && (c.WaitArmed? ==> Can(s, Sleep(t)))
            && (c.Waking? ==> Can(s, WakeStep(t)))
            && (c.Requeueing? ==> Can(s, RequeueStep(t)))
            && (c.Leaving? ==> Can(s, DropGuard(t)))
  {
    ReachableIsInv(s);
    var c := s.threads[t];
    assert LimitsOk(c);
    forall i | 0 <= i < |GuardsOf(c)|
      ensures QueueIs(s, GuardsOf(c)[i].q)
    {
      GuardIsLive(s, t, i);
      QueueOkIs(s, GuardsOf(c)[i].q);
    }
    if c.Requeueing? && c.source.Some? {
      assert GuardsOf(c)[0] == c.source.value && GuardsOf(c)[1] == c.g2;
    } else if c.Requeueing? {
      assert GuardsOf(c)[0] == c.g2;
    } else if GuardsOf(c) != [] {
      assert QueueIs(s, GuardsOf(c)[0].q);
    }
  }

  // ---- The table never forgets ----

  /** The addresses a step looks up with `get_or_insert`. */
  ghost function Inserts(s: Sys, a: Action): set<nat>
    requires Can(s, a)
  {
    if a.WaitGet? then {s.threads[a.t].addr}
    else if a.RequeueInsert? then {s.threads[a.t].addr2}
    else {}
  }

  ghost function Touched(s: Sys, run: seq<Action>): set<nat>
    requires Run(s, run).Some?
  {
    if run == [] then {}
    else Touched(s, run[..|run| - 1]) + Inserts(Run(s, run[..|run| - 1]).value, run[|run| - 1])
  }

  lemma StepTable(s: Sys, a: Action)
    requires Inv(s) && Can(s, a)
    ensures Do(s, a).table.Keys == s.table.Keys + Inserts(s, a)
    ensures forall k :: k in s.table ==> Do(s, a).table[k] == s.table[k]
  {
    if a.DropGuard? {
      DropRemovesNothing(s, a.t);
    }
  }

  /**
   `WaitQueueGuard::drop` means to remove an entry that is no longer used. It never does: the table
   itself is one reference and the guard another, so the count it compares with 1 is at least 2. After
   any run the table holds exactly the addresses ever waited on or requeued to, each with the queue it
   was given first.
   */
  lemma {:induction false} TableNeverForgets(s: Sys, run: seq<Action>)
    requires Inv(s) && Run(s, run).Some?
    ensures Run(s, run).value.table.Keys == s.table.Keys + Touched(s, run)
    ensures forall k :: k in s.table ==> k in Run(s, run).value.table && Run(s, run).value.table[k] == s.table[k]
  {
    if run != [] {
      var n := |run| - 1;
      TableNeverForgets(s, run[..n]);
      RunKeepsInv(s, run[..n]);
      StepTable(Run(s, run[..n]).value, run[n]);
    }
  }

  // ---- How a wait ends, and in which order ----

  /** The queue a wake or requeue call wakes from. */
  ghost function WakesFrom(c: Call): Option<nat> {
    match c
    case Waking(g, _, _) => Some(g.q)
    case Requeueing(source, _, _, _, _) => if source.Some? then Some(source.value.q) else None
    case _ => None
  }

  /** A sleeper stops sleeping only by its own timeout or as the front of the queue being woken. */
  lemma WaitEndsOnlyByWake(s: Sys, a: Action, t: nat)
    requires Inv(s) && Can(s, a) && t < |s.threads| && s.threads[t].Blocked?
    ensures t < |Do(s, a).threads|
    ensures !Do(s, a).threads[t].Blocked? ==>
              && Do(s, a).threads[t] == Leaving([s.threads[t].g], Awoken)
              && (a == Timeout(t) ||
                  var q := WakesFrom(s.threads[a.t]);
                  && (a.WakeStep? || a.RequeueStep?)
                  && q.Some? && q.value in s.queues && s.queues[q.value].value != []
                  && s.queues[q.value].value[0] == t)
  {
    match a
    case WakeStep(u) => WakeWakesFront(s, u, t);
    case RequeueStep(u) => RequeueWakesFront(s, u, t);
    case _ => OthersSleepOn(s, a, t);
  }

  lemma WakeWakesFront(s: Sys, u: nat, t: nat)
    requires Can(s, WakeStep(u)) && t < |s.threads| && s.threads[t].Blocked?
    ensures !DoWakeStep(s, u).threads[t].Blocked? ==>
              && s.queues[s.threads[u].g.q].value != [] && s.queues[s.threads[u].g.q].value[0] == t
              && DoWakeStep(s, u).threads[t] == Leaving([s.threads[t].g], Awoken)
  {
  }

  lemma RequeueWakesFront(s: Sys, u: nat, t: nat)
    requires Can(s, RequeueStep(u)) && t < |s.threads| && s.threads[t].Blocked?
    ensures !DoRequeueStep(s, u).threads[t].Blocked? ==>
              && s.threads[u].source.Some? && s.queues[s.threads[u].source.value.q].value != []
              && s.queues[s.threads[u].source.value.q].value[0] == t
              && DoRequeueStep(s, u).threads[t] == Leaving([s.threads[t].g], Awoken)
  {
  }

  lemma OthersSleepOn(s: Sys, a: Action, t: nat)
    requires Can(s, a) && !a.WakeStep? && !a.RequeueStep?
    requires t < |s.threads| && s.threads[t].Blocked?
    ensures t < |Do(s, a).threads|
    ensures Do(s, a).threads[t] == if a == Timeout(t) then Leaving([s.threads[t].g], Awoken) else s.threads[t]
  {
  }

  /** `x` stands before `y`. */
  ghost predicate Before(tasks: seq<nat>, x: nat, y: nat) {
    exists i, j :: 0 <= i < j < |tasks| && tasks[i] == x && tasks[j] == y
  }

  /** Two sleepers that a step leaves in the same queue keep their order, unless a queue is requeued onto itself. */
  lemma StepKeepsOrder(s: Sys, a: Action, q: nat, x: nat, y: nat)
    requires Inv(s) && Can(s, a) && q in s.queues && Before(s.queues[q].value, x, y)
    requires q in Do(s, a).queues && x in Do(s, a).queues[q].value && y in Do(s, a).queues[q].value
    requires a.RequeueStep? && s.threads[a.t].source.Some? ==> s.threads[a.t].source.value.q != s.threads[a.t].g2.q
    ensures Before(Do(s, a).queues[q].value, x, y)
  {
    var tasks, tasks' := s.queues[q].value, Do(s, a).queues[q].value;
    assert QueueOk(s, q);
    if a.Timeout? && s.threads[a.t].g.q == q {
      WithoutMember(tasks, a.t, x);
      WithoutMember(tasks, a.t, y);
      WithoutKeepsOrder(tasks, a.t, x, y);
    } else {
      var n, more := QueueShape(s, a, q);
      if tasks' == tasks[n..] {
        SuffixKeepsOrder(tasks, n, x, y);
      } else {
        var i, j :| 0 <= i < j < |tasks| && tasks[i] == x && tasks[j] == y;
        assert tasks'[i] == x && tasks'[j] == y;
      }
    }
  }

  /** Every step but a timeout drops a prefix of a queue or extends it at the back. */
  lemma QueueShape(s: Sys, a: Action, q: nat) returns (n: nat, more: seq<nat>)
    requires Inv(s) && Can(s, a) && q in s.queues && q in Do(s, a).queues
    requires !(a.Timeout? && s.threads[a.t].g.q == q)
    requires a.RequeueStep? && s.threads[a.t].source.Some? ==> s.threads[a.t].source.value.q != s.threads[a.t].g2.q
    ensures n <= |s.queues[q].value|
    ensures Do(s, a).queues[q].value == s.queues[q].value[n..]
         || Do(s, a).queues[q].value == s.queues[q].value + more
  {
    var c, tasks := s.threads[a.t], s.queues[q].value;
    n, more := 0, [];
    match a
    case Sleep(t) => more := [t];
    case WakeStep(_) => n := if tasks == [] then 0 else 1;
    case RequeueStep(t) => n, more := RequeueShape(s, t, q);
    case _ => OthersKeepQueue(s, a, q);
    assert tasks[0..] == tasks;
  }

  lemma RequeueShape(s: Sys, t: nat, q: nat) returns (n: nat, more: seq<nat>)
    requires Can(s, RequeueStep(t)) && q in s.queues
    requires s.threads[t].source.Some? ==> s.threads[t].source.value.q != s.threads[t].g2.q
    ensures n <= |s.queues[q].value|
    ensures DoRequeueStep(s, t).queues[q].value == s.queues[q].value[n..]
         || DoRequeueStep(s, t).queues[q].value == s.queues[q].value + more
  {
    var c, tasks := s.threads[t], s.queues[q].value;
    n, more := 0, [];
    assert tasks[0..] == tasks;
    if c.source.Some? {
      var from := s.queues[c.source.value.q].value;
      if |c.woken| < c.value {
        n := if q == c.source.value.q && tasks != [] then 1 else 0;
      } else {
        var k := Min(c.value2, |from|);
        n := if q == c.source.value.q then k else 0;
        more := from[..k];
      }
    }
  }

  lemma OthersKeepQueue(s: Sys, a: Action, q: nat)
    requires Inv(s) && Can(s, a) && q in s.queues && q in Do(s, a).queues
    requires !a.Sleep? && !a.WakeStep? && !a.RequeueStep? && !(a.Timeout? && s.threads[a.t].g.q == q)
    ensures Do(s, a).queues[q].value == s.queues[q].value
  {
    if a.DropGuard? {
      DropKeepsQueue(s, a.t, q);
    } else {
      FreshQueue(s);
    }
  }

  lemma DropKeepsQueue(s: Sys, t: nat, q: nat)
    requires Inv(s) && Can(s, DropGuard(t)) && q in s.queues && q in DoDropGuard(s, t).queues
    ensures DoDropGuard(s, t).queues[q].value == s.queues[q].value
  {
    DropRemovesNothing(s, t);
  }

  lemma SuffixKeepsOrder(tasks: seq<nat>, n: nat, x: nat, y: nat)
    requires n <= |tasks| && Distinct(tasks) && Before(tasks, x, y) && x in tasks[n..]
    ensures Before(tasks[n..], x, y)
  {
    var i, j :| 0 <= i < j < |tasks| && tasks[i] == x && tasks[j] == y;
    assert i >= n;
    assert tasks[n..][i - n] == x && tasks[n..][j - n] == y;
  }

  lemma {:induction false} WithoutKeepsOrder(tasks: seq<nat>, t: nat, x: nat, y: nat)
    requires Distinct(tasks) && Before(tasks, x, y) && x != t && y != t
    ensures Before(Without(tasks, t), x, y)
  {
    var i, j :| 0 <= i < j < |tasks| && tasks[i] == x && tasks[j] == y;
    var rest := tasks[1..];
    if tasks[0] == t {
      assert rest[i - 1] == x && rest[j - 1] == y;
    } else {
      var w := Without(rest, t);
      if i == 0 {
        WithoutMember(rest, t, y);
        assert rest[j - 1] == y;
        var k :| 0 <= k < |w| && w[k] == y;
        assert ([x] + w)[0] == x && ([x] + w)[k + 1] == y;
      } else {
        assert rest[i - 1] == x && rest[j - 1] == y;
        WithoutKeepsOrder(rest, t, x, y);
        var k, l :| 0 <= k < l < |w| && w[k] == x && w[l] == y;
        assert ([tasks[0]] + w)[k + 1] == x && ([tasks[0]] + w)[l + 1] == y;
      }
    }
  }

  /** Requeueing a queue onto itself rotates it, so there the order is not kept. */
  lemma SelfRequeueRotates(s: Sys, g: Guard, n: nat)
    requires QueueIs(s, g.q) && n <= |s.queues[g.q].value|
    ensures MoveTasks(s, g.q, g, n).queues[g.q].value == s.queues[g.q].value[n..] + s.queues[g.q].value[..n]
  {
  }

  // ---- What wake and requeue report ----

  /** In any interleaving: a call wakes and moves no more than asked, and moves none unless it woke them all. */
  lemma ReportsAreWithinLimits(s: Sys, t: nat)
    requires Reachable(s) && t < |s.threads| && s.threads[t].Idle?
    ensures s.threads[t].ret.Woke? ==> Count(s.threads[t].ret) <= s.threads[t].ret.limit
    ensures s.threads[t].ret.Requeued? ==>
              var r := s.threads[t].ret;
              && |r.first| <= r.value && |r.moved| <= r.value2
              && (r.moved != [] ==> |r.first| == r.value)
              && Count(r) == |r.first| + |r.moved|
  {
    ReachableIsInv(s);
    assert LimitsOk(s.threads[t]);
  }

  // ---- The gap between comparing and sleeping ----

  /** While nobody stores to the word, a waiter that compared it successfully still finds it unchanged. */
  lemma {:induction false} WordStableWithoutStores(s: Sys, run: seq<Action>, addr: nat)
    requires Run(s, run).Some?
    requires forall i :: 0 <= i < |run| ==> !((run[i].Store? || run[i].ExitWake?) && run[i].addr == addr)
    ensures Word(Run(s, run).value, addr) == Word(s, addr)
  {
    if run != [] {
      var n := |run| - 1;
      WordStableWithoutStores(s, run[..n], addr);
      assert !((run[n].Store? || run[n].ExitWake?) && run[n].addr == addr);
      StepWord(Run(s, run[..n]).value, run[n], addr);
    }
  }

  lemma StepWord(s: Sys, a: Action, addr: nat)
    requires Can(s, a) && !((a.Store? || a.ExitWake?) && a.addr == addr)
    ensures Word(Do(s, a), addr) == Word(s, addr)
  {
  }

  /**
   A wait is refused exactly if the word differs from the expected value; and until somebody stores to
   the word, whatever else happens, a waiter that passed the comparison sleeps on the value it expected.
   */
  lemma SleepsOnExpectedValue(s: Sys, t: nat, addr: nat, wanted: int, timed: bool, run: seq<Action>)
    requires Can(s, WaitCheck(t, addr, wanted, timed))
    requires Run(Do(s, WaitCheck(t, addr, wanted, timed)), run).Some?
    requires forall i :: 0 <= i < |run| ==> !((run[i].Store? || run[i].ExitWake?) && run[i].addr == addr)
    ensures var m := Do(s, WaitCheck(t, addr, wanted, timed));
            && (m.threads[t] == Idle(Again) <==> Word(s, addr) != wanted)
            && (m.threads[t] == WaitChecked(addr, timed) <==> Word(Run(m, run).value, addr) == wanted)
  {
    WordStableWithoutStores(Do(s, WaitCheck(t, addr, wanted, timed)), run, addr);
  }
}
