/** What every step of the futex system keeps. */
module FutexInvariant {
  import opened Basics
  import opened RefCount
  import opened Futex

  // ---- References to queues ----

  ghost function QueueIds(gs: seq<Guard>): seq<nat> {
    seq(|gs|, i requires 0 <= i < |gs| => gs[i].q)
  }

  /** How many guards on queue `q` each call holds. */
  ghost function Shares(threads: seq<Call>, q: nat): seq<nat> {
    seq(|threads|, t requires 0 <= t < |threads| => Occ(QueueIds(GuardsOf(threads[t])), q))
  }

  ghost function GuardRefs(threads: seq<Call>, q: nat): nat {
    Sum(Shares(threads, q))
  }

  /** References to queue `q`: the table's, and one for each guard in flight. */
  ghost function Refs(s: Sys, q: nat): nat {
    (if q in s.table.Values then 1 else 0) + GuardRefs(s.threads, q)
  }

  ghost predicate CountsExact(s: Sys) {
    forall q: nat :: Exact(s.queues, q, Refs(s, q))
  }

  // ---- The invariant ----

  /** The guard's queue is the one the table gives for its key. */
  ghost predicate GuardOk(s: Sys, g: Guard) {
    g.key in s.table && s.table[g.key] == g.q
  }

  ghost predicate GuardsOk(s: Sys) {
    forall t, i :: 0 <= t < |s.threads| && 0 <= i < |GuardsOf(s.threads[t])| ==> GuardOk(s, GuardsOf(s.threads[t])[i])
  }

  /** No two addresses share a queue. */
  ghost predicate TableOk(s: Sys) {
    && (forall a, b :: a in s.table && b in s.table && s.table[a] == s.table[b] ==> a == b)
    && (forall a :: a in s.table ==> s.table[a] < s.nextQ)
  }

  /** A sleeper is in the queue of the address it sleeps at. */
  ghost predicate SleeperOk(s: Sys, t: nat)
    requires t < |s.threads|
  {
    var c := s.threads[t];
    c.Blocked? ==> c.at in s.table && s.table[c.at] in s.queues && t in s.queues[s.table[c.at]].value
  }

  /** Queue `q` holds distinct threads, each asleep at the address whose queue this is. */
  ghost predicate QueueOk(s: Sys, q: nat)
    requires q in s.queues
  {
    var tasks := s.queues[q].value;
    && Distinct(tasks)
    && (forall t :: t in tasks ==>
          && t < |s.threads| && s.threads[t].Blocked?
          && s.threads[t].at in s.table && s.table[s.threads[t].at] == q)
  }

  ghost predicate Distinct(tasks: seq<nat>) {
    forall i, j :: 0 <= i < j < |tasks| ==> tasks[i] != tasks[j]
  }

  /** The limits that wake and requeue calls respect. */
  ghost predicate LimitsOk(c: Call) {
    match c
    case Waking(_, value, woken) => |woken| <= value
    case Requeueing(_, _, value, _, woken) => |woken| <= value
    case Leaving(gs, r) => gs != [] && RetOk(r)
    case Idle(r) => RetOk(r)
    case _ => true
  }

  ghost predicate RetOk(r: Ret) {
    match r
    case Woke(woken, limit) => |woken| <= limit
    case Requeued(woken, moved, value, value2) =>
      && |woken| <= value && |moved| <= value2
      && (moved != [] ==> |woken| == value)
    case _ => true
  }

  ghost predicate QueuesOk(s: Sys) {
    && (forall t :: 0 <= t < |s.threads| ==> SleeperOk(s, t))
    && (forall q :: q in s.queues ==> QueueOk(s, q))
  }

  ghost predicate Inv(s: Sys) {
    && CountsExact(s) && GuardsOk(s) && TableOk(s) && QueuesOk(s)
    && (forall t :: 0 <= t < |s.threads| ==> LimitsOk(s.threads[t]))
  }

  // ---- Counting lemmas ----

  lemma GuardRefsUpdate(threads: seq<Call>, i: nat, c: Call, q: nat)
    requires i < |threads|
    ensures GuardRefs(threads[i := c], q) + Occ(QueueIds(GuardsOf(threads[i])), q)
         == GuardRefs(threads, q) + Occ(QueueIds(GuardsOf(c)), q)
  {
    var x := Occ(QueueIds(GuardsOf(c)), q);
    SumUpdate(Shares(threads, q), i, x);
    assert Shares(threads[i := c], q) == Shares(threads, q)[i := x];
  }

  lemma GuardRefsSame(threads: seq<Call>, threads': seq<Call>, q: nat)
    requires |threads| == |threads'|
    requires forall i :: 0 <= i < |threads| ==> GuardsOf(threads[i]) == GuardsOf(threads'[i])
    ensures GuardRefs(threads, q) == GuardRefs(threads', q)
  {
    assert Shares(threads, q) == Shares(threads', q);
  }

  lemma GuardIsCounted(threads: seq<Call>, t: nat, i: nat)
    requires t < |threads| && i < |GuardsOf(threads[t])|
    ensures GuardRefs(threads, GuardsOf(threads[t])[i].q) > 0
  {
    var ids, q := QueueIds(GuardsOf(threads[t])), GuardsOf(threads[t])[i].q;
    assert ids[i] == q;
    OccMember(ids, q);
    SumAtLeast(Shares(threads, q), t);
  }

  /** A guard in flight refers to a live queue that at least the table refers to as well. */
  lemma GuardIsLive(s: Sys, t: nat, i: nat)
    requires CountsExact(s) && GuardsOk(s) && t < |s.threads| && i < |GuardsOf(s.threads[t])|
    ensures GuardsOf(s.threads[t])[i].q in s.queues
    ensures s.queues[GuardsOf(s.threads[t])[i].q].count >= 2
  {
    var g := GuardsOf(s.threads[t])[i];
    GuardIsCounted(s.threads, t, i);
    assert GuardOk(s, g);
    assert Exact(s.queues, g.q, Refs(s, g.q));
  }

  lemma TableQueueIsLive(s: Sys, a: nat)
    requires CountsExact(s) && a in s.table
    ensures s.table[a] in s.queues
  {
    assert s.table[a] in s.table.Values;
    assert Exact(s.queues, s.table[a], Refs(s, s.table[a]));
  }

  // ---- Steps that change one call and no queue contents ----

  /** A step that only replaces a call by another that neither sleeps nor slept. */
  ghost predicate CallStep(s: Sys, s': Sys, t: nat) {
    && t < |s.threads| && |s'.threads| == |s.threads|
    && s'.threads == s.threads[t := s'.threads[t]]
    && !s.threads[t].Blocked? && !s'.threads[t].Blocked?
    && s'.nextQ >= s.nextQ
    && (forall a :: a in s.table ==> a in s'.table && s'.table[a] == s.table[a])
    && (forall q :: q in s.queues ==> q in s'.queues && s'.queues[q].value == s.queues[q].value)
    && (forall q :: q in s'.queues && q !in s.queues ==> s'.queues[q].value == [])
  }

  lemma CallStepQueues(s: Sys, s': Sys, t: nat)
    requires QueuesOk(s) && CallStep(s, s', t)
    ensures QueuesOk(s')
  {
    forall u | 0 <= u < |s'.threads|
      ensures SleeperOk(s', u)
    {
      assert SleeperOk(s, u);
    }
    forall q | q in s'.queues
      ensures QueueOk(s', q)
    {
      assert q in s.queues ==> QueueOk(s, q);
    }
  }

  /** Guards stay good while the table keeps its entries. */
  lemma GuardsStay(s: Sys, s': Sys, t: nat)
    requires GuardsOk(s) && t < |s.threads| && |s'.threads| == |s.threads|
    requires forall a :: a in s.table ==> a in s'.table && s'.table[a] == s.table[a]
    requires forall u :: 0 <= u < |s.threads| && u != t ==> GuardsOf(s'.threads[u]) == GuardsOf(s.threads[u])
    requires forall i :: 0 <= i < |GuardsOf(s'.threads[t])| ==> GuardOk(s', GuardsOf(s'.threads[t])[i])
    ensures GuardsOk(s')
  {
    forall u, i | 0 <= u < |s'.threads| && 0 <= i < |GuardsOf(s'.threads[u])|
      ensures GuardOk(s', GuardsOf(s'.threads[u])[i])
    {
      if u != t {
        assert GuardOk(s, GuardsOf(s.threads[u])[i]);
      }
    }
  }

  lemma OccIds(gs: seq<Guard>, g: Guard, q: nat)
    ensures Occ(QueueIds(gs + [g]), q) == Occ(QueueIds(gs), q) + (if g.q == q then 1 else 0)
    ensures Occ(QueueIds([g] + gs), q) == Occ(QueueIds(gs), q) + (if g.q == q then 1 else 0)
  {
    assert QueueIds(gs + [g]) == QueueIds(gs) + [g.q];
    assert QueueIds([g] + gs) == [g.q] + QueueIds(gs);
    OccConcat(QueueIds(gs), [g.q], q);
    OccConcat([g.q], QueueIds(gs), q);
    assert [g.q][..0] == [];
  }

  /** Replacing a call by one with the same guards. */
  lemma SameGuards(s: Sys, t: nat, c: Call)
    requires Inv(s) && t < |s.threads| && GuardsOf(c) == GuardsOf(s.threads[t])
    requires !s.threads[t].Blocked? && !c.Blocked? && LimitsOk(c)
    ensures Inv(SetCall(s, t, c))
  {
    var s' := SetCall(s, t, c);
    forall q: nat
      ensures Exact(s'.queues, q, Refs(s', q))
    {
      assert Exact(s.queues, q, Refs(s, q));
      GuardRefsUpdate(s.threads, t, c, q);
    }
    forall i | 0 <= i < |GuardsOf(c)|
      ensures GuardOk(s', GuardsOf(c)[i])
    {
      assert GuardOk(s, GuardsOf(s.threads[t])[i]);
    }
    GuardsStay(s, s', t);
    CallStepQueues(s, s', t);
  }

  /** Looking up an address that is in the table, or inserting one that is not. */
  lemma TakeCounts(s: Sys, s': Sys, t: nat, g: Guard, c: Call)
    requires Inv(s) && t < |s.threads| && g.key in s.table && g == GuardFor(s, g.key)
    requires s' == SetCall(TakeGuard(s, g.key), t, c)
    requires forall q :: Occ(QueueIds(GuardsOf(c)), q)
                      == Occ(QueueIds(GuardsOf(s.threads[t])), q) + (if g.q == q then 1 else 0)
    ensures CountsExact(s')
  {
    TableQueueIsLive(s, g.key);
    forall q: nat
      ensures Exact(s'.queues, q, Refs(s', q))
    {
      assert Exact(s.queues, q, Refs(s, q));
      GuardRefsUpdate(s.threads, t, c, q);
    }
  }

  lemma InsertCounts(s: Sys, s': Sys, t: nat, addr: nat, c: Call)
    requires Inv(s) && t < |s.threads| && addr !in s.table
    requires s' == SetCall(InsertGuard(s, addr), t, c)
    requires forall q :: Occ(QueueIds(GuardsOf(c)), q)
                      == Occ(QueueIds(GuardsOf(s.threads[t])), q) + (if s.nextQ == q then 1 else 0)
    ensures CountsExact(s')
  {
    assert s'.table.Values == s.table.Values + {s.nextQ} by {
      forall v | v in s.table.Values
        ensures v in s'.table.Values
      {
        var a :| a in s.table && s.table[a] == v;
        assert s'.table[a] == v;
      }
      assert s'.table[addr] == s.nextQ;
    }
    FreshQueue(s);
    forall q: nat
      ensures Exact(s'.queues, q, Refs(s', q))
    {
      assert Exact(s.queues, q, Refs(s, q));
      GuardRefsUpdate(s.threads, t, c, q);
    }
  }

  /** The next queue number is unused. */
  lemma FreshQueue(s: Sys)
    requires Inv(s)
    ensures s.nextQ !in s.table.Values && s.nextQ !in s.queues
    ensures Refs(s, s.nextQ) == 0
  {
    assert Exact(s.queues, s.nextQ, Refs(s, s.nextQ));
    forall t, i | 0 <= t < |s.threads| && 0 <= i < |GuardsOf(s.threads[t])|
      ensures GuardsOf(s.threads[t])[i].q != s.nextQ
    {
      assert GuardOk(s, GuardsOf(s.threads[t])[i]);
    }
    UnheldIsUncounted(s.threads, s.nextQ);
  }

  lemma UnheldIsUncounted(threads: seq<Call>, q: nat)
    requires forall t, i :: 0 <= t < |threads| && 0 <= i < |GuardsOf(threads[t])| ==> GuardsOf(threads[t])[i].q != q
    ensures GuardRefs(threads, q) == 0
  {
    forall t | 0 <= t < |threads|
      ensures Shares(threads, q)[t] == 0
    {
      OccMember(QueueIds(GuardsOf(threads[t])), q);
    }
    SumOfNone(Shares(threads, q));
  }

  /** A call that gains the guard for `addr`, by lookup or by insertion. */
  lemma GainGuard(s: Sys, t: nat, addr: nat, c: Call)
    requires Inv(s) && t < |s.threads| && !s.threads[t].Blocked? && !c.Blocked? && LimitsOk(c)
    requires var g := GuardFor(InsertGuard(s, addr), addr);
             GuardsOf(c) == GuardsOf(s.threads[t]) + [g]
    ensures Inv(SetCall(InsertGuard(s, addr), t, c))
  {
    var s' := SetCall(InsertGuard(s, addr), t, c);
    GainCounts(s, t, addr, c);
    GainGuards(s, t, addr, c);
    FreshQueue(s);
    CallStepQueues(s, s', t);
  }

  lemma GainCounts(s: Sys, t: nat, addr: nat, c: Call)
    requires Inv(s) && t < |s.threads|
    requires GuardsOf(c) == GuardsOf(s.threads[t]) + [GuardFor(InsertGuard(s, addr), addr)]
    ensures CountsExact(SetCall(InsertGuard(s, addr), t, c))
  {
    var g, s' := GuardFor(InsertGuard(s, addr), addr), SetCall(InsertGuard(s, addr), t, c);
    forall q
      ensures Occ(QueueIds(GuardsOf(c)), q)
              == Occ(QueueIds(GuardsOf(s.threads[t])), q) + (if g.q == q then 1 else 0)
    {
      OccIds(GuardsOf(s.threads[t]), g, q);
    }
    if addr in s.table {
      TakeCounts(s, s', t, g, c);
    } else {
      InsertCounts(s, s', t, addr, c);
    }
  }

  lemma GainGuards(s: Sys, t: nat, addr: nat, c: Call)
    requires Inv(s) && t < |s.threads|
    requires GuardsOf(c) == GuardsOf(s.threads[t]) + [GuardFor(InsertGuard(s, addr), addr)]
    ensures GuardsOk(SetCall(InsertGuard(s, addr), t, c))
  {
    var s' := SetCall(InsertGuard(s, addr), t, c);
    forall i | 0 <= i < |GuardsOf(c)|
      ensures GuardOk(s', GuardsOf(c)[i])
    {
      if i < |GuardsOf(s.threads[t])| {
        assert GuardOk(s, GuardsOf(s.threads[t])[i]);
      }
    }
    GuardsStay(s, s', t);
  }

  // ---- Dropping a guard ----

  /** While a guard is held its queue has at least two references, so its drop never removes the entry. */
  lemma DropRemovesNothing(s: Sys, t: nat)
    requires Inv(s) && Can(s, DropGuard(t))
    ensures !RemovesEntry(s, s.threads[t].gs[0])
    ensures DoDropGuard(s, t).table == s.table
  {
    GuardIsLive(s, t, 0);
  }

  lemma DropCounts(s: Sys, t: nat, q: nat)
    requires Inv(s) && Can(s, DropGuard(t))
    ensures Exact(DoDropGuard(s, t).queues, q, Refs(DoDropGuard(s, t), q))
  {
    var s', c := DoDropGuard(s, t), s.threads[t];
    var g, rest := c.gs[0], c.gs[1..];
    DropRemovesNothing(s, t);
    assert c.gs == [g] + rest && GuardsOf(s'.threads[t]) == rest;
    assert Exact(s.queues, q, Refs(s, q));
    GuardRefsUpdate(s.threads, t, s'.threads[t], q);
    OccIds(rest, g, q);
  }

  lemma DropKeepsInv(s: Sys, t: nat)
    requires Inv(s) && Can(s, DropGuard(t))
    ensures Inv(DoDropGuard(s, t))
  {
    var s', c := DoDropGuard(s, t), s.threads[t];
    DropRemovesNothing(s, t);
    GuardIsLive(s, t, 0);
    forall q: nat
      ensures Exact(s'.queues, q, Refs(s', q))
    {
      DropCounts(s, t, q);
    }
    assert GuardsOf(s'.threads[t]) == c.gs[1..];
    forall i | 0 <= i < |GuardsOf(s'.threads[t])|
      ensures GuardOk(s', GuardsOf(s'.threads[t])[i])
    {
      assert GuardOk(s, GuardsOf(c)[i + 1]);
    }
    GuardsStay(s, s', t);
    assert LimitsOk(c);
    CallStepQueues(s, s', t);
  }

  // ---- Sleeping, waking, timing out ----

  lemma SleepKeepsInv(s: Sys, t: nat)
    requires Inv(s) && Can(s, Sleep(t))
    ensures Inv(DoSleep(s, t))
  {
    var s', c := DoSleep(s, t), s.threads[t];
    assert GuardOk(s, GuardsOf(c)[0]);
    SameGuardCounts(s, s');
    forall u | 0 <= u < |s'.threads|
      ensures SleeperOk(s', u)
    {
      assert SleeperOk(s, u);
      assert u == t ==> s'.queues[c.g.q].value[|s.queues[c.g.q].value|] == t;
      if u != t && s.threads[u].Blocked? {
        assert u in s.queues[s.table[s.threads[u].at]].value;
      }
    }
    forall q | q in s'.queues
      ensures QueueOk(s', q)
    {
      assert QueueOk(s, q);
      assert t !in s.queues[q].value;
    }
  }

  /** No guard is gained or lost; queue contents may change, counts do not. */
  lemma SameGuardCounts(s: Sys, s': Sys)
    requires CountsExact(s) && GuardsOk(s) && TableOk(s)
    requires s'.table == s.table && s'.nextQ == s.nextQ
    requires |s'.threads| == |s.threads|
    requires forall u :: 0 <= u < |s.threads| ==> GuardsOf(s'.threads[u]) == GuardsOf(s.threads[u])
    requires s'.queues.Keys == s.queues.Keys
    requires forall q :: q in s.queues ==> s'.queues[q].count == s.queues[q].count
    ensures CountsExact(s') && GuardsOk(s') && TableOk(s')
  {
    forall q: nat
      ensures Exact(s'.queues, q, Refs(s', q))
    {
      assert Exact(s.queues, q, Refs(s, q));
      GuardRefsSame(s.threads, s'.threads, q);
    }
    forall u, i | 0 <= u < |s'.threads| && 0 <= i < |GuardsOf(s'.threads[u])|
      ensures GuardOk(s', GuardsOf(s'.threads[u])[i])
    {
      assert GuardOk(s, GuardsOf(s.threads[u])[i]);
    }
  }

  /** Taking one sleeper out of its queue and letting it leave its wait. */
  lemma RemoveSleeper(s: Sys, s': Sys, q: nat, u: nat, tasks: seq<nat>)
    requires Inv(s) && q in s.queues && u < |s.threads| && u in s.queues[q].value
    requires s.threads[u].Blocked?
    requires Distinct(tasks) && u !in tasks
    requires forall x :: x in tasks <==> x in s.queues[q].value && x != u
    requires s' == SetCall(SetTasks(s, q, tasks), u, Leaving([s.threads[u].g], Awoken))
    ensures Inv(s')
  {
    SameGuardCounts(s, s');
    assert QueueOk(s, q);
    forall v | 0 <= v < |s'.threads|
      ensures SleeperOk(s', v)
    {
      assert SleeperOk(s, v);
    }
    forall p | p in s'.queues
      ensures QueueOk(s', p)
    {
      assert QueueOk(s, p);
    }
  }

  lemma NotifyKeepsInv(s: Sys, q: nat)
    requires Inv(s) && QueueIs(s, q) && s.queues[q].value != []
    ensures Inv(NotifyOne(s, q))
    ensures forall t :: 0 <= t < |s.threads| && !s.threads[t].Blocked? ==> NotifyOne(s, q).threads[t] == s.threads[t]
  {
    var tasks := s.queues[q].value;
    assert QueueOk(s, q);
    RemoveSleeper(s, NotifyOne(s, q), q, tasks[0], tasks[1..]);
  }

  lemma {:induction false} WithoutMember(tasks: seq<nat>, t: nat, x: nat)
    requires Distinct(tasks)
    ensures x in Without(tasks, t) <==> x in tasks && x != t
  {
    if tasks != [] {
      WithoutMember(tasks[1..], t, x);
      assert x in tasks <==> x == tasks[0] || x in tasks[1..];
    }
  }

  lemma {:induction false} WithoutDistinct(tasks: seq<nat>, t: nat)
    requires Distinct(tasks)
    ensures Distinct(Without(tasks, t))
  {
    if tasks != [] && tasks[0] != t {
      WithoutDistinct(tasks[1..], t);
      WithoutMember(tasks[1..], t, tasks[0]);
      var w := Without(tasks[1..], t);
      assert forall j :: 0 <= j < |w| ==> w[j] != tasks[0];
    }
  }

  lemma TimeoutKeepsInv(s: Sys, t: nat)
    requires Inv(s) && Can(s, Timeout(t))
    ensures Inv(DoTimeout(s, t))
  {
    var c := s.threads[t];
    assert SleeperOk(s, t) && GuardOk(s, GuardsOf(c)[0]) && QueueOk(s, c.g.q);
    WithoutDistinct(s.queues[c.g.q].value, t);
    forall x: nat
      ensures x in Without(s.queues[c.g.q].value, t) <==> x in s.queues[c.g.q].value && x != t
    {
      WithoutMember(s.queues[c.g.q].value, t, x);
    }
    RemoveSleeper(s, DoTimeout(s, t), c.g.q, t, Without(s.queues[c.g.q].value, t));
  }

  // ---- Requeueing ----

  lemma MoveKeepsInv(s: Sys, q: nat, g2: Guard, n: nat)
    requires Inv(s) && QueueIs(s, q) && g2.q in s.queues && GuardOk(s, g2) && n <= |s.queues[q].value|
    ensures Inv(MoveTasks(s, q, g2, n))
    ensures forall t :: 0 <= t < |s.threads| && !s.threads[t].Blocked? ==>
              MoveTasks(s, q, g2, n).threads[t] == s.threads[t]
  {
    var s', tasks := MoveTasks(s, q, g2, n), s.queues[q].value;
    SameGuardCounts(s, s');
    forall t | 0 <= t < |s'.threads|
      ensures LimitsOk(s'.threads[t])
    {
      assert LimitsOk(s.threads[t]);
    }
    MoveQueues(s, q, g2, n);
  }

  /** The two queues after a move, by membership and by order. */
  lemma MovedContents(s: Sys, q: nat, g2: Guard, n: nat)
    requires QueuesOk(s) && QueueIs(s, q) && g2.q in s.queues && n <= |s.queues[q].value|
    ensures var s', moved := MoveTasks(s, q, g2, n), s.queues[q].value[..n];
            && (forall p :: p in s.queues ==> Distinct(s'.queues[p].value))
            && (forall x :: x in s'.queues[g2.q].value <==> x in s.queues[g2.q].value || x in moved)
            && (q != g2.q ==> forall x :: x in s'.queues[q].value <==> x in s.queues[q].value && x !in moved)
            && (forall p :: p in s.queues && p != q && p != g2.q ==> s'.queues[p].value == s.queues[p].value)
  {
    var s', tasks := MoveTasks(s, q, g2, n), s.queues[q].value;
    var moved, rest := tasks[..n], tasks[n..];
    assert tasks == moved + rest && QueueOk(s, q) && QueueOk(s, g2.q);
    assert s'.queues[g2.q].value == (if q == g2.q then rest else s.queues[g2.q].value) + moved;
    assert q != g2.q ==> s'.queues[q].value == rest;
    assert forall x :: x in moved && x in s.queues[g2.q].value ==> q == g2.q;
    forall p | p in s.queues
      ensures Distinct(s'.queues[p].value)
    {
      assert QueueOk(s, p);
    }
  }

  lemma MoveQueues(s: Sys, q: nat, g2: Guard, n: nat)
    requires Inv(s) && QueueIs(s, q) && g2.q in s.queues && GuardOk(s, g2) && n <= |s.queues[q].value|
    ensures QueuesOk(MoveTasks(s, q, g2, n))
  {
    var s' := MoveTasks(s, q, g2, n);
    MovedContents(s, q, g2, n);
    assert QueueOk(s, q);
    forall t | 0 <= t < |s'.threads|
      ensures SleeperOk(s', t)
    {
      assert SleeperOk(s, t);
    }
    forall p | p in s'.queues
      ensures QueueOk(s', p)
    {
      assert QueueOk(s, p);
    }
  }

  // ---- All steps ----

  lemma WakeStepKeepsInv(s: Sys, t: nat)
    requires Inv(s) && Can(s, WakeStep(t))
    ensures Inv(DoWakeStep(s, t))
  {
    var c := s.threads[t];
    assert LimitsOk(c);
    if |c.woken| >= c.value || s.queues[c.g.q].value == [] {
      SameGuards(s, t, Leaving([c.g], Woke(c.woken, c.value)));
    } else {
      NotifyKeepsInv(s, c.g.q);
      SameGuards(NotifyOne(s, c.g.q), t, DoWakeStep(s, t).threads[t]);
    }
  }

  lemma RequeueStepKeepsInv(s: Sys, t: nat)
    requires Inv(s) && Can(s, RequeueStep(t))
    ensures Inv(DoRequeueStep(s, t))
  {
    var c := s.threads[t];
    assert LimitsOk(c);
    var c' := DoRequeueStep(s, t).threads[t];
    if c.source.None? {
      SameGuards(s, t, c');
    } else {
      var g := c.source.value;
      if |c.woken| < c.value {
        if s.queues[g.q].value == [] {
          SameGuards(s, t, c');
        } else {
          NotifyKeepsInv(s, g.q);
          SameGuards(NotifyOne(s, g.q), t, c');
        }
      } else {
        var n := Min(c.value2, |s.queues[g.q].value|);
        assert GuardOk(s, GuardsOf(c)[1]);
        MoveKeepsInv(s, g.q, c.g2, n);
        SameGuards(MoveTasks(s, g.q, c.g2, n), t, c');
      }
    }
  }

  lemma LookupKeepsInv(s: Sys, t: nat, addr: nat, value: nat)
    requires Inv(s) && t < |s.threads| && s.threads[t].Idle?
    ensures Inv(DoWakeGet(s, t, addr, value))
  {
    if addr in s.table {
      GainGuard(s, t, addr, Waking(GuardFor(s, addr), value, []));
    } else {
      SameGuards(s, t, Idle(Woke([], value)));
    }
  }

  lemma MemKeepsInv(s: Sys, mem: map<nat, int>)
    requires Inv(s)
    ensures Inv(s.(mem := mem))
  {
    var s' := s.(mem := mem);
    forall q: nat
      ensures Exact(s'.queues, q, Refs(s', q))
    {
      assert Exact(s.queues, q, Refs(s, q));
    }
    forall t, i | 0 <= t < |s'.threads| && 0 <= i < |GuardsOf(s'.threads[t])|
      ensures GuardOk(s', GuardsOf(s'.threads[t])[i])
    {
      assert GuardOk(s, GuardsOf(s.threads[t])[i]);
    }
    forall t | 0 <= t < |s'.threads|
      ensures SleeperOk(s', t)
    {
      assert SleeperOk(s, t);
    }
    forall q | q in s'.queues
      ensures QueueOk(s', q)
    {
      assert QueueOk(s, q);
    }
  }

  lemma SpawnKeepsInv(s: Sys)
    requires Inv(s)
    ensures Inv(s.(threads := s.threads + [Idle(Nothing)]))
  {
    var s' := s.(threads := s.threads + [Idle(Nothing)]);
    forall q: nat
      ensures Exact(s'.queues, q, Refs(s', q))
    {
      assert Exact(s.queues, q, Refs(s, q));
      assert Shares(s'.threads, q)[..|s.threads|] == Shares(s.threads, q);
    }
    forall t, i | 0 <= t < |s'.threads| && 0 <= i < |GuardsOf(s'.threads[t])|
      ensures GuardOk(s', GuardsOf(s'.threads[t])[i])
    {
      assert GuardOk(s, GuardsOf(s.threads[t])[i]);
    }
    forall t | 0 <= t < |s'.threads|
      ensures SleeperOk(s', t)
    {
      assert t < |s.threads| ==> SleeperOk(s, t);
    }
    forall q | q in s'.queues
      ensures QueueOk(s', q)
    {
      assert QueueOk(s, q);
    }
  }

  lemma RequeueGetKeepsInv(s: Sys, t: nat)
    requires Inv(s) && Can(s, RequeueGet(t))
    ensures Inv(DoRequeueGet(s, t))
  {
    var c := s.threads[t];
    if c.addr in s.table {
      GainGuard(s, t, c.addr, DoRequeueGet(s, t).threads[t]);
    } else {
      SameGuards(s, t, DoRequeueGet(s, t).threads[t]);
    }
  }

  lemma StepKeepsInv(s: Sys, a: Action)
    requires Inv(s) && Can(s, a)
    ensures Inv(Do(s, a))
  {
    match a
    case Spawn(_) => SpawnKeepsInv(s);
    case Store(_, addr, word) => MemKeepsInv(s, s.mem[addr := word]);
    case WaitCheck(t, _, _, _) => SameGuards(s, t, Do(s, a).threads[t]);
    case WaitGet(t) => GainGuard(s, t, s.threads[t].addr, DoWaitGet(s, t).threads[t]);
    case Sleep(t) => SleepKeepsInv(s, t);
    case Timeout(t) => TimeoutKeepsInv(s, t);
    case WakeGet(t, addr, value) => LookupKeepsInv(s, t, addr, value);
    case ExitWake(t, addr) =>
      MemKeepsInv(s, s.mem[addr := 0]);
      LookupKeepsInv(s.(mem := s.mem[addr := 0]), t, addr, 1);
    case WakeStep(t) => WakeStepKeepsInv(s, t);
    case RequeueCheck(t, _, _, _, _, _) => SameGuards(s, t, Do(s, a).threads[t]);
    case RequeueGet(t) => RequeueGetKeepsInv(s, t);
    case RequeueInsert(t) => GainGuard(s, t, s.threads[t].addr2, DoRequeueInsert(s, t).threads[t]);
    case RequeueStep(t) => RequeueStepKeepsInv(s, t);
    case DropGuard(t) => DropKeepsInv(s, t);
  }

  lemma {:induction false} RunKeepsInv(s: Sys, run: seq<Action>)
    requires Inv(s) && Run(s, run).Some?
    ensures Inv(Run(s, run).value)
  {
    if run != [] {
      var n := |run| - 1;
      RunKeepsInv(s, run[..n]);
      StepKeepsInv(Run(s, run[..n]).value, run[n]);
    }
  }

  lemma InitIsInv(s: Sys)
    requires Init(s)
    ensures Inv(s)
  {
    forall q: nat
      ensures Exact(s.queues, q, Refs(s, q))
    {
      assert GuardRefs(s.threads, q) == GuardRefs(s.threads[..0], q) + Occ(QueueIds([]), q);
    }
  }
}
