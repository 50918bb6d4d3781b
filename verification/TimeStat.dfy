/** CPU-time accounting of a task and its interval timer (`TimeStat`). */
module TimeStat {
  import opened Basics

  datatype TimerType = NoTimer | Real | Virtual | Prof

  /** A timer number is cut to 32 bits before it is looked up. */
  function TimerOf(num: nat): TimerType {
    var v := num % 0x1_0000_0000;
    if v == 0 then Real else if v == 1 then Virtual else if v == 2 then Prof else NoTimer
  }

  datatype Stat = Stat(utime: nat, stime: nat, userTs: nat, kernelTs: nat,
                       kind: TimerType, interval: nat, remained: nat)

  datatype Event =
    | IntoKernel(now: nat)
    | IntoUser(now: nat)
    | FromOldTask(now: nat)
    | ToNewTask(now: nat)
    | SetTimer(interval: nat, remained: nat, num: nat)
    | Reset(now: nat)

  predicate IsSwitch(e: Event) {
    e.IntoKernel? || e.IntoUser? || e.FromOldTask? || e.ToNewTask?
  }

  /** The subtraction in the step does not underflow. */
  predicate Sound(s: Stat, e: Event) {
    IsSwitch(e) ==> s.kernelTs <= e.now
  }

  /** `update_timer`: the time left is reduced only while something remains after it. */
  function Tick(s: Stat, delta: nat): Stat {
    if s.remained > delta then s.(remained := s.remained - delta) else s
  }

  function Step(s: Stat, e: Event): Stat
    requires Sound(s, e)
  {
    match e
    case IntoKernel(now) =>
      var d := now - s.kernelTs;
      var t := s.(utime := s.utime + d, kernelTs := now);
      if s.kind != NoTimer then Tick(t, d) else t
    case IntoUser(now) =>
      var d := now - s.kernelTs;
      var t := s.(stime := s.stime + d, userTs := now);
      if s.kind == Real || s.kind == Prof then Tick(t, d) else t
    case FromOldTask(now) =>
      var d := now - s.kernelTs;
      var t := s.(stime := s.stime + d, kernelTs := now);
      if s.kind == Real || s.kind == Prof then Tick(t, d) else t
    case ToNewTask(now) =>
      var d := now - s.kernelTs;
      var t := s.(kernelTs := now);
      if s.kind == Real then Tick(t, d) else t
    case SetTimer(interval, remained, num) =>
      s.(kind := TimerOf(num), interval := interval, remained := remained)
    case Reset(now) => s.(utime := 0, stime := 0, userTs := 0, kernelTs := now)
  }

  // ---- Runs ----

  ghost function Run(s: Stat, es: seq<Event>): Option<Stat> {
    if es == [] then Some(s) else
    var m := Run(s, es[..|es| - 1]);
    if m.Some? && Sound(m.value, es[|es| - 1]) then Some(Step(m.value, es[|es| - 1])) else None
  }

  /** Only task switches, at times that never go back. */
  ghost predicate Ordered(from: nat, es: seq<Event>) {
    && (forall i :: 0 <= i < |es| ==> IsSwitch(es[i]) && from <= es[i].now)
    && (forall i, j :: 0 <= i < j < |es| ==> es[i].now <= es[j].now)
  }

  /** No subtraction underflows in an ordered run. */
  lemma {:induction false} OrderedRuns(s: Stat, es: seq<Event>)
    requires Ordered(s.kernelTs, es)
    ensures Run(s, es).Some?
    ensures s.kernelTs <= Run(s, es).value.kernelTs
    ensures es != [] ==> Run(s, es).value.kernelTs <= es[|es| - 1].now
    ensures es == [] ==> Run(s, es).value.kernelTs == s.kernelTs
  {
    if es != [] {
      var n := |es| - 1;
      OrderedRuns(s, es[..n]);
    }
  }

  /** The last time before now that a switch other than the return to user mode took place. */
  ghost function Mark(from: nat, es: seq<Event>): nat
    requires Ordered(from, es)
    ensures from <= Mark(from, es) && (es != [] ==> Mark(from, es) <= es[|es| - 1].now)
    ensures es == [] ==> Mark(from, es) == from
  {
    if es == [] then from
    else if es[|es| - 1].IntoUser? then Mark(from, es[..|es| - 1])
    else es[|es| - 1].now
  }

  datatype Kind = KernelEntry | UserReturn | SwitchedOut | SwitchedIn

  function KindOf(e: Event): Kind
    requires IsSwitch(e)
  {
    if e.IntoKernel? then KernelEntry else if e.IntoUser? then UserReturn
    else if e.FromOldTask? then SwitchedOut else SwitchedIn
  }

  /** The time since the mark, added up over the switches of one kind: a function of the events alone. */
  ghost function Spans(from: nat, es: seq<Event>, k: Kind): nat
    requires Ordered(from, es)
  {
    if es == [] then 0 else
    var n := |es| - 1;
    Spans(from, es[..n], k) + if KindOf(es[n]) == k then es[n].now - Mark(from, es[..n]) else 0
  }

  /** The spans of all switches but the returns to user mode make up the whole time. */
  lemma {:induction false} SpansTelescope(from: nat, es: seq<Event>)
    requires Ordered(from, es)
    ensures Spans(from, es, KernelEntry) + Spans(from, es, SwitchedOut) + Spans(from, es, SwitchedIn)
         == Mark(from, es) - from
  {
    if es != [] {
      SpansTelescope(from, es[..|es| - 1]);
    }
  }

  /** User time is charged at kernel entries, system time at returns to user mode and when switched out. */
  lemma {:induction false} Charges(s: Stat, es: seq<Event>)
    requires Ordered(s.kernelTs, es)
    ensures Run(s, es).Some?
    ensures var z := Run(s, es).value;
            && z.kernelTs == Mark(s.kernelTs, es)
            && z.utime == s.utime + Spans(s.kernelTs, es, KernelEntry)
            && z.stime == s.stime + Spans(s.kernelTs, es, UserReturn) + Spans(s.kernelTs, es, SwitchedOut)
  {
    OrderedRuns(s, es);
    if es != [] {
      Charges(s, es[..|es| - 1]);
    }
  }

  /**
   The books: time charged plus time passed over when the task is switched in is time passed plus time
   charged on the way to user mode. So user and system time together are the time passed exactly if the
   last equals the second. What is charged on the way to user mode is charged as system time and then
   once more as user time, because that switch does not move the mark.
   */
  lemma Accounting(s: Stat, es: seq<Event>)
    requires Ordered(s.kernelTs, es)
    ensures Run(s, es).Some?
    ensures var z := Run(s, es).value;
            var skipped, ahead := Spans(s.kernelTs, es, SwitchedIn), Spans(s.kernelTs, es, UserReturn);
            && z.utime + z.stime + skipped == s.utime + s.stime + (z.kernelTs - s.kernelTs) + ahead
            && (z.utime + z.stime == s.utime + s.stime + (z.kernelTs - s.kernelTs) <==> ahead == skipped)
  {
    Charges(s, es);
    SpansTelescope(s.kernelTs, es);
  }

  /**
   An armed timer never rises and never runs out: whatever switches follow, the time left stays above
   zero, because the last part of it is never taken off.
   */
  lemma {:induction false} TimerNeverExpires(s: Stat, es: seq<Event>)
    requires Run(s, es).Some? && forall i :: 0 <= i < |es| ==> !es[i].SetTimer?
    ensures Run(s, es).value.remained <= s.remained
    ensures Run(s, es).value.remained == 0 <==> s.remained == 0
    ensures Run(s, es).value.kind == s.kind && Run(s, es).value.interval == s.interval
  {
    if es != [] {
      TimerNeverExpires(s, es[..|es| - 1]);
    }
  }

  /** The switches at which a timer of this type counts. */
  predicate Counts(timer: TimerType, k: Kind) {
    match timer
    case Real => true
    case Virtual => k == KernelEntry
    case Prof => k != SwitchedIn
    case NoTimer => false
  }

  /** What a timer of this type should have counted. */
  ghost function Ticked(timer: TimerType, from: nat, es: seq<Event>): nat
    requires Ordered(from, es)
  {
    (if Counts(timer, KernelEntry) then Spans(from, es, KernelEntry) else 0)
    + (if Counts(timer, UserReturn) then Spans(from, es, UserReturn) else 0)
    + (if Counts(timer, SwitchedOut) then Spans(from, es, SwitchedOut) else 0)
    + (if Counts(timer, SwitchedIn) then Spans(from, es, SwitchedIn) else 0)
  }

  /** Until it ought to run out, a timer counts down by exactly the spans its type covers. */
  lemma {:induction false} TimerCountsDown(s: Stat, es: seq<Event>)
    requires Ordered(s.kernelTs, es) && Ticked(s.kind, s.kernelTs, es) < s.remained
    ensures Run(s, es).Some?
    ensures Run(s, es).value.kind == s.kind
    ensures Run(s, es).value.remained == s.remained - Ticked(s.kind, s.kernelTs, es)
  {
    Charges(s, es);
    if es != [] {
      Charges(s, es[..|es| - 1]);
      TimerCountsDown(s, es[..|es| - 1]);
    }
  }

  /** Arming sets the type and both times, and no clock; each number has its type, and others give none. */
  lemma ArmingSets(s: Stat, interval: nat, remained: nat, num: nat)
    ensures var z := Step(s, SetTimer(interval, remained, num));
            && z.interval == interval && z.remained == remained
            && (z.kind == Real <==> num % 0x1_0000_0000 == 0)
            && (z.kind == Virtual <==> num % 0x1_0000_0000 == 1)
            && (z.kind == Prof <==> num % 0x1_0000_0000 == 2)
            && (z.kind == NoTimer <==> num % 0x1_0000_0000 >= 3)
            && z.utime == s.utime && z.stime == s.stime && z.kernelTs == s.kernelTs && z.userTs == s.userTs
  {
  }

  /** After a reset at `now` the books start afresh: times are sums of spans from `now` on, and the timer is as it was. */
  lemma ResetStartsAfresh(s: Stat, now: nat, es: seq<Event>)
    requires Ordered(now, es)
    ensures var m := Step(s, Reset(now));
            && m.kind == s.kind && m.interval == s.interval && m.remained == s.remained
            && Run(m, es).Some?
            && Run(m, es).value.utime == Spans(now, es, KernelEntry)
            && Run(m, es).value.stime == Spans(now, es, UserReturn) + Spans(now, es, SwitchedOut)
            && Run(m, es).value.kernelTs == Mark(now, es)
  {
    Charges(Step(s, Reset(now)), es);
  }

  /** The user timestamp is the time of the last return to user mode. */
  lemma {:induction false} UserStamp(s: Stat, es: seq<Event>, i: nat)
    requires Ordered(s.kernelTs, es) && Run(s, es).Some?
    requires i < |es| ==> es[i].IntoUser?
    requires i <= |es| && forall j :: i < j < |es| ==> !es[j].IntoUser?
    requires i == |es| ==> forall j :: 0 <= j < |es| ==> !es[j].IntoUser?
    ensures Run(s, es).value.userTs == if i < |es| then es[i].now else s.userTs
  {
    var n := |es| - 1;
    if es != [] && i != n {
      UserStamp(s, es[..n], if i == |es| then n else i);
    }
  }

  // ---- The record as the code updates it ----

  class TimeStat {
    var utimeNs: nat
    var stimeNs: nat
    var userTimestamp: nat
    var kernelTimestamp: nat
    var timerType: TimerType
    var timerIntervalNs: nat
    var timerRemainedNs: nat

    function Value(): Stat
      reads this
    {
      Stat(utimeNs, stimeNs, userTimestamp, kernelTimestamp, timerType, timerIntervalNs, timerRemainedNs)
    }

    constructor ()
      ensures Value() == Stat(0, 0, 0, 0, NoTimer, 0, 0)
    {
      utimeNs, stimeNs, userTimestamp, kernelTimestamp := 0, 0, 0, 0;
      timerType, timerIntervalNs, timerRemainedNs := NoTimer, 0, 0;
    }

    method UpdateTimer(delta: nat)
      modifies this`timerRemainedNs
      ensures Value() == Tick(old(Value()), delta)
      ensures timerRemainedNs == old(timerRemainedNs) - if old(timerRemainedNs) > delta then delta else 0
    {
      if timerRemainedNs == 0 {
        return;
      }
      if timerRemainedNs > delta {
        timerRemainedNs := timerRemainedNs - delta;
      }
    }

    method ResetAt(now: nat)
      modifies this
      ensures Value() == Step(old(Value()), Reset(now))
      ensures utimeNs == 0 && stimeNs == 0 && kernelTimestamp == now && timerRemainedNs == old(timerRemainedNs)
    {
      utimeNs, stimeNs, userTimestamp := 0, 0, 0;
      kernelTimestamp := now;
    }

    method SwitchIntoKernelMode(now: nat)
      requires kernelTimestamp <= now
      modifies this
      ensures Value() == Step(old(Value()), IntoKernel(now))
    {
      var delta := now - kernelTimestamp;
      utimeNs := utimeNs + delta;
      kernelTimestamp := now;
      if timerType != NoTimer {
        UpdateTimer(delta);
      }
    }

    method SwitchIntoUserMode(now: nat)
      requires kernelTimestamp <= now
      modifies this
      ensures Value() == Step(old(Value()), IntoUser(now))
    {
      var delta := now - kernelTimestamp;
      stimeNs := stimeNs + delta;
      userTimestamp := now;
      if timerType == Real || timerType == Prof {
        UpdateTimer(delta);
      }
    }

    method SwitchFromOldTask(now: nat)
      requires kernelTimestamp <= now
      modifies this
      ensures Value() == Step(old(Value()), FromOldTask(now))
    {
      var delta := now - kernelTimestamp;
      stimeNs := stimeNs + delta;
      kernelTimestamp := now;
      if timerType == Real || timerType == Prof {
        UpdateTimer(delta);
      }
    }

    method SwitchToNewTask(now: nat)
      requires kernelTimestamp <= now
      modifies this
      ensures Value() == Step(old(Value()), ToNewTask(now))
    {
      var delta := now - kernelTimestamp;
      kernelTimestamp := now;
      if timerType == Real {
        UpdateTimer(delta);
      }
    }

    method SetTimerTo(interval: nat, remained: nat, num: nat) returns (armed: bool)
      modifies this
      ensures Value() == Step(old(Value()), SetTimer(interval, remained, num))
      ensures armed <==> num % 0x1_0000_0000 <= 2
      ensures timerIntervalNs == interval && timerRemainedNs == remained && (armed <==> timerType != NoTimer)
    {
      timerType := TimerOf(num);
      timerIntervalNs, timerRemainedNs := interval, remained;
      armed := timerType != NoTimer;
    }
  }
}
