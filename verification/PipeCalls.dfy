/**
 Whole read and write calls on a pipe, along a run in which other threads do anything but use the same
 end: each call extends the stream by exactly what it reports.
 */
module PipeCalls {
  import opened Basics
  import opened PipeRing
  import opened FdTable
  import opened PipeSystem
  import opened PipeFlow
  import opened PipeTheorems
  import opened PipeTrace

  lemma OthersKeepCall(s: Sys, a: Action, t: nat)
    requires Can(s, a) && a.t != t && t < |s.threads|
    ensures t < |Do(s, a).threads| && Do(s, a).threads[t].call == s.threads[t].call
  {
  }

  /** `o` is this end of pipe `p`. */
  ghost predicate EndOf(s: Sys, o: nat, p: nat, readable: bool) {
    o in s.heap.files && s.heap.files[o].value == PipeEnd(p, readable)
  }

  // ---- Writing ----

  /** How far a write call of `data` on `p` by thread `t` has come, the stream having been `base` before it. */
  ghost predicate WriteStage(s: Sys, t: nat, p: nat, data: seq<byte>, base: seq<byte>) {
    && t < |s.threads|
    && match s.threads[t].call
       case WriteEntered(o, d) => d == data && EndOf(s, o, p, false) && AcceptedOf(s, p) == base
       case Writing(o, id) =>
         && EndOf(s, o, p, false) && id < |s.writes| && s.writes[id].data == data
         && s.writes[id].placed <= |data| && AcceptedOf(s, p) == base + data[..s.writes[id].placed]
       case Leaving(_, Wrote(n)) => n <= |data| && AcceptedOf(s, p) == base + data[..n]
       case Leaving(_, Failed(_)) => AcceptedOf(s, p) == base
       case _ => false
  }

  lemma WriteStageOwn(s: Sys, a: Action, t: nat, p: nat, data: seq<byte>, base: seq<byte>)
    requires Inv(s) && Can(s, a) && a.t == t && WriteStage(s, t, p, data, base)
    requires a.WriteCheck? || a.WriteSection?
    ensures WriteStage(Do(s, a), t, p, data, base)
  {
    assert CallOk(s, t);
    if a.WriteCheck? {
      OtherAccepted(s, a, p);
      assert data[..0] == [] && base + [] == base;
    } else {
      var id := s.threads[t].call.id;
      assert On(s, t, p);
      WriteStep(s, t, p);
      PartGrows(s, t, p);
      assert WriteOk(s, id);
      var w, z := s.writes[id], DoWriteSection(s, t).writes[id];
      Regroup(base, Part(w, p), ChunkWritten(s, a, p));
      WriteSectionShape(s, t);
    }
  }

  lemma WriteSectionShape(s: Sys, t: nat)
    requires Can(s, WriteSection(t))
    ensures var z, c := DoWriteSection(s, t), s.threads[t].call;
            && z.writes[c.id].data == s.writes[c.id].data && z.writes[c.id].pipe == s.writes[c.id].pipe
            && z.writes[c.id].placed <= |s.writes[c.id].data| && z.heap.files == s.heap.files
            && (z.threads[t].call == c || z.threads[t].call == Leaving(c.obj, Wrote(z.writes[c.id].placed)))
  {
  }

  lemma WriteStageOther(s: Sys, a: Action, t: nat, p: nat, data: seq<byte>, base: seq<byte>)
    requires Inv(s) && Can(s, a) && a.t != t && WriteStage(s, t, p, data, base) && !WritesTo(s, a, p)
    ensures WriteStage(Do(s, a), t, p, data, base)
  {
    var z := Do(s, a);
    StepKeepsInv(s, a);
    OthersKeepCall(s, a, t);
    AcceptedStep(s, a, p);
    assert AcceptedOf(s, p) + [] == AcceptedOf(s, p);
    assert CallOk(z, t);
    match s.threads[t].call
    case WriteEntered(o, _) => StepFileValues(s, a, o);
    case Writing(o, id) =>
      StepFileValues(s, a, o);
      OthersKeepWrite(s, a, t);
    case _ =>
  }

  lemma OthersKeepWrite(s: Sys, a: Action, t: nat)
    requires Inv(s) && Can(s, a) && a.t != t && t < |s.threads| && s.threads[t].call.Writing?
    ensures var id := s.threads[t].call.id;
            id < |s.writes| && id < |Do(s, a).writes| && Do(s, a).writes[id] == s.writes[id]
  {
    assert CallOk(s, t);
    if !a.WriteSection? {
      WritesKept(s, a);
    } else {
      assert s.threads[a.t].call.id != s.threads[t].call.id;
    }
  }

  /**
   One write call, from its entry at step `lo` to its return with step `hi - 1`: thread `t` does nothing
   else meanwhile, and nobody else writes to `p`.
   */
  ghost predicate WriteCall(ss: seq<Sys>, run: seq<Action>, lo: nat, hi: nat, t: nat, p: nat, fd: int, data: seq<byte>)
    requires Trace(ss, run)
  {
    && lo + 1 < hi <= |run| && run[lo] == WriteEnter(t, fd, data) && run[hi - 1] == Leave(t)
    && t < |ss[lo].threads| && ss[lo].threads[t].table < |ss[lo].tables|
    && Lookup(TableOf(ss[lo], t), fd).Some? && EndOf(ss[lo], Lookup(TableOf(ss[lo], t), fd).value, p, false)
    && forall i :: lo < i < hi - 1 ==> WriterStepAt(ss, run, t, p, i)
  }

  ghost predicate WriterStepAt(ss: seq<Sys>, run: seq<Action>, t: nat, p: nat, i: nat)
    requires i < |run| && i < |ss|
  {
    WriterStep(ss[i], run[i], t, p)
  }

  /** A step inside a write call of `t`: part of the call, or by another thread and no write to `p`. */
  ghost predicate WriterStep(s: Sys, a: Action, t: nat, p: nat) {
    if a.t == t then a.WriteCheck? || a.WriteSection? else !WritesTo(s, a, p)
  }

  lemma WriteStageStep(s: Sys, a: Action, z: Sys, t: nat, p: nat, data: seq<byte>, base: seq<byte>)
    ensures Inv(s) && Step(s, a, z) && WriterStep(s, a, t, p) && WriteStage(s, t, p, data, base) ==>
              WriteStage(z, t, p, data, base)
  {
    if Inv(s) && Step(s, a, z) && WriterStep(s, a, t, p) && WriteStage(s, t, p, data, base) {
      if a.t == t {
        WriteStageOwn(s, a, t, p, data, base);
      } else {
        WriteStageOther(s, a, t, p, data, base);
      }
    }
  }

  lemma WriteBegins(s: Sys, z: Sys, t: nat, p: nat, fd: int, data: seq<byte>)
    requires Inv(s) && Step(s, WriteEnter(t, fd, data), z)
    requires Lookup(TableOf(s, t), fd).Some? && EndOf(s, Lookup(TableOf(s, t), fd).value, p, false)
    ensures WriteStage(z, t, p, data, AcceptedOf(s, p))
  {
  }

  lemma WriteStageNext(ss: seq<Sys>, run: seq<Action>, i: nat, t: nat, p: nat, data: seq<byte>, base: seq<byte>)
    requires Trace(ss, run) && Inv(ss[0]) && i < |run| && WriterStepAt(ss, run, t, p, i)
    ensures WriteStage(ss[i], t, p, data, base) ==> WriteStage(ss[i + 1], t, p, data, base)
  {
    TraceInv(ss, run, i);
    assert StepAt(ss, run, i);
    WriteStageStep(ss[i], run[i], ss[i + 1], t, p, data, base);
  }

  lemma WriteStarts(ss: seq<Sys>, run: seq<Action>, lo: nat, hi: nat, t: nat, p: nat, fd: int, data: seq<byte>)
    requires Trace(ss, run) && Inv(ss[0]) && WriteCall(ss, run, lo, hi, t, p, fd, data)
    ensures WriteStage(ss[lo + 1], t, p, data, AcceptedOf(ss[lo], p))
  {
    TraceInv(ss, run, lo);
    assert StepAt(ss, run, lo);
    WriteBegins(ss[lo], ss[lo + 1], t, p, fd, data);
  }

  lemma {:induction false} WriteGoesOn(ss: seq<Sys>, run: seq<Action>, lo: nat, hi: nat, t: nat, p: nat, fd: int,
                                       data: seq<byte>, i: nat)
    requires Trace(ss, run) && Inv(ss[0]) && WriteCall(ss, run, lo, hi, t, p, fd, data) && lo < i < hi
    ensures WriteStage(ss[i], t, p, data, AcceptedOf(ss[lo], p))
  {
    if i == lo + 1 {
      WriteStarts(ss, run, lo, hi, t, p, fd, data);
    } else {
      WriteGoesOn(ss, run, lo, hi, t, p, fd, data, i - 1);
      assert WriterStepAt(ss, run, t, p, i - 1);
      WriteStageNext(ss, run, i - 1, t, p, data, AcceptedOf(ss[lo], p));
    }
  }

  /** Such a call appends to the stream exactly the bytes it reports; one that fails appends nothing. */
  lemma WriteCallAppends(ss: seq<Sys>, run: seq<Action>, lo: nat, hi: nat, t: nat, p: nat, fd: int, data: seq<byte>)
    requires Trace(ss, run) && Inv(ss[0]) && WriteCall(ss, run, lo, hi, t, p, fd, data)
    ensures t < |ss[hi].threads| && ss[hi].threads[t].call.Idle?
    ensures match ss[hi].threads[t].call.ret
            case Wrote(n) => n <= |data| && AcceptedOf(ss[hi], p) == AcceptedOf(ss[lo], p) + data[..n]
            case Failed(_) => AcceptedOf(ss[hi], p) == AcceptedOf(ss[lo], p)
            case _ => false
  {
    WriteGoesOn(ss, run, lo, hi, t, p, fd, data, hi - 1);
    assert StepAt(ss, run, hi - 1);
    OtherAccepted(ss[hi - 1], Leave(t), p);
  }

  // ---- Reading ----

  /** How far a read call on `p` by thread `t` has come, `base` having been delivered before it. */
  ghost predicate ReadStage(s: Sys, t: nat, p: nat, want: nat, base: seq<byte>) {
    && t < |s.threads|
    && match s.threads[t].call
       case Reading(o, n) => n == want && EndOf(s, o, p, true) && DeliveredOf(s, p) == base
       case Leaving(_, Got(chunk)) => |chunk| <= want && DeliveredOf(s, p) == base + chunk
       case _ => false
  }

  lemma ReadStageOwn(s: Sys, t: nat, p: nat, want: nat, base: seq<byte>)
    requires Inv(s) && Can(s, ReadSection(t)) && ReadStage(s, t, p, want, base)
    ensures ReadStage(DoReadSection(s, t), t, p, want, base)
  {
    ReadStep(s, t, p);
    assert On(s, t, p);
    assert StreamOk(s, p);
    SpaceIsConserved(s.heap.bufs[p].value);
    assert base + [] == base;
  }

  lemma ReadStageOther(s: Sys, a: Action, t: nat, p: nat, want: nat, base: seq<byte>)
    requires Inv(s) && Can(s, a) && a.t != t && ReadStage(s, t, p, want, base) && !ReadsFrom(s, a, p)
    ensures ReadStage(Do(s, a), t, p, want, base)
  {
    StepKeepsInv(s, a);
    OthersKeepCall(s, a, t);
    DeliveredStep(s, a, p);
    assert DeliveredOf(s, p) + [] == DeliveredOf(s, p);
    assert CallOk(Do(s, a), t);
    if s.threads[t].call.Reading? {
      StepFileValues(s, a, s.threads[t].call.obj);
    }
  }

  /** One read call for at most `want` bytes: thread `t` does nothing else, and nobody else reads from `p`. */
  ghost predicate ReadCall(ss: seq<Sys>, run: seq<Action>, lo: nat, hi: nat, t: nat, p: nat, fd: int, want: nat)
    requires Trace(ss, run)
  {
    && lo + 1 < hi <= |run| && run[lo] == ReadEnter(t, fd, want) && run[hi - 1] == Leave(t)
    && t < |ss[lo].threads| && ss[lo].threads[t].table < |ss[lo].tables|
    && Lookup(TableOf(ss[lo], t), fd).Some? && EndOf(ss[lo], Lookup(TableOf(ss[lo], t), fd).value, p, true)
    && forall i :: lo < i < hi - 1 ==> ReaderStepAt(ss, run, t, p, i)
  }

  ghost predicate ReaderStepAt(ss: seq<Sys>, run: seq<Action>, t: nat, p: nat, i: nat)
    requires i < |run| && i < |ss|
  {
    ReaderStep(ss[i], run[i], t, p)
  }

  /** A step inside a read call of `t`: part of the call, or by another thread and no read from `p`. */
  ghost predicate ReaderStep(s: Sys, a: Action, t: nat, p: nat) {
    if a.t == t then a.ReadSection? else !ReadsFrom(s, a, p)
  }

  lemma ReadStageStep(s: Sys, a: Action, z: Sys, t: nat, p: nat, want: nat, base: seq<byte>)
    ensures Inv(s) && Step(s, a, z) && ReaderStep(s, a, t, p) && ReadStage(s, t, p, want, base) ==>
              ReadStage(z, t, p, want, base)
  {
    if Inv(s) && Step(s, a, z) && ReaderStep(s, a, t, p) && ReadStage(s, t, p, want, base) {
      if a.t == t {
        ReadStageOwn(s, t, p, want, base);
      } else {
        ReadStageOther(s, a, t, p, want, base);
      }
    }
  }

  lemma ReadBegins(s: Sys, z: Sys, t: nat, p: nat, fd: int, want: nat)
    requires Inv(s) && Step(s, ReadEnter(t, fd, want), z)
    requires Lookup(TableOf(s, t), fd).Some? && EndOf(s, Lookup(TableOf(s, t), fd).value, p, true)
    ensures ReadStage(z, t, p, want, DeliveredOf(s, p))
  {
    assert DeliveredOf(s, p) + [] == DeliveredOf(s, p);
  }

  lemma ReadStageNext(ss: seq<Sys>, run: seq<Action>, i: nat, t: nat, p: nat, want: nat, base: seq<byte>)
    requires Trace(ss, run) && Inv(ss[0]) && i < |run| && ReaderStepAt(ss, run, t, p, i)
    ensures ReadStage(ss[i], t, p, want, base) ==> ReadStage(ss[i + 1], t, p, want, base)
  {
    TraceInv(ss, run, i);
    assert StepAt(ss, run, i);
    ReadStageStep(ss[i], run[i], ss[i + 1], t, p, want, base);
  }

  lemma ReadStarts(ss: seq<Sys>, run: seq<Action>, lo: nat, hi: nat, t: nat, p: nat, fd: int, want: nat)
    requires Trace(ss, run) && Inv(ss[0]) && ReadCall(ss, run, lo, hi, t, p, fd, want)
    ensures ReadStage(ss[lo + 1], t, p, want, DeliveredOf(ss[lo], p))
  {
    TraceInv(ss, run, lo);
    assert StepAt(ss, run, lo);
    ReadBegins(ss[lo], ss[lo + 1], t, p, fd, want);
  }

  lemma {:induction false} ReadGoesOn(ss: seq<Sys>, run: seq<Action>, lo: nat, hi: nat, t: nat, p: nat, fd: int,
                                      want: nat, i: nat)
    requires Trace(ss, run) && Inv(ss[0]) && ReadCall(ss, run, lo, hi, t, p, fd, want) && lo < i < hi
    ensures ReadStage(ss[i], t, p, want, DeliveredOf(ss[lo], p))
  {
    if i == lo + 1 {
      ReadStarts(ss, run, lo, hi, t, p, fd, want);
    } else {
      ReadGoesOn(ss, run, lo, hi, t, p, fd, want, i - 1);
      assert ReaderStepAt(ss, run, t, p, i - 1);
      ReadStageNext(ss, run, i - 1, t, p, want, DeliveredOf(ss[lo], p));
    }
  }

  /** Such a call takes from the stream exactly the bytes it returns. */
  lemma ReadCallTakes(ss: seq<Sys>, run: seq<Action>, lo: nat, hi: nat, t: nat, p: nat, fd: int, want: nat)
    requires Trace(ss, run) && Inv(ss[0]) && ReadCall(ss, run, lo, hi, t, p, fd, want)
    ensures t < |ss[hi].threads| && ss[hi].threads[t].call.Idle? && ss[hi].threads[t].call.ret.Got?
    ensures var chunk := ss[hi].threads[t].call.ret.chunk;
            |chunk| <= want && DeliveredOf(ss[hi], p) == DeliveredOf(ss[lo], p) + chunk
  {
    ReadGoesOn(ss, run, lo, hi, t, p, fd, want, hi - 1);
    assert StepAt(ss, run, hi - 1);
    OtherDelivered(ss[hi - 1], Leave(t), p);
  }
}
