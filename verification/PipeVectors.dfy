/**
 `readv` and `writev` on a pipe. Along a run in which one thread writes and one thread reads, each through
 vectored calls or plain ones, the two see one unbroken stream.
 */
module PipeVectors {
  import opened Basics
  import opened PipeSystem
  import opened PipeFlow
  import opened PipeTrace
  import opened PipeCalls
  import opened Iovec

  // ---- One segment ----

  /** Nobody writes to `p` in steps `lo` up to `hi`. */
  ghost predicate NoWrites(ss: seq<Sys>, run: seq<Action>, lo: nat, hi: nat, p: nat)
    requires Trace(ss, run)
  {
    lo <= hi <= |run| && forall i :: lo <= i < hi ==> NoWriteAt(ss, run, p, i)
  }

  ghost predicate NoWriteAt(ss: seq<Sys>, run: seq<Action>, p: nat, i: nat)
    requires i < |run| && i < |ss|
  {
    !WritesTo(ss[i], run[i], p)
  }

  ghost predicate NoReads(ss: seq<Sys>, run: seq<Action>, lo: nat, hi: nat, p: nat)
    requires Trace(ss, run)
  {
    lo <= hi <= |run| && forall i :: lo <= i < hi ==> NoReadAt(ss, run, p, i)
  }

  ghost predicate NoReadAt(ss: seq<Sys>, run: seq<Action>, p: nat, i: nat)
    requires i < |run| && i < |ss|
  {
    !ReadsFrom(ss[i], run[i], p)
  }

  lemma Unwritten(s: Sys, a: Action, z: Sys, p: nat)
    ensures Step(s, a, z) && !WritesTo(s, a, p) ==> AcceptedOf(z, p) == AcceptedOf(s, p)
  {
    if Step(s, a, z) {
      AcceptedStep(s, a, p);
    }
  }

  lemma Unread(s: Sys, a: Action, z: Sys, p: nat)
    ensures Step(s, a, z) && !ReadsFrom(s, a, p) ==> DeliveredOf(z, p) == DeliveredOf(s, p)
  {
    if Step(s, a, z) {
      DeliveredStep(s, a, p);
    }
  }

  lemma {:induction false} NoWritesNoChange(ss: seq<Sys>, run: seq<Action>, lo: nat, hi: nat, p: nat)
    requires Trace(ss, run) && NoWrites(ss, run, lo, hi, p)
    ensures AcceptedOf(ss[hi], p) == AcceptedOf(ss[lo], p)
    decreases hi
  {
    if lo < hi {
      NoWritesNoChange(ss, run, lo, hi - 1, p);
      assert StepAt(ss, run, hi - 1) && NoWriteAt(ss, run, p, hi - 1);
      Unwritten(ss[hi - 1], run[hi - 1], ss[hi], p);
    }
  }

  lemma {:induction false} NoReadsNoChange(ss: seq<Sys>, run: seq<Action>, lo: nat, hi: nat, p: nat)
    requires Trace(ss, run) && NoReads(ss, run, lo, hi, p)
    ensures DeliveredOf(ss[hi], p) == DeliveredOf(ss[lo], p)
    decreases hi
  {
    if lo < hi {
      NoReadsNoChange(ss, run, lo, hi - 1, p);
      assert StepAt(ss, run, hi - 1) && NoReadAt(ss, run, p, hi - 1);
      Unread(ss[hi - 1], run[hi - 1], ss[hi], p);
    }
  }

  /**
   From step `from` to step `to` one segment is passed on: after a pause, by a write call that begins at
   `lo` and reports `|piece|` bytes; an empty segment takes no call.
   */
  ghost predicate SegmentWritten(ss: seq<Sys>, run: seq<Action>, from: nat, lo: nat, to: nat,
                                 t: nat, p: nat, fd: int, seg: seq<byte>, piece: seq<byte>)
    requires Trace(ss, run)
  {
    && NoWrites(ss, run, from, lo, p) && piece <= seg
    && if seg == [] then lo == to
       else && WriteCall(ss, run, lo, to, t, p, fd, seg)
            && t < |ss[to].threads| && ss[to].threads[t].call == Idle(Wrote(|piece|))
  }

  lemma SegmentAppends(ss: seq<Sys>, run: seq<Action>, from: nat, lo: nat, to: nat,
                       t: nat, p: nat, fd: int, seg: seq<byte>, piece: seq<byte>)
    requires Trace(ss, run) && Inv(ss[0]) && SegmentWritten(ss, run, from, lo, to, t, p, fd, seg, piece)
    ensures from <= to <= |run| && AcceptedOf(ss[to], p) == AcceptedOf(ss[from], p) + piece
  {
    NoWritesNoChange(ss, run, from, lo, p);
    if seg == [] {
      assert AcceptedOf(ss[from], p) + piece == AcceptedOf(ss[from], p);
    } else {
      WriteCallAppends(ss, run, lo, to, t, p, fd, seg);
    }
  }

  /** Likewise for one buffer of `len` bytes and the chunk read into it. */
  ghost predicate BufferRead(ss: seq<Sys>, run: seq<Action>, from: nat, lo: nat, to: nat,
                             t: nat, p: nat, fd: int, len: nat, chunk: seq<byte>)
    requires Trace(ss, run)
  {
    && NoReads(ss, run, from, lo, p)
    && if len == 0 then lo == to && chunk == []
       else && ReadCall(ss, run, lo, to, t, p, fd, len)
            && t < |ss[to].threads| && ss[to].threads[t].call == Idle(Ret.Got(chunk))
  }

  lemma BufferTakes(ss: seq<Sys>, run: seq<Action>, from: nat, lo: nat, to: nat,
                    t: nat, p: nat, fd: int, len: nat, chunk: seq<byte>)
    requires Trace(ss, run) && Inv(ss[0]) && BufferRead(ss, run, from, lo, to, t, p, fd, len, chunk)
    ensures from <= to <= |run| && DeliveredOf(ss[to], p) == DeliveredOf(ss[from], p) + chunk
  {
    NoReadsNoChange(ss, run, from, lo, p);
    if len == 0 {
      assert DeliveredOf(ss[from], p) + chunk == DeliveredOf(ss[from], p);
    } else {
      ReadCallTakes(ss, run, lo, to, t, p, fd, len);
    }
  }

  // ---- Vectors ----

  /**
   The segments are passed on one after another: the `i`-th between steps `at[i]` and `at[i + 1]`, its call
   beginning at `los[i]`. What the file took of it is `pieces[i]`.
   */
  ghost predicate VectorWritten(ss: seq<Sys>, run: seq<Action>, at: seq<nat>, los: seq<nat>,
                                t: nat, p: nat, fd: int, segs: seq<seq<byte>>, pieces: seq<seq<byte>>)
    requires Trace(ss, run)
  {
    && |at| == |pieces| + 1 && |los| == |pieces| <= |segs| && at[0] <= |run|
    && forall i :: 0 <= i < |pieces| ==> WrittenAt(ss, run, at, los, t, p, fd, segs, pieces, i)
  }

  ghost predicate WrittenAt(ss: seq<Sys>, run: seq<Action>, at: seq<nat>, los: seq<nat>,
                            t: nat, p: nat, fd: int, segs: seq<seq<byte>>, pieces: seq<seq<byte>>, i: nat)
    requires Trace(ss, run) && i < |pieces| <= |segs| && i + 1 < |at| && i < |los|
  {
    SegmentWritten(ss, run, at[i], los[i], at[i + 1], t, p, fd, segs[i], pieces[i])
  }

  lemma {:induction false} VectorAppends(ss: seq<Sys>, run: seq<Action>, at: seq<nat>, los: seq<nat>,
                                         t: nat, p: nat, fd: int, segs: seq<seq<byte>>, pieces: seq<seq<byte>>, k: nat)
    requires Trace(ss, run) && Inv(ss[0]) && VectorWritten(ss, run, at, los, t, p, fd, segs, pieces) && k <= |pieces|
    ensures at[k] <= |run| && AcceptedOf(ss[at[k]], p) == AcceptedOf(ss[at[0]], p) + Concat(pieces[..k])
  {
    if k == 0 {
      assert AcceptedOf(ss[at[0]], p) + [] == AcceptedOf(ss[at[0]], p);
    } else {
      VectorAppends(ss, run, at, los, t, p, fd, segs, pieces, k - 1);
      assert WrittenAt(ss, run, at, los, t, p, fd, segs, pieces, k - 1);
      SegmentAppends(ss, run, at[k - 1], los[k - 1], at[k], t, p, fd, segs[k - 1], pieces[k - 1]);
      ConcatTake(pieces, k - 1);
      Regroup(AcceptedOf(ss[at[0]], p), Concat(pieces[..k - 1]), pieces[k - 1]);
    }
  }

  /** What a write call that has returned answers to the loop of `writev`. */
  ghost function AnswerOf(s: Sys, t: nat): Answer
    requires t < |s.threads|
  {
    match s.threads[t].call
    case Idle(Wrote(n)) => Ok(n)
    case _ => Err(0)
  }

  /** Segment `i` is passed on, unless it is empty, by a write call whose result is the answer for it. */
  ghost predicate AnsweredAt(ss: seq<Sys>, run: seq<Action>, at: seq<nat>, los: seq<nat>,
                             t: nat, p: nat, fd: int, segs: seq<seq<byte>>, answer: (nat, nat) -> Answer, i: nat)
    requires Trace(ss, run) && i < |segs| && i + 1 < |at| && i < |los|
  {
    && NoWrites(ss, run, at[i], los[i], p)
    && if segs[i] == [] then los[i] == at[i + 1]
       else && WriteCall(ss, run, los[i], at[i + 1], t, p, fd, segs[i])
            && t < |ss[at[i + 1]].threads| && answer(i, |segs[i]|) == AnswerOf(ss[at[i + 1]], t)
  }

  /**
   `writev` on a pipe: with the answers given by write calls on it, and with `r`, `passed` and `pieces` as
   `Writev` then gives them, the stream grows by exactly what was passed on, and on success that is the
   first `r.n` bytes of the segments.
   */
  lemma WritevOnPipe(ss: seq<Sys>, run: seq<Action>, at: seq<nat>, los: seq<nat>, t: nat, p: nat, fd: int,
                     segs: seq<seq<byte>>, answer: (nat, nat) -> Answer,
                     pieces: seq<seq<byte>>, passed: seq<byte>, r: Answer)
    requires Trace(ss, run) && Inv(ss[0]) && |at| == |pieces| + 1 && |los| == |pieces| <= |segs| && at[0] <= |run|
    requires forall i :: 0 <= i < |pieces| ==> AnsweredAt(ss, run, at, los, t, p, fd, segs, answer, i)
    requires Passes(segs, answer, pieces) && passed == Concat(pieces)
    requires r.Ok? ==> r.n == |passed| && passed <= Concat(segs)
    ensures VectorWritten(ss, run, at, los, t, p, fd, segs, pieces)
    ensures at[|pieces|] <= |run| && AcceptedOf(ss[at[|pieces|]], p) == AcceptedOf(ss[at[0]], p) + passed
    ensures r.Ok? ==> r.n <= |Concat(segs)| && passed == Concat(segs)[..r.n]
  {
    AnsweredVector(ss, run, at, los, t, p, fd, segs, answer, pieces);
    VectorAppends(ss, run, at, los, t, p, fd, segs, pieces, |pieces|);
    WholeConcat(pieces);
  }

  lemma WholeConcat(segs: seq<seq<byte>>)
    ensures Concat(segs[..|segs|]) == Concat(segs)
  {
    assert segs[..|segs|] == segs;
  }

  lemma AnsweredVector(ss: seq<Sys>, run: seq<Action>, at: seq<nat>, los: seq<nat>, t: nat, p: nat, fd: int,
                       segs: seq<seq<byte>>, answer: (nat, nat) -> Answer, pieces: seq<seq<byte>>)
    requires Trace(ss, run) && |at| == |pieces| + 1 && |los| == |pieces| <= |segs| && at[0] <= |run|
    requires forall i :: 0 <= i < |pieces| ==> AnsweredAt(ss, run, at, los, t, p, fd, segs, answer, i)
    requires Passes(segs, answer, pieces)
    ensures VectorWritten(ss, run, at, los, t, p, fd, segs, pieces)
  {
    forall i | 0 <= i < |pieces|
      ensures WrittenAt(ss, run, at, los, t, p, fd, segs, pieces, i)
    {
      AnsweredIsWritten(ss, run, at, los, t, p, fd, segs, answer, pieces, i);
    }
  }

  lemma AnsweredIsWritten(ss: seq<Sys>, run: seq<Action>, at: seq<nat>, los: seq<nat>, t: nat, p: nat, fd: int,
                          segs: seq<seq<byte>>, answer: (nat, nat) -> Answer, pieces: seq<seq<byte>>, i: nat)
    requires Trace(ss, run) && i < |pieces| <= |segs| && i + 1 < |at| && i < |los|
    ensures AnsweredAt(ss, run, at, los, t, p, fd, segs, answer, i) && Passes(segs, answer, pieces) ==>
              WrittenAt(ss, run, at, los, t, p, fd, segs, pieces, i)
  {
  }

  ghost predicate VectorRead(ss: seq<Sys>, run: seq<Action>, at: seq<nat>, los: seq<nat>,
                             t: nat, p: nat, fd: int, bufs: seq<seq<byte>>, chunks: seq<seq<byte>>)
    requires Trace(ss, run)
  {
    && |at| == |chunks| + 1 && |los| == |chunks| <= |bufs| && at[0] <= |run|
    && forall i :: 0 <= i < |chunks| ==> ReadAt(ss, run, at, los, t, p, fd, bufs, chunks, i)
  }

  ghost predicate ReadAt(ss: seq<Sys>, run: seq<Action>, at: seq<nat>, los: seq<nat>,
                         t: nat, p: nat, fd: int, bufs: seq<seq<byte>>, chunks: seq<seq<byte>>, i: nat)
    requires Trace(ss, run) && i < |chunks| <= |bufs| && i + 1 < |at| && i < |los|
  {
    BufferRead(ss, run, at[i], los[i], at[i + 1], t, p, fd, |bufs[i]|, chunks[i])
  }

  lemma {:induction false} VectorTakes(ss: seq<Sys>, run: seq<Action>, at: seq<nat>, los: seq<nat>,
                                       t: nat, p: nat, fd: int, bufs: seq<seq<byte>>, chunks: seq<seq<byte>>, k: nat)
    requires Trace(ss, run) && Inv(ss[0]) && VectorRead(ss, run, at, los, t, p, fd, bufs, chunks) && k <= |chunks|
    ensures at[k] <= |run| && DeliveredOf(ss[at[k]], p) == DeliveredOf(ss[at[0]], p) + Concat(chunks[..k])
  {
    if k == 0 {
      assert DeliveredOf(ss[at[0]], p) + [] == DeliveredOf(ss[at[0]], p);
    } else {
      VectorTakes(ss, run, at, los, t, p, fd, bufs, chunks, k - 1);
      assert ReadAt(ss, run, at, los, t, p, fd, bufs, chunks, k - 1);
      BufferTakes(ss, run, at[k - 1], los[k - 1], at[k], t, p, fd, |bufs[k - 1]|, chunks[k - 1]);
      ConcatTake(chunks, k - 1);
      Regroup(DeliveredOf(ss[at[0]], p), Concat(chunks[..k - 1]), chunks[k - 1]);
    }
  }

  /** What a read call that has returned gives to the loop of `readv`. */
  ghost function ChunkOf(s: Sys, t: nat): Chunk
    requires t < |s.threads|
  {
    match s.threads[t].call
    case Idle(Got(bytes)) => Chunk.Got(bytes)
    case _ => Fail(0)
  }

  ghost predicate SuppliedAt(ss: seq<Sys>, run: seq<Action>, at: seq<nat>, los: seq<nat>,
                             t: nat, p: nat, fd: int, bufs: seq<seq<byte>>, source: (nat, nat) -> Chunk, i: nat)
    requires Trace(ss, run) && i < |bufs| && i + 1 < |at| && i < |los|
  {
    && NoReads(ss, run, at[i], los[i], p)
    && if bufs[i] == [] then los[i] == at[i + 1]
       else && ReadCall(ss, run, los[i], at[i + 1], t, p, fd, |bufs[i]|)
            && t < |ss[at[i + 1]].threads| && source(i, |bufs[i]|) == ChunkOf(ss[at[i + 1]], t)
  }

  /**
   `readv` on a pipe: with the chunks given by read calls on it, and with `r`, `filled` and `chunks` as
   `Readv` then gives them, what is delivered grows by exactly the chunks, and on success the first `r.n`
   bytes of the buffers are that.
   */
  lemma ReadvOnPipe(ss: seq<Sys>, run: seq<Action>, at: seq<nat>, los: seq<nat>, t: nat, p: nat, fd: int,
                    bufs: seq<seq<byte>>, source: (nat, nat) -> Chunk,
                    filled: seq<seq<byte>>, chunks: seq<seq<byte>>, r: Answer)
    requires Trace(ss, run) && Inv(ss[0]) && |at| == |chunks| + 1 && |los| == |chunks| <= |bufs| && at[0] <= |run|
    requires forall i :: 0 <= i < |chunks| ==> SuppliedAt(ss, run, at, los, t, p, fd, bufs, source, i)
    requires Took(bufs, source, chunks)
    requires |Concat(chunks)| <= |Concat(bufs)| && Concat(filled) == Over(Concat(chunks), Concat(bufs))
    requires r.Ok? ==> r.n == |Concat(chunks)|
    ensures VectorRead(ss, run, at, los, t, p, fd, bufs, chunks) && at[|chunks|] <= |run|
    ensures DeliveredOf(ss[at[|chunks|]], p) == DeliveredOf(ss[at[0]], p) + Concat(chunks)
    ensures r.Ok? ==> r.n <= |Concat(filled)| && Concat(filled)[..r.n] == Concat(chunks)
  {
    SuppliedVector(ss, run, at, los, t, p, fd, bufs, source, chunks);
    VectorTakes(ss, run, at, los, t, p, fd, bufs, chunks, |chunks|);
    WholeConcat(chunks);
    OverStarts(Concat(chunks), Concat(bufs));
  }

  lemma SuppliedVector(ss: seq<Sys>, run: seq<Action>, at: seq<nat>, los: seq<nat>, t: nat, p: nat, fd: int,
                       bufs: seq<seq<byte>>, source: (nat, nat) -> Chunk, chunks: seq<seq<byte>>)
    requires Trace(ss, run) && |at| == |chunks| + 1 && |los| == |chunks| <= |bufs| && at[0] <= |run|
    requires forall i :: 0 <= i < |chunks| ==> SuppliedAt(ss, run, at, los, t, p, fd, bufs, source, i)
    requires Took(bufs, source, chunks)
    ensures VectorRead(ss, run, at, los, t, p, fd, bufs, chunks)
  {
    forall i | 0 <= i < |chunks|
      ensures ReadAt(ss, run, at, los, t, p, fd, bufs, chunks, i)
    {
      SuppliedIsRead(ss, run, at, los, t, p, fd, bufs, source, chunks, i);
    }
  }

  lemma SuppliedIsRead(ss: seq<Sys>, run: seq<Action>, at: seq<nat>, los: seq<nat>, t: nat, p: nat, fd: int,
                       bufs: seq<seq<byte>>, source: (nat, nat) -> Chunk, chunks: seq<seq<byte>>, i: nat)
    requires Trace(ss, run) && i < |chunks| <= |bufs| && i + 1 < |at| && i < |los|
    ensures SuppliedAt(ss, run, at, los, t, p, fd, bufs, source, i) && Took(bufs, source, chunks) ==>
              ReadAt(ss, run, at, los, t, p, fd, bufs, chunks, i)
  {
  }

  lemma OverStarts(chunk: seq<byte>, x: seq<byte>)
    requires |chunk| <= |x|
    ensures |Over(chunk, x)| == |x| && Over(chunk, x)[..|chunk|] == chunk
  {
  }

  // ---- One writer, one reader ----

  ghost function Waiting(s: Sys, p: nat): seq<byte>
    requires p in s.heap.bufs && s.heap.bufs[p].value.Valid()
  {
    s.heap.bufs[p].value.Contents()
  }

  /**
   Over a whole run in which thread `t` is the only writer of `p` and thread `u` the only reader, each through
   any sequence of segments or buffers: what was in the ring before, followed by all that the writer passed
   on, is all that the reader took, followed by what is in the ring after. The reader's bytes continue the
   stream where it stood, without gap, loss or repetition.
   */
  lemma UnbrokenStream(ss: seq<Sys>, run: seq<Action>, p: nat,
                       at: seq<nat>, los: seq<nat>, t: nat, fd: int, segs: seq<seq<byte>>, pieces: seq<seq<byte>>,
                       at': seq<nat>, los': seq<nat>, u: nat, fd': int, bufs: seq<seq<byte>>, chunks: seq<seq<byte>>)
    requires Trace(ss, run) && Inv(ss[0])
    requires VectorWritten(ss, run, at, los, t, p, fd, segs, pieces) && at[0] == 0 && at[|pieces|] == |run|
    requires VectorRead(ss, run, at', los', u, p, fd', bufs, chunks) && at'[0] == 0 && at'[|chunks|] == |run|
    requires p in ss[0].heap.bufs && p in ss[|run|].heap.bufs
    ensures ss[0].heap.bufs[p].value.Valid() && ss[|run|].heap.bufs[p].value.Valid()
    ensures Waiting(ss[0], p) + Concat(pieces) == Concat(chunks) + Waiting(ss[|run|], p)
    ensures |Concat(chunks)| <= |Waiting(ss[0], p)| + |Concat(pieces)|
    ensures Concat(chunks) == (Waiting(ss[0], p) + Concat(pieces))[..|Concat(chunks)|]
  {
    var z := ss[|run|];
    VectorAppends(ss, run, at, los, t, p, fd, segs, pieces, |pieces|);
    VectorTakes(ss, run, at', los', u, p, fd', bufs, chunks, |chunks|);
    WholeConcat(pieces);
    WholeConcat(chunks);
    TraceInv(ss, run, |run|);
    StreamIs(ss[0], p);
    StreamIs(z, p);
    Cancel(DeliveredOf(ss[0], p), Waiting(ss[0], p), Concat(pieces), Concat(chunks), Waiting(z, p));
  }

  lemma StreamIs(s: Sys, p: nat)
    requires Inv(s) && p in s.heap.bufs
    ensures s.heap.bufs[p].value.Valid() && AcceptedOf(s, p) == DeliveredOf(s, p) + Waiting(s, p)
  {
    assert p < |s.pipes|;
    assert StreamOk(s, p);
  }

  lemma Cancel(d: seq<byte>, c: seq<byte>, w: seq<byte>, r: seq<byte>, e: seq<byte>)
    requires d + c + w == d + r + e
    ensures c + w == r + e
  {
    assert c + w == (d + c + w)[|d|..] && r + e == (d + r + e)[|d|..];
  }
}
