/** `readv` and `writev`: the loops over the segments, with the file behind them given by its answers. */
module Iovec {
  import opened Basics

  const IOV_LIMIT: nat := 1024
  const EINVAL: int := 22

  datatype Answer = Ok(n: nat) | Err(errno: int)

  function Concat(segs: seq<seq<byte>>): seq<byte> {
    if segs == [] then [] else segs[0] + Concat(segs[1..])
  }

  lemma {:induction false} ConcatJoin(a: seq<seq<byte>>, b: seq<seq<byte>>)
    ensures Concat(a + b) == Concat(a) + Concat(b)
  {
    if a == [] {
      assert a + b == b;
    } else {
      ConcatJoin(a[1..], b);
      assert (a + b)[1..] == a[1..] + b;
      Regroup(a[0], Concat(a[1..]), Concat(b));
    }
  }

  lemma ConcatPrefix(segs: seq<seq<byte>>, k: nat)
    requires k <= |segs|
    ensures Concat(segs[..k]) <= Concat(segs)
  {
    ConcatJoin(segs[..k], segs[k..]);
    assert segs[..k] + segs[k..] == segs;
  }

  lemma ConcatSnoc(segs: seq<seq<byte>>, x: seq<byte>)
    ensures Concat(segs + [x]) == Concat(segs) + x
  {
    ConcatJoin(segs, [x]);
    assert Concat([x]) == x + Concat([]) == x;
  }

  lemma {:induction false} ConcatNone(segs: seq<seq<byte>>)
    requires forall i :: 0 <= i < |segs| ==> segs[i] == []
    ensures Concat(segs) == []
  {
    if segs != [] {
      ConcatNone(segs[1..]);
    }
  }

  /** The last segment that is not empty grows. */
  lemma {:induction false} ConcatGrows(segs: seq<seq<byte>>, id: nat, chunk: seq<byte>)
    requires id < |segs| && forall i :: id < i < |segs| ==> segs[i] == []
    ensures Concat(segs[id := segs[id] + chunk]) == Concat(segs) + chunk
  {
    var grown := segs[id := segs[id] + chunk];
    if id == 0 {
      ConcatNone(segs[1..]);
      assert grown[1..] == segs[1..];
      assert grown[0] + [] == segs[0] + [] + chunk;
    } else {
      ConcatGrows(segs[1..], id - 1, chunk);
      assert grown[1..] == segs[1..][id - 1 := segs[1..][id - 1] + chunk];
      Regroup(segs[0], Concat(segs[1..]), chunk);
    }
  }

  lemma ConcatTake(segs: seq<seq<byte>>, k: nat)
    requires k < |segs|
    ensures Concat(segs[..k + 1]) == Concat(segs[..k]) + segs[k]
  {
    ConcatSnoc(segs[..k], segs[k]);
    assert segs[..k + 1] == segs[..k] + [segs[k]];
  }

  /**
   `answer(i, len)` is what passing on the non-empty segment `i` of `len` bytes comes to: the number of
   bytes the file took, or an error from it or from the check of the segment's memory. `passed` is what
   the file took in all, and `pieces` what it took of each segment passed on.
   */
  method Writev(segs: seq<seq<byte>>, answer: (nat, nat) -> Answer)
    returns (r: Answer, passed: seq<byte>, pieces: seq<seq<byte>>)
    requires forall i, len :: answer(i, len).Ok? ==> answer(i, len).n <= len
    ensures |segs| > IOV_LIMIT ==> r == Err(EINVAL) && passed == []
    ensures r.Ok? ==> r.n == |passed| && passed <= Concat(segs)
    ensures r.Ok? && r.n < |Concat(segs)| ==> StopsShort(segs, answer, passed)
    ensures r.Err? && |segs| <= IOV_LIMIT ==> FailsAfter(segs, answer, passed, r.errno)
    ensures Passes(segs, answer, pieces) && passed == Concat(pieces)
    ensures r.Ok? && |pieces| < |segs| ==> pieces != [] && |pieces[|pieces| - 1]| < |segs[|pieces| - 1]|
    ensures r.Err? && |segs| <= IOV_LIMIT ==>
              var k := |pieces|;
              k < |segs| && segs[k] != [] && answer(k, |segs[k]|) == Err(r.errno)
  {
    passed, pieces := [], [];
    if |segs| > IOV_LIMIT {
      return Err(EINVAL), [], [];
    }
    var ret := 0;
    for i := 0 to |segs|
      invariant passed == Concat(segs[..i]) && ret == |passed|
      invariant |pieces| == i && Passes(segs, answer, pieces) && passed == Concat(pieces)
    {
      ConcatTake(segs, i);
      ConcatPrefix(segs, i);
      ConcatPrefix(segs, i + 1);
      var len := |segs[i]|;
      if len == 0 {
        assert passed + segs[i] == passed;
        ConcatSnoc(pieces, []);
        PassesMore(segs, answer, pieces, []);
        pieces := pieces + [[]];
        continue;
      }
      var w := answer(i, len);
      if w.Err? {
        assert FailsAt(segs, answer, passed, w.errno, i);
        return w, passed, pieces;
      }
      ConcatSnoc(pieces, segs[i][..w.n]);
      PassesMore(segs, answer, pieces, segs[i][..w.n]);
      pieces := pieces + [segs[i][..w.n]];
      passed := passed + segs[i][..w.n];
      ret := ret + w.n;
      if w.n < len {
        assert StopsAt(segs, answer, passed, i);
        assert passed <= Concat(segs[..i + 1]);
        return Ok(ret), passed, pieces;
      }
      assert segs[i][..w.n] == segs[i];
    }
    assert segs[..|segs|] == segs;
    r := Ok(ret);
  }

  /** `pieces` are what the file took of the first segments, empty segments being passed over. */
  ghost predicate Passes(segs: seq<seq<byte>>, answer: (nat, nat) -> Answer, pieces: seq<seq<byte>>) {
    && |pieces| <= |segs|
    && forall i :: 0 <= i < |pieces| ==>
         if segs[i] == [] then pieces[i] == []
         else pieces[i] <= segs[i] && answer(i, |segs[i]|) == Ok(|pieces[i]|)
  }

  lemma PassesMore(segs: seq<seq<byte>>, answer: (nat, nat) -> Answer, pieces: seq<seq<byte>>, x: seq<byte>)
    requires Passes(segs, answer, pieces) && |pieces| < |segs|
    requires var s := segs[|pieces|];
             if s == [] then x == [] else x <= s && answer(|pieces|, |s|) == Ok(|x|)
    ensures Passes(segs, answer, pieces + [x])
  {
  }

  /** The file took all of the segments before `i` and only part of segment `i`. */
  ghost predicate StopsAt(segs: seq<seq<byte>>, answer: (nat, nat) -> Answer, passed: seq<byte>, i: nat) {
    && i < |segs| && segs[i] != [] && answer(i, |segs[i]|).Ok? && answer(i, |segs[i]|).n < |segs[i]|
    && passed == Concat(segs[..i]) + segs[i][..answer(i, |segs[i]|).n]
  }

  ghost predicate StopsShort(segs: seq<seq<byte>>, answer: (nat, nat) -> Answer, passed: seq<byte>) {
    exists i :: StopsAt(segs, answer, passed, i)
  }

  /** The file took all of the segments before `i` and then failed: an error does not mean that nothing was written. */
  ghost predicate FailsAt(segs: seq<seq<byte>>, answer: (nat, nat) -> Answer, passed: seq<byte>, errno: int, i: nat) {
    && i < |segs| && segs[i] != [] && answer(i, |segs[i]|) == Err(errno)
    && passed == Concat(segs[..i])
  }

  ghost predicate FailsAfter(segs: seq<seq<byte>>, answer: (nat, nat) -> Answer, passed: seq<byte>, errno: int) {
    exists i :: FailsAt(segs, answer, passed, errno, i)
  }

  /** What one read for at most `len` bytes gives: a chunk, or an error. */
  datatype Chunk = Got(bytes: seq<byte>) | Fail(errno: int)

  /** `chunks` are what the reads of the first buffers took, empty buffers being passed over. */
  ghost predicate Took(bufs: seq<seq<byte>>, source: (nat, nat) -> Chunk, chunks: seq<seq<byte>>) {
    && |chunks| <= |bufs|
    && forall i :: 0 <= i < |chunks| ==>
         if bufs[i] == [] then chunks[i] == [] else source(i, |bufs[i]|) == Got(chunks[i])
  }

  /** `x` with the bytes of `chunk` over its start. */
  function Over(chunk: seq<byte>, x: seq<byte>): seq<byte>
    requires |chunk| <= |x|
  {
    chunk + x[|chunk|..]
  }

  /**
   `readv`: `bufs` are the buffers as they were, `filled` as they are afterwards, and `chunks` what the
   reads took. The buffers, seen as one piece of memory, hold the chunks one after another over what
   they held before. When the call succeeds its result is the length of that, and it stops early only
   after a read that fell short. When a read fails, what the reads before it took is in the buffers but
   is not reported.
   */
  method Readv(bufs: seq<seq<byte>>, source: (nat, nat) -> Chunk)
    returns (r: Answer, filled: seq<seq<byte>>, chunks: seq<seq<byte>>)
    requires forall i, len :: source(i, len).Got? ==> |source(i, len).bytes| <= len
    ensures |bufs| > IOV_LIMIT ==> r == Err(EINVAL) && chunks == []
    ensures Took(bufs, source, chunks)
    ensures |Concat(chunks)| <= |Concat(bufs)| && Concat(filled) == Over(Concat(chunks), Concat(bufs))
    ensures r.Ok? ==> r.n == |Concat(chunks)|
    ensures r.Ok? && |chunks| < |bufs| ==> chunks != [] && |chunks[|chunks| - 1]| < |bufs[|chunks| - 1]|
    ensures r.Err? && |bufs| <= IOV_LIMIT ==>
              var k := |chunks|;
              k < |bufs| && bufs[k] != [] && source(k, |bufs[k]|) == Fail(r.errno)
  {
    filled, chunks := bufs, [];
    StreamHeld(bufs, filled, chunks);
    if |bufs| > IOV_LIMIT {
      return Err(EINVAL), bufs, [];
    }
    var ret := 0;
    for i := 0 to |bufs|
      invariant |chunks| == i && Took(bufs, source, chunks) && ret == |Concat(chunks)|
      invariant Stored(bufs, filled, chunks) && Full(bufs, chunks, i)
    {
      var len := |bufs[i]|;
      if len == 0 {
        TookMore(bufs, source, chunks, []);
        StoredMore(bufs, filled, chunks, []);
        FullMore(bufs, chunks, []);
        ConcatSnoc(chunks, []);
        chunks := chunks + [[]];
        continue;
      }
      var c := source(i, len);
      if c.Fail? {
        StreamHeld(bufs, filled, chunks);
        return Err(c.errno), filled, chunks;
      }
      TookMore(bufs, source, chunks, c.bytes);
      StoredMore(bufs, filled, chunks, c.bytes);
      FullMore(bufs, chunks, c.bytes);
      ConcatSnoc(chunks, c.bytes);
      filled := filled[i := Over(c.bytes, bufs[i])];
      ret := ret + |c.bytes|;
      chunks := chunks + [c.bytes];
      if |c.bytes| < len {
        StreamHeld(bufs, filled, chunks);
        return Ok(ret), filled, chunks;
      }
    }
    StreamHeld(bufs, filled, chunks);
    r := Ok(ret);
  }

  /** Each chunk is at the start of its buffer; the buffers without one are as they were. */
  ghost predicate Stored(bufs: seq<seq<byte>>, now: seq<seq<byte>>, chunks: seq<seq<byte>>) {
    && |chunks| <= |bufs| == |now|
    && (forall i :: 0 <= i < |chunks| ==> |chunks[i]| <= |bufs[i]| && now[i] == Over(chunks[i], bufs[i]))
    && (forall i :: |chunks| <= i < |bufs| ==> now[i] == bufs[i])
  }

  /** The first `k` chunks are as long as their buffers. */
  ghost predicate Full(bufs: seq<seq<byte>>, chunks: seq<seq<byte>>, k: int) {
    k <= |chunks| <= |bufs| && forall i :: 0 <= i < k ==> |chunks[i]| == |bufs[i]|
  }

  lemma TookMore(bufs: seq<seq<byte>>, source: (nat, nat) -> Chunk, chunks: seq<seq<byte>>, x: seq<byte>)
    requires Took(bufs, source, chunks) && |chunks| < |bufs|
    requires if bufs[|chunks|] == [] then x == [] else source(|chunks|, |bufs[|chunks|]|) == Got(x)
    ensures Took(bufs, source, chunks + [x])
  {
  }

  lemma StoredMore(bufs: seq<seq<byte>>, now: seq<seq<byte>>, chunks: seq<seq<byte>>, x: seq<byte>)
    requires Stored(bufs, now, chunks) && |chunks| < |bufs| && |x| <= |bufs[|chunks|]|
    ensures Stored(bufs, now[|chunks| := Over(x, bufs[|chunks|])], chunks + [x])
    ensures x == [] ==> Stored(bufs, now, chunks + [x])
  {
    var i := |chunks|;
    assert x == [] ==> Over(x, bufs[i]) == bufs[i] == now[i];
  }

  lemma FullMore(bufs: seq<seq<byte>>, chunks: seq<seq<byte>>, x: seq<byte>)
    requires Full(bufs, chunks, |chunks|) && |chunks| < |bufs|
    ensures Full(bufs, chunks + [x], |chunks|)
    ensures |x| == |bufs[|chunks|]| ==> Full(bufs, chunks + [x], |chunks| + 1)
  {
  }

  /** With all chunks but the last as long as their buffers, they make one stream. */
  lemma {:induction false} StreamHeld(bufs: seq<seq<byte>>, now: seq<seq<byte>>, chunks: seq<seq<byte>>)
    requires Stored(bufs, now, chunks) && Full(bufs, chunks, |chunks| - 1)
    ensures |Concat(chunks)| <= |Concat(bufs)| && Concat(now) == Over(Concat(chunks), Concat(bufs))
  {
    if chunks == [] {
      assert now == bufs;
    } else {
      StreamHeld(bufs[1..], now[1..], chunks[1..]);
      OverJoin(chunks[0], bufs[0], Concat(chunks[1..]), Concat(bufs[1..]));
    }
  }

  lemma OverJoin(c: seq<byte>, b: seq<byte>, rest: seq<byte>, more: seq<byte>)
    requires |c| <= |b| && |rest| <= |more| && (|c| == |b| || rest == [])
    ensures Over(c, b) + Over(rest, more) == Over(c + rest, b + more)
  {
  }
}
