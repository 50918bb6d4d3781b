/**
 `getdents64`: a resumable directory reader with one entry of carry-over. `Call` is one system call on
 values; `Directory.Getdents` runs it on a buffer. `budget` says how many `read_dir` calls succeed
 before one fails (None: all do).
 */
module Getdents {
  import opened Basics
  import opened Dirent

  /** What is left to report: the entry that did not fit last time, then the unread listing. */
  datatype Dir = Dir(carry: Option<Entry>, tail: seq<Entry>)

  datatype Status = Ok(bytes: nat) | Invalid | ReadFailed

  datatype Reply = Reply(dir: Dir, written: seq<Entry>, status: Status)

  function Pending(d: Dir): seq<Entry> {
    (if d.carry.Some? then [d.carry.value] else []) + d.tail
  }

  function Spend(budget: Option<nat>): Option<nat>
    requires budget != Some(0)
  {
    if budget.Some? then Some(budget.value - 1) else None
  }

  /** The reading loop, with `written` already in a buffer of `cap` bytes. */
  function Fill(tail: seq<Entry>, written: seq<Entry>, cap: nat, budget: Option<nat>): Reply
    decreases |tail|
  {
    if budget == Some(0) then Reply(Dir(None, tail), written, ReadFailed)
    else if tail == [] then Reply(Dir(None, []), written, Ok(Size(written)))
    else if Size(written) + RecLen(|tail[0].name|) > cap then
      Reply(Dir(Some(tail[0]), tail[1..]), written, if Size(written) == 0 then Invalid else Ok(Size(written)))
    else Fill(tail[1..], written + [tail[0]], cap, Spend(budget))
  }

  function Call(d: Dir, cap: nat, budget: Option<nat>): Reply {
    if d.carry.None? then Fill(d.tail, [], cap, budget)
    else if RecLen(|d.carry.value.name|) > cap then Reply(d, [], Invalid)
    else Fill(d.tail, [d.carry.value], cap, budget)
  }

  lemma SizeZero(es: seq<Entry>)
    ensures Size(es) == 0 <==> es == []
  {
  }

  /** No call skips, repeats or reorders an entry: what it wrote and what it leaves is what was pending. */
  lemma {:induction false} FillConserves(tail: seq<Entry>, written: seq<Entry>, cap: nat, budget: Option<nat>)
    ensures var r := Fill(tail, written, cap, budget);
            written <= r.written && r.written + Pending(r.dir) == written + tail
    decreases |tail|
  {
    if budget != Some(0) && tail != [] && Size(written) + RecLen(|tail[0].name|) <= cap {
      FillConserves(tail[1..], written + [tail[0]], cap, Spend(budget));
      assert written + tail == written + [tail[0]] + tail[1..];
    } else if tail != [] {
      assert tail == [tail[0]] + tail[1..];
    }
  }

  lemma SizeSnoc(es: seq<Entry>, e: Entry)
    ensures Size(es + [e]) == Size(es) + RecLen(|e.name|)
  {
    assert (es + [e])[..|es|] == es;
  }

  /** What the status says about the call. */
  lemma {:induction false} FillStatus(tail: seq<Entry>, written: seq<Entry>, cap: nat, budget: Option<nat>)
    requires Size(written) <= cap
    ensures var r := Fill(tail, written, cap, budget);
            && Size(r.written) <= cap
            && (r.status.Ok? ==> r.status.bytes == Size(r.written))
            && (r.status.Invalid? ==> r.written == [] && r.dir.carry.Some?)
            && (r.status.Ok? && r.written == [] ==> tail == [])
            && (budget.None? ==> !r.status.ReadFailed?)
    decreases |tail|
  {
    SizeZero(written);
    if budget != Some(0) && tail != [] && Size(written) + RecLen(|tail[0].name|) <= cap {
      SizeSnoc(written, tail[0]);
      FillStatus(tail[1..], written + [tail[0]], cap, Spend(budget));
      FillConserves(tail[1..], written + [tail[0]], cap, Spend(budget));
    }
  }

  lemma SizeOne(e: Entry)
    ensures Size([e]) == RecLen(|e.name|)
  {
    assert [e][..0] == [];
    assert Size([e]) == Size([e][..0]) + RecLen(|e.name|);
  }

  lemma CallConserves(d: Dir, cap: nat, budget: Option<nat>)
    ensures var r := Call(d, cap, budget);
            && r.written + Pending(r.dir) == Pending(d)
            && Size(r.written) <= cap
            && (r.status.Ok? ==> r.status.bytes == Size(r.written))
            && (r.status.Invalid? ==> r.written == [] && r.dir.carry.Some?)
            && (budget.None? ==> !r.status.ReadFailed?)
  {
    if d.carry.Some? {
      SizeOne(d.carry.value);
      if RecLen(|d.carry.value.name|) <= cap {
        FillConserves(d.tail, [d.carry.value], cap, budget);
        FillStatus(d.tail, [d.carry.value], cap, budget);
      }
    } else {
      FillConserves(d.tail, [], cap, budget);
      FillStatus(d.tail, [], cap, budget);
    }
  }

  /** Zero is returned only, and always, when nothing is pending (and reading does not fail). */
  lemma ZeroMeansEnd(d: Dir, cap: nat)
    ensures Call(d, cap, None).status == Ok(0) <==> Pending(d) == []
    ensures forall budget :: Call(d, cap, budget).status == Ok(0) ==> Pending(d) == []
  {
    forall budget
      ensures Call(d, cap, budget).status == Ok(0) ==> Pending(d) == []
    {
      CallConserves(d, cap, budget);
      var r := Call(d, cap, budget);
      SizeZero(r.written);
      if r.status == Ok(0) {
        if d.carry.Some? {
          SizeOne(d.carry.value);
          FillConserves(d.tail, [d.carry.value], cap, budget);
        } else {
          FillStatus(d.tail, [], cap, budget);
        }
      }
    }
  }

  // ---- Any sequence of calls ----

  datatype Request = Request(cap: nat, budget: Option<nat>)

  /** The replies to a sequence of calls on one open directory. */
  ghost function Replies(d: Dir, reqs: seq<Request>): (rs: seq<Reply>)
    ensures |rs| == |reqs|
  {
    if reqs == [] then []
    else
      var rs := Replies(d, reqs[..|reqs| - 1]);
      rs + [Call(DirAfter(d, rs), reqs[|reqs| - 1].cap, reqs[|reqs| - 1].budget)]
  }

  ghost function DirAfter(d: Dir, rs: seq<Reply>): Dir {
    if rs == [] then d else rs[|rs| - 1].dir
  }

  /** The entries the calls took from the directory, in order. */
  ghost function Taken(rs: seq<Reply>): seq<Entry> {
    if rs == [] then [] else Taken(rs[..|rs| - 1]) + rs[|rs| - 1].written
  }

  /** The entries the caller was given: those of the calls that returned a byte count. */
  ghost function Delivered(rs: seq<Reply>): seq<Entry> {
    if rs == [] then []
    else Delivered(rs[..|rs| - 1]) + if rs[|rs| - 1].status.Ok? then rs[|rs| - 1].written else []
  }

  lemma {:induction false} TakenOnce(d: Dir, reqs: seq<Request>)
    ensures Taken(Replies(d, reqs)) + Pending(DirAfter(d, Replies(d, reqs))) == Pending(d)
  {
    if reqs != [] {
      var n := |reqs| - 1;
      var rs := Replies(d, reqs[..n]);
      TakenOnce(d, reqs[..n]);
      CallConserves(DirAfter(d, rs), reqs[n].cap, reqs[n].budget);
      assert Replies(d, reqs)[..n] == rs;
    }
  }

  /** A call whose `read_dir` fails after something was written: what it wrote is lost. */
  ghost predicate Loses(r: Reply) {
    r.status.ReadFailed? && r.written != []
  }

  lemma {:induction false} DeliveredLength(rs: seq<Reply>)
    requires forall i :: 0 <= i < |rs| && rs[i].status.Invalid? ==> rs[i].written == []
    ensures |Delivered(rs)| <= |Taken(rs)|
    ensures (forall i :: 0 <= i < |rs| ==> !Loses(rs[i])) ==> Delivered(rs) == Taken(rs)
    ensures (exists i :: 0 <= i < |rs| && Loses(rs[i])) ==> |Delivered(rs)| < |Taken(rs)|
  {
    if rs != [] {
      var n := |rs| - 1;
      DeliveredLength(rs[..n]);
      assert forall i :: 0 <= i < n ==> rs[..n][i] == rs[i];
      if i :| 0 <= i < |rs| && Loses(rs[i]) {
        if i < n {
          assert Loses(rs[..n][i]);
        }
      }
    }
  }

  lemma {:induction false} RepliesInvalid(d: Dir, reqs: seq<Request>, i: nat)
    requires i < |reqs|
    ensures Replies(d, reqs)[i].status.Invalid? ==> Replies(d, reqs)[i].written == []
    ensures reqs[i].budget.None? ==> !Replies(d, reqs)[i].status.ReadFailed?
  {
    var n := |reqs| - 1;
    var rs := Replies(d, reqs[..n]);
    if i < n {
      RepliesInvalid(d, reqs[..n], i);
      assert Replies(d, reqs)[i] == rs[i];
    } else {
      CallConserves(DirAfter(d, rs), reqs[n].cap, reqs[n].budget);
    }
  }

  /** What a call whose `k`-th read fails has put in the buffer by then, if it all fits. */
  function Before(d: Dir, k: nat): seq<Entry>
    requires k <= |d.tail|
  {
    (if d.carry.Some? then [d.carry.value] else []) + d.tail[..k]
  }

  /**
   A request that loses entries: its reading fails at the `k`-th entry, which is not past the end, and the
   entries before that, at least one of them, fit the buffer.
   */
  predicate LosesEntries(d: Dir, req: Request) {
    && req.budget.Some? && req.budget.value <= |d.tail|
    && Before(d, req.budget.value) != [] && Size(Before(d, req.budget.value)) <= req.cap
  }

  lemma {:induction false} SizeMonotone(es: seq<Entry>, more: seq<Entry>)
    ensures Size(es) <= Size(es + more)
    decreases |more|
  {
    if more == [] {
      assert es + more == es;
    } else {
      var n := |more| - 1;
      SizeMonotone(es, more[..n]);
      assert (es + more)[..|es + more| - 1] == es + more[..n];
    }
  }

  lemma OneOver(written: seq<Entry>, tail: seq<Entry>, k: nat)
    requires 0 < k <= |tail|
    ensures written + tail[..k] == written + [tail[0]] + tail[1..][..k - 1]
  {
  }

  /** The reading loop fails exactly if all entries before the failing read fit. */
  lemma {:induction false} FillFailsIff(tail: seq<Entry>, written: seq<Entry>, cap: nat, k: nat)
    requires Size(written) <= cap
    ensures var r := Fill(tail, written, cap, Some(k));
            && (r.status.ReadFailed? <==> k <= |tail| && Size(written + tail[..k]) <= cap)
            && (r.status.ReadFailed? ==> r.written == written + tail[..k])
    decreases |tail|
  {
    if k == 0 {
      assert written + tail[..0] == written;
    } else if tail != [] {
      var w := written + [tail[0]];
      SizeSnoc(written, tail[0]);
      if k <= |tail| {
        OneOver(written, tail, k);
        SizeMonotone(w, tail[1..][..k - 1]);
      }
      if Size(w) <= cap {
        FillFailsIff(tail[1..], w, cap, k - 1);
      }
    }
  }

  /** Whether a call loses entries is decided by what is pending and by the request. */
  lemma LosesIff(d: Dir, req: Request)
    ensures Loses(Call(d, req.cap, req.budget)) <==> LosesEntries(d, req)
  {
    CallConserves(d, req.cap, req.budget);
    if req.budget.Some? {
      var k := req.budget.value;
      if d.carry.None? {
        FillFailsIff(d.tail, [], req.cap, k);
      } else {
        SizeOne(d.carry.value);
        if RecLen(|d.carry.value.name|) <= req.cap {
          FillFailsIff(d.tail, [d.carry.value], req.cap, k);
        } else if k <= |d.tail| {
          SizeMonotone([d.carry.value], d.tail[..k]);
        }
      }
    }
  }

  /** `k` is the number of entries of `es` that fit a buffer of `cap` bytes: no more of them would. */
  ghost predicate Longest(es: seq<Entry>, cap: nat, k: nat) {
    k <= |es| && Size(es[..k]) <= cap && (k < |es| ==> Size(es[..k + 1]) > cap)
  }

  lemma {:induction false} FillWritesLongest(tail: seq<Entry>, written: seq<Entry>, cap: nat)
    requires Size(written) <= cap
    ensures var r := Fill(tail, written, cap, None);
            && written <= r.written && Longest(written + tail, cap, |r.written|)
            && r.status == if r.written == [] && tail != [] then Invalid else Ok(Size(r.written))
    decreases |tail|
  {
    SizeZero(written);
    StartOf(written, tail);
    if tail != [] {
      SizeSnoc(written, tail[0]);
      if Size(written + [tail[0]]) <= cap {
        FillWritesLongest(tail[1..], written + [tail[0]], cap);
      }
    }
  }

  lemma StartOf(written: seq<Entry>, tail: seq<Entry>)
    ensures (written + tail)[..|written|] == written
    ensures tail != [] ==> (written + tail)[..|written| + 1] == written + [tail[0]]
    ensures tail != [] ==> written + tail == written + [tail[0]] + tail[1..]
  {
  }

  /**
   With reads that do not fail, a call writes as many of the pending entries as fit, from the first on, and
   returns their size; it is refused if and only if there are entries and not even the first fits.
   */
  lemma CallWritesLongest(d: Dir, cap: nat)
    ensures var r, es := Call(d, cap, None), Pending(d);
            && Longest(es, cap, |r.written|) && r.written == es[..|r.written|] && Pending(r.dir) == es[|r.written|..]
            && (r.status.Invalid? <==> es != [] && RecLen(|es[0].name|) > cap)
            && (!r.status.Invalid? ==> r.status == Ok(Size(r.written)))
  {
    var r, es := Call(d, cap, None), Pending(d);
    CallConserves(d, cap, None);
    assert es[..|r.written|] == r.written && es[|r.written|..] == Pending(r.dir);
    assert Size([]) == 0;
    if es != [] {
      SizeOne(es[0]);
      assert es[..1] == [es[0]] && es[..0] == [];
    }
    if d.carry.None? {
      FillWritesLongest(d.tail, [], cap);
      assert [] + d.tail == es;
    } else {
      SizeOne(d.carry.value);
      if RecLen(|d.carry.value.name|) <= cap {
        FillWritesLongest(d.tail, [d.carry.value], cap);
      }
    }
  }

  /** A failing directory read shows only in the calls that get to it; all others do what they would without it. */
  lemma {:induction false} FillUnlessFailing(tail: seq<Entry>, written: seq<Entry>, cap: nat, k: nat)
    ensures var r := Fill(tail, written, cap, Some(k));
            r.status.ReadFailed? || r == Fill(tail, written, cap, None)
    decreases |tail|
  {
    if k > 0 && tail != [] {
      FillUnlessFailing(tail[1..], written + [tail[0]], cap, k - 1);
    }
  }

  lemma CallUnlessFailing(d: Dir, cap: nat, k: nat)
    ensures var r := Call(d, cap, Some(k));
            && (r.status.ReadFailed? <==> k <= |d.tail| && Size(Before(d, k)) <= cap)
            && (r.status.ReadFailed? ==> r.written == Before(d, k) && Pending(r.dir) == d.tail[k..])
            && (!r.status.ReadFailed? ==> r == Call(d, cap, None))
  {
    CallConserves(d, cap, Some(k));
    var first := if d.carry.Some? then [d.carry.value] else [];
    if d.carry.Some? {
      SizeOne(d.carry.value);
    }
    if Size(first) <= cap {
      FillFailsIff(d.tail, first, cap, k);
      FillUnlessFailing(d.tail, first, cap, k);
      if k <= |d.tail| {
        assert Pending(d) == Before(d, k) + d.tail[k..];
        if Call(d, cap, Some(k)).status.ReadFailed? {
          SameRest(Before(d, k), Pending(Call(d, cap, Some(k)).dir), d.tail[k..]);
        }
      }
    } else if k <= |d.tail| {
      SizeMonotone(first, d.tail[..k]);
    }
  }

  /** The directory as request `i` finds it. */
  ghost function DirBefore(d: Dir, reqs: seq<Request>, i: nat): Dir
    requires i <= |reqs|
  {
    DirAfter(d, Replies(d, reqs[..i]))
  }

  lemma {:induction false} ReplyIs(d: Dir, reqs: seq<Request>, i: nat)
    requires i < |reqs|
    ensures Replies(d, reqs)[i] == Call(DirBefore(d, reqs, i), reqs[i].cap, reqs[i].budget)
  {
    var n := |reqs| - 1;
    if i < n {
      ReplyIs(d, reqs[..n], i);
      assert reqs[..n][..i] == reqs[..i];
    }
  }

  /**
   Over any sequence of calls with any buffer sizes, refused ones included: what was delivered, then
   what is pending, is the listing, each entry once and in order -- if and only if no request loses
   entries in the directory as it finds it.
   */
  lemma ExactlyOnce(d: Dir, reqs: seq<Request>)
    ensures var rs := Replies(d, reqs);
            Delivered(rs) + Pending(DirAfter(d, rs)) == Pending(d)
            <==> forall i :: 0 <= i < |reqs| ==> !LosesEntries(DirBefore(d, reqs, i), reqs[i])
    ensures (forall i :: 0 <= i < |reqs| ==> reqs[i].budget.None?) ==>
              Delivered(Replies(d, reqs)) + Pending(DirAfter(d, Replies(d, reqs))) == Pending(d)
  {
    forall i | 0 <= i < |reqs|
      ensures Loses(Replies(d, reqs)[i]) <==> LosesEntries(DirBefore(d, reqs, i), reqs[i])
    {
      ReplyIs(d, reqs, i);
      LosesIff(DirBefore(d, reqs, i), reqs[i]);
    }
    NothingLostIff(d, reqs);
  }

  lemma NothingLostIff(d: Dir, reqs: seq<Request>)
    ensures var rs := Replies(d, reqs);
            Delivered(rs) + Pending(DirAfter(d, rs)) == Pending(d)
            <==> forall i :: 0 <= i < |rs| ==> !Loses(rs[i])
    ensures (forall i :: 0 <= i < |reqs| ==> reqs[i].budget.None?) ==>
              Delivered(Replies(d, reqs)) + Pending(DirAfter(d, Replies(d, reqs))) == Pending(d)
  {
    var rs := Replies(d, reqs);
    TakenOnce(d, reqs);
    forall i | 0 <= i < |rs|
      ensures rs[i].status.Invalid? ==> rs[i].written == []
      ensures reqs[i].budget.None? ==> !rs[i].status.ReadFailed?
    {
      RepliesInvalid(d, reqs, i);
    }
    DeliveredLength(rs);
    assert |Delivered(rs) + Pending(DirAfter(d, rs))| == |Delivered(rs)| + |Pending(DirAfter(d, rs))|;
    assert |Taken(rs) + Pending(DirAfter(d, rs))| == |Taken(rs)| + |Pending(DirAfter(d, rs))|;
  }

  /** With buffers that hold any one entry, a call either ends the listing or delivers something. */
  lemma RoomyCallsProgress(d: Dir, cap: nat)
    requires forall e :: e in Pending(d) ==> RecLen(|e.name|) <= cap
    ensures var r := Call(d, cap, None);
            r.status.Ok? && (Pending(d) != [] ==> r.written != [])
  {
    var r := Call(d, cap, None);
    CallConserves(d, cap, None);
    if d.carry.Some? {
      assert Pending(d)[0] == d.carry.value;
      SizeOne(d.carry.value);
      FillConserves(d.tail, [d.carry.value], cap, None);
    } else if d.tail != [] {
      assert Pending(d)[0] == d.tail[0];
      assert [] + [d.tail[0]] == [d.tail[0]];
      FillConserves(d.tail[1..], [d.tail[0]], cap, None);
    }
  }

  /** Such calls deliver the whole listing in at most as many calls as it has entries. */
  lemma {:induction false} RoomyCallsFinish(d: Dir, cap: nat, k: nat)
    requires forall e :: e in Pending(d) ==> RecLen(|e.name|) <= cap
    ensures var rs := Replies(d, seq(k, _ => Request(cap, None)));
            && Delivered(rs) + Pending(DirAfter(d, rs)) == Pending(d)
            && |Pending(DirAfter(d, rs))| <= if k >= |Pending(d)| then 0 else |Pending(d)| - k
  {
    var reqs := seq(k, _ => Request(cap, None));
    ExactlyOnce(d, reqs);
    if k > 0 {
      var n := k - 1;
      assert reqs[..n] == seq(n, _ => Request(cap, None));
      var rs := Replies(d, reqs[..n]);
      RoomyCallsFinish(d, cap, n);
      var m := DirAfter(d, rs);
      forall e | e in Pending(m)
        ensures RecLen(|e.name|) <= cap
      {
        assert e in Delivered(rs) + Pending(m);
      }
      RoomyCallsProgress(m, cap);
      CallConserves(m, cap, None);
      assert |Call(m, cap, None).written + Pending(Call(m, cap, None).dir)| == |Pending(m)|;
    }
  }

  // ---- The call as the code runs it ----

  class Directory {
    var lastDirent: Option<Entry>
    var unread: seq<Entry>

    ghost function Value(): Dir
      reads this
    {
      Dir(lastDirent, unread)
    }

    constructor (listing: seq<Entry>)
      ensures Value() == Dir(None, listing)
    {
      lastDirent, unread := None, listing;
    }

    /** `read_dir` for one entry. */
    method ReadDir() returns (e: Option<Entry>)
      modifies this`unread
      ensures e.None? ==> old(unread) == [] && unread == []
      ensures e.Some? ==> old(unread) == [e.value] + unread
    {
      if unread == [] {
        e := None;
      } else {
        e, unread := Some(unread[0]), unread[1..];
      }
    }

    /** The reading loop; `failed` says that `read_dir` did. */
    method FillBuffer(buffer: DirBuffer, budget: Option<nat>, pad: seq<byte>) returns (failed: bool)
      requires buffer.Valid() && lastDirent.None? && |pad| == STRUCT_SIZE - NAME_OFFSET
      modifies this, buffer, buffer.buf
      ensures buffer.Valid()
      ensures var reply := Fill(old(unread), old(buffer.written), buffer.buf.Length, budget);
              && Value() == reply.dir && buffer.written == reply.written
              && (failed <==> reply.status.ReadFailed?)
              && (!failed ==> reply.status == if lastDirent.Some? && buffer.offset == 0 then Invalid else Ok(buffer.offset))
    {
      ghost var reply := Fill(unread, buffer.written, buffer.buf.Length, budget);
      var left := budget;
      failed := false;
      while true
        invariant buffer.Valid() && lastDirent.None?
        invariant reply == Fill(unread, buffer.written, buffer.buf.Length, left)
        decreases |unread|
      {
        if left == Some(0) {
          failed := true;
          return;
        }
        left := Spend(left);
        var next := ReadDir();
        if next.None? {
          return;
        }
        var ok := buffer.WriteEntry(next.value, pad);
        if !ok {
          lastDirent := next;
          return;
        }
      }
    }

    method Getdents(buf: array<byte>, budget: Option<nat>, pad: seq<byte>) returns (r: Status)
      requires |pad| == STRUCT_SIZE - NAME_OFFSET
      modifies this, buf
      ensures var reply := Call(old(Value()), buf.Length, budget);
              && r == reply.status && Value() == reply.dir
              && (r.Ok? ==> r.bytes <= buf.Length && AreRecords(buf[..r.bytes], reply.written))
              && (r.Ok? && (forall e :: e in reply.written ==> Fits(e)) ==>
                    Decode(buf[..r.bytes]) == Some(reply.written))
    {
      var buffer := new DirBuffer(buf);
      if lastDirent.Some? {
        var ent := lastDirent.value;
        lastDirent := None;
        var ok := buffer.WriteEntry(ent, pad);
        if !ok {
          lastDirent := Some(ent);
          return Invalid;
        }
      }
      var failed := FillBuffer(buffer, budget, pad);
      if failed {
        return ReadFailed;
      }
      RoundTrip(buf[..buffer.offset], buffer.written);
      if lastDirent.Some? && buffer.offset == 0 {
        return Invalid;
      }
      r := Ok(buffer.offset);
    }
  }
}
