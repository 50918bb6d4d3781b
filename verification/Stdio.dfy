/** Line-buffered standard output of the mini libc: `out` and `fflush`. */
module Stdio {
  import opened Basics

  const LINE_WIDTH: nat := 256
  const STDOUT: int := 1

  /** A `write` on standard output: what was offered and what it returned. */
  datatype Wrote = Wrote(text: string, r: int)

  /** A raw write on a descriptor other than standard output: what was offered and what it returned. */
  datatype Raw = Raw(fd: int, text: string, r: int)

  /**
   Standard output: the buffer, what the kernel took, how many bytes were dropped on the way, and the
   writes made; and the raw writes on other descriptors.
   */
  datatype Stream = Stream(buffered: string, sent: string, lost: nat, log: seq<Wrote>, direct: seq<Raw>)

  /** Result of the n-th write on a descriptor, for the number of bytes offered. */
  type Kernel = (int, nat, nat) -> int

  /** The bytes a result stands for. */
  function Taken(len: nat, r: int): nat {
    if r < 0 then 0 else Min(r, len)
  }

  function Result(o: Stream, k: Kernel): int {
    k(STDOUT, |o.log|, |o.buffered|)
  }

  /** Offers the whole buffer and clears it, whatever the answer. */
  function Flush(o: Stream, k: Kernel): Stream {
    var len := |o.buffered|;
    var n := Taken(len, Result(o, k));
    Stream("", o.sent + o.buffered[..n], o.lost + len - n, o.log + [Wrote(o.buffered, Result(o, k))], o.direct)
  }

  /**
   `out` on standard output: the stream after it and the value it returns. A write that fails ends the
   call. One that falls short does not: the code compares the result with the length it has just cleared.
   */
  function Emit(o: Stream, s: string, k: Kernel, ret: int): (Stream, int)
    decreases |s|
  {
    if s == "" then (o, ret) else
    var o1 := o.(buffered := o.buffered + [s[0]]);
    if |o1.buffered| == LINE_WIDTH || s[0] == '\n' then
      if Result(o1, k) < 0 then (Flush(o1, k).(lost := Flush(o1, k).lost + |s| - 1), Result(o1, k))
      else Emit(Flush(o1, k), s[1..], k, ret + Result(o1, k))
    else Emit(o1, s[1..], k, ret)
  }

  /** Between calls the buffer is not full and holds no complete line. */
  ghost predicate Tidy(o: Stream) {
    |o.buffered| < LINE_WIDTH && '\n' !in o.buffered
  }

  /** Every write took all it was offered. */
  ghost predicate AllTaken(log: seq<Wrote>) {
    forall i :: 0 <= i < |log| ==> Taken(|log[i].text|, log[i].r) == |log[i].text|
  }

  function Given(o: Stream): string {
    o.sent + o.buffered
  }

  // ---- What one flush and one call do ----

  lemma FlushFacts(o: Stream, k: Kernel)
    ensures var o' := Flush(o, k);
            && |o'.sent| + o'.lost == |o.sent| + |o.buffered| + o.lost
            && o.lost <= o'.lost
            && (o'.lost == o.lost <==> Taken(|o.buffered|, Result(o, k)) == |o.buffered|)
            && (o'.lost == o.lost ==> Given(o') == Given(o))
            && (AllTaken(o'.log) <==> AllTaken(o.log) && o'.lost == o.lost)
  {
    var o', n := Flush(o, k), Taken(|o.buffered|, Result(o, k));
    assert o'.log[..|o.log|] == o.log;
    if AllTaken(o'.log) {
      assert Taken(|o'.log[|o.log|].text|, o'.log[|o.log|].r) == |o'.log[|o.log|].text|;
      forall i | 0 <= i < |o.log|
        ensures Taken(|o.log[i].text|, o.log[i].r) == |o.log[i].text|
      {
        assert o'.log[i] == o.log[i];
      }
    }
    if n == |o.buffered| {
      assert o.buffered[..n] == o.buffered;
    }
  }

  /** What a call must account for: bytes by number always, bytes by value if none was dropped. */
  ghost predicate Accounts(o: Stream, s: string, o': Stream) {
    && |o'.sent| + |o'.buffered| + o'.lost == |o.sent| + |o.buffered| + o.lost + |s|
    && o.lost <= o'.lost
    && (o'.lost == o.lost ==> Given(o') == Given(o) + s)
    && (AllTaken(o'.log) ==> AllTaken(o.log) && o'.lost == o.lost)
    && (AllTaken(o.log) && o'.lost == o.lost ==> AllTaken(o'.log))
  }

  lemma AccountsChain(a: Stream, s: string, b: Stream, t: string, c: Stream)
    requires Accounts(a, s, b) && Accounts(b, t, c)
    ensures Accounts(a, s + t, c)
  {
    if c.lost == a.lost {
      assert Given(a) + s + t == Given(a) + (s + t);
    }
  }

  lemma OneByte(o: Stream, c: char)
    ensures Accounts(o, [c], o.(buffered := o.buffered + [c]))
  {
    assert Given(o.(buffered := o.buffered + [c])) == Given(o) + [c];
  }

  lemma FlushAccounts(o: Stream, k: Kernel)
    ensures Accounts(o, "", Flush(o, k))
  {
    FlushFacts(o, k);
    assert Given(o) + "" == Given(o);
  }

  lemma {:induction false} EmitAccounts(o: Stream, s: string, k: Kernel, ret: int)
    requires Tidy(o)
    ensures Accounts(o, s, Emit(o, s, k, ret).0) && Tidy(Emit(o, s, k, ret).0)
    decreases |s|
  {
    if s == "" {
      assert Given(o) + "" == Given(o);
    } else {
      var o1, rest := o.(buffered := o.buffered + [s[0]]), s[1..];
      OneByte(o, s[0]);
      if |o1.buffered| == LINE_WIDTH || s[0] == '\n' {
        FlushAccounts(o1, k);
        AccountsChain(o, [s[0]], o1, "", Flush(o1, k));
        if Result(o1, k) < 0 {
          FlushFacts(o1, k);
        } else {
          EmitAccounts(Flush(o1, k), rest, k, ret + Result(o1, k));
          AccountsChain(o, [s[0]] + "", Flush(o1, k), rest, Emit(o, s, k, ret).0);
        }
        assert [s[0]] + "" + rest == s;
      } else {
        EmitAccounts(o1, rest, k, ret);
        AccountsChain(o, [s[0]], o1, rest, Emit(o, s, k, ret).0);
        assert [s[0]] + rest == s;
      }
    }
  }

  // ---- The writes behind a call ----

  /** What the writes were offered, one after another, and what they took of it. */
  ghost function OfferedBy(log: seq<Wrote>): string {
    if log == [] then "" else OfferedBy(log[..|log| - 1]) + log[|log| - 1].text
  }

  ghost function TakenBy(log: seq<Wrote>): string {
    if log == [] then ""
    else
      var w := log[|log| - 1];
      TakenBy(log[..|log| - 1]) + w.text[..Taken(|w.text|, w.r)]
  }

  ghost function Total(log: seq<Wrote>): int {
    if log == [] then 0 else Total(log[..|log| - 1]) + log[|log| - 1].r
  }

  /** A full buffer, or a line: the newline is the last character offered. */
  ghost predicate IsLine(text: string) {
    && text != "" && |text| <= LINE_WIDTH && '\n' !in text[..|text| - 1]
    && (|text| == LINE_WIDTH || text[|text| - 1] == '\n')
  }

  ghost predicate HasFailed(log: seq<Wrote>) { log != [] && log[|log| - 1].r < 0 }

  /**
   The call of `out` with `s` made the writes `ws`: what stood in the buffer and what was given is what they
   were offered, then what is in the buffer now, then `dropped`. Each was a line or a full buffer and got the
   kernel's answer. None but the last failed, and only then is something dropped. The result is that failure,
   or the sum of the answers.
   */
  ghost predicate Explains(o: Stream, s: string, k: Kernel, ret: int, o': Stream, ret': int,
                           ws: seq<Wrote>, dropped: string) {
    && o'.log == o.log + ws && o'.sent == o.sent + TakenBy(ws) && o'.direct == o.direct
    && o.buffered + s == OfferedBy(ws) + (o'.buffered + dropped)
    && Answered(|o.log|, k, ws)
    && (HasFailed(ws) ==> o'.buffered == "" && ret' == ws[|ws| - 1].r)
    && (!HasFailed(ws) ==> dropped == "" && ret' == ret + Total(ws))
  }

  /** Lines or full buffers, with the kernel's answers from the `n`-th write on, of which only the last may be a failure. */
  ghost predicate Answered(n: nat, k: Kernel, ws: seq<Wrote>) {
    && (forall i :: 0 <= i < |ws| ==> IsLine(ws[i].text) && ws[i].r == k(STDOUT, n + i, |ws[i].text|))
    && (forall i :: 0 <= i < |ws| - 1 ==> ws[i].r >= 0)
  }

  lemma AnsweredCons(n: nat, k: Kernel, w: Wrote, ws: seq<Wrote>)
    requires IsLine(w.text) && w.r == k(STDOUT, n, |w.text|) && w.r >= 0 && Answered(n + 1, k, ws)
    ensures Answered(n, k, [w] + ws) && (HasFailed([w] + ws) <==> HasFailed(ws))
  {
    var all := [w] + ws;
    forall i | 0 <= i < |all|
      ensures IsLine(all[i].text) && all[i].r == k(STDOUT, n + i, |all[i].text|) && (i < |all| - 1 ==> all[i].r >= 0)
    {
      assert i > 0 ==> all[i] == ws[i - 1] && n + i == n + 1 + (i - 1);
    }
  }

  lemma ExplainsNothing(o: Stream, k: Kernel, ret: int)
    ensures Explains(o, "", k, ret, o, ret, [], "")
  {
    assert o.log + [] == o.log && o.sent + "" == o.sent && o.buffered + "" == "" + (o.buffered + "");
  }

  /** One write at the front of the others. */
  lemma {:induction false} WritesCons(w: Wrote, ws: seq<Wrote>)
    ensures OfferedBy([w] + ws) == w.text + OfferedBy(ws)
    ensures TakenBy([w] + ws) == w.text[..Taken(|w.text|, w.r)] + TakenBy(ws)
    ensures Total([w] + ws) == w.r + Total(ws)
    decreases |ws|
  {
    if ws == [] {
      assert [w] + ws == [w] && [w][..0] == [];
    } else {
      var n := |ws| - 1;
      WritesCons(w, ws[..n]);
      assert ([w] + ws)[..|ws|] == [w] + ws[..n];
      Regroup(w.text, OfferedBy(ws[..n]), ws[n].text);
      Regroup(w.text[..Taken(|w.text|, w.r)], TakenBy(ws[..n]), ws[n].text[..Taken(|ws[n].text|, ws[n].r)]);
    }
  }

  lemma FirstWriteFails(o: Stream, s: string, k: Kernel, ret: int, m: Stream)
    requires s != "" && m == o.(buffered := o.buffered + [s[0]]) && IsLine(m.buffered) && Result(m, k) < 0
    ensures var z := Flush(m, k);
            Explains(o, s, k, ret, z.(lost := z.lost + |s| - 1), Result(m, k), [Wrote(m.buffered, Result(m, k))], s[1..])
  {
    var w := Wrote(m.buffered, Result(m, k));
    assert [w][..0] == [];
    assert o.buffered + s == m.buffered + s[1..];
    assert "" + s[1..] == s[1..];
  }

  lemma FirstWriteDone(o: Stream, s: string, k: Kernel, ret: int, m: Stream, z: Stream, r: int,
                       ws: seq<Wrote>, dropped: string)
    requires s != "" && m == o.(buffered := o.buffered + [s[0]]) && IsLine(m.buffered) && Result(m, k) >= 0
    requires Explains(Flush(m, k), s[1..], k, ret + Result(m, k), z, r, ws, dropped)
    ensures Explains(o, s, k, ret, z, r, [Wrote(m.buffered, Result(m, k))] + ws, dropped)
  {
    var w := Wrote(m.buffered, Result(m, k));
    WritesCons(w, ws);
    AnsweredCons(|o.log|, k, w, ws);
    Regroup(o.log, [w], ws);
    Regroup(o.sent, w.text[..Taken(|w.text|, w.r)], TakenBy(ws));
    TextMoves(o.buffered, s, w.text, OfferedBy(ws), z.buffered + dropped);
  }

  lemma LineEnds(had: string, c: char)
    requires |had| < LINE_WIDTH && '\n' !in had && (|had| + 1 == LINE_WIDTH || c == '\n')
    ensures IsLine(had + [c])
  {
    assert (had + [c])[..|had|] == had;
  }

  lemma NoWriteYet(o: Stream, s: string, k: Kernel, ret: int, m: Stream, z: Stream, r: int,
                   ws: seq<Wrote>, dropped: string)
    requires s != "" && m == o.(buffered := o.buffered + [s[0]])
    requires Explains(m, s[1..], k, ret, z, r, ws, dropped)
    ensures Explains(o, s, k, ret, z, r, ws, dropped)
  {
    assert s == [s[0]] + s[1..];
    Regroup(o.buffered, [s[0]], s[1..]);
  }

  lemma TextMoves(had: string, s: string, line: string, later: string, rest: string)
    requires s != "" && line == had + [s[0]] && "" + s[1..] == later + rest
    ensures had + s == line + later + rest
  {
    assert s == [s[0]] + s[1..];
    Regroup(had, [s[0]], s[1..]);
    assert "" + s[1..] == s[1..];
    Regroup(line, later, rest);
  }

  /** Every call of `out` on standard output is explained so: it writes at a newline or a full buffer, and only then. */
  lemma {:induction false} OutIsExplained(o: Stream, s: string, k: Kernel, ret: int)
    returns (ws: seq<Wrote>, dropped: string)
    requires Tidy(o)
    ensures Explains(o, s, k, ret, Emit(o, s, k, ret).0, Emit(o, s, k, ret).1, ws, dropped)
    ensures Tidy(Emit(o, s, k, ret).0)
    decreases |s|
  {
    if s == "" {
      ws, dropped := [], "";
      ExplainsNothing(o, k, ret);
    } else {
      var m := o.(buffered := o.buffered + [s[0]]);
      if |m.buffered| == LINE_WIDTH || s[0] == '\n' {
        LineEnds(o.buffered, s[0]);
        if Result(m, k) < 0 {
          ws, dropped := [Wrote(m.buffered, Result(m, k))], s[1..];
          FirstWriteFails(o, s, k, ret, m);
        } else {
          ws, dropped := OutIsExplained(Flush(m, k), s[1..], k, ret + Result(m, k));
          FirstWriteDone(o, s, k, ret, m, Emit(o, s, k, ret).0, Emit(o, s, k, ret).1, ws, dropped);
          ws := [Wrote(m.buffered, Result(m, k))] + ws;
        }
      } else {
        ws, dropped := OutIsExplained(m, s[1..], k, ret);
        NoWriteYet(o, s, k, ret, m, Emit(o, s, k, ret).0, Emit(o, s, k, ret).1, ws, dropped);
      }
    }
  }

  /** `fflush` offers all that is buffered in one write. */
  lemma SyncIsExplained(o: Stream, k: Kernel)
    ensures var z := Act(o, Sync, k);
            && z.buffered == "" && z.direct == o.direct
            && (o.buffered == "" ==> z == o)
            && (o.buffered != "" ==>
                  var r := k(STDOUT, |o.log|, |o.buffered|);
                  z.log == o.log + [Wrote(o.buffered, r)] && z.sent == o.sent + o.buffered[..Taken(|o.buffered|, r)])
  {
  }

  // ---- Any sequence of calls ----

  /** A call of `out` on a descriptor, or of `fflush`. */
  datatype Op = Put(fd: int, text: string) | Sync

  const START: Stream := Stream("", "", 0, [], [])

  function Act(o: Stream, op: Op, k: Kernel): Stream {
    match op
    case Put(fd, text) =>
      if fd == STDOUT then Emit(o, text, k, 0).0
      else o.(direct := o.direct + [Raw(fd, text, k(fd, |o.direct|, |text|))])
    case Sync => if o.buffered == "" then o else Flush(o, k)
  }

  ghost function Run(ops: seq<Op>, k: Kernel): Stream {
    if ops == [] then START else Act(Run(ops[..|ops| - 1], k), ops[|ops| - 1], k)
  }

  /** What the calls were given for descriptor `f`. */
  ghost function Texts(ops: seq<Op>, f: int): string {
    if ops == [] then "" else Texts(ops[..|ops| - 1], f) + TextOf(ops[|ops| - 1], f)
  }

  function TextOf(op: Op, f: int): string {
    if op.Put? && op.fd == f then op.text else ""
  }

  lemma TextsSnoc(ops: seq<Op>, op: Op, f: int)
    ensures Texts(ops + [op], f) == Texts(ops, f) + TextOf(op, f)
  {
    assert (ops + [op])[..|ops|] == ops;
  }

  lemma RunSnoc(ops: seq<Op>, op: Op, k: Kernel)
    ensures Run(ops + [op], k) == Act(Run(ops, k), op, k)
  {
    assert (ops + [op])[..|ops|] == ops;
  }

  lemma {:induction false} TextsConcat(ops: seq<Op>, more: seq<Op>, f: int)
    ensures Texts(ops + more, f) == Texts(ops, f) + Texts(more, f)
    decreases |more|
  {
    if more == [] {
      assert ops + more == ops;
    } else {
      var n := |more| - 1;
      calc {
        Texts(ops + more, f);
        { assert ops + more == ops + more[..n] + [more[n]]; TextsSnoc(ops + more[..n], more[n], f); }
        Texts(ops + more[..n], f) + TextOf(more[n], f);
        { TextsConcat(ops, more[..n], f); }
        Texts(ops, f) + Texts(more[..n], f) + TextOf(more[n], f);
        { Regroup(Texts(ops, f), Texts(more[..n], f), TextOf(more[n], f)); }
        Texts(ops, f) + Texts(more, f);
      }
    }
  }

  lemma ActAccounts(o: Stream, op: Op, k: Kernel)
    requires Tidy(o)
    ensures Accounts(o, TextOf(op, STDOUT), Act(o, op, k)) && Tidy(Act(o, op, k))
  {
    assert Given(o) + "" == Given(o);
    if op.Sync? {
      FlushAccounts(o, k);
    } else if op.fd == STDOUT {
      EmitAccounts(o, op.text, k, 0);
    }
  }

  lemma {:induction false} RunIsTidy(ops: seq<Op>, k: Kernel)
    ensures Tidy(Run(ops, k))
  {
    if ops != [] {
      RunIsTidy(ops[..|ops| - 1], k);
      ActAccounts(Run(ops[..|ops| - 1], k), ops[|ops| - 1], k);
    }
  }

  /** Later calls only add: the history is accounted for piece by piece. */
  lemma {:induction false} MoreCallsAccount(ops: seq<Op>, more: seq<Op>, k: Kernel)
    ensures Accounts(Run(ops, k), Texts(more, STDOUT), Run(ops + more, k))
    decreases |more|
  {
    if more == [] {
      assert ops + more == ops;
      assert Given(Run(ops, k)) + "" == Given(Run(ops, k));
    } else {
      var n := |more| - 1;
      var m := ops + more[..n];
      MoreCallsAccount(ops, more[..n], k);
      RunIsTidy(m, k);
      ActAccounts(Run(m, k), more[n], k);
      RunSnoc(m, more[n], k);
      assert ops + more == m + [more[n]];
      AccountsChain(Run(ops, k), Texts(more[..n], STDOUT), Run(m, k), TextOf(more[n], STDOUT), Run(ops + more, k));
    }
  }

  /**
   After any calls of `out` and `fflush`: what was sent and what is still buffered is, in order, all
   that was given, if and only if every write took all it was offered. The buffer is always tidy.
   */
  lemma NothingLostIff(ops: seq<Op>, k: Kernel)
    ensures Tidy(Run(ops, k)) && Accounts(START, Texts(ops, STDOUT), Run(ops, k))
    ensures Given(Run(ops, k)) == Texts(ops, STDOUT) <==> AllTaken(Run(ops, k).log)
  {
    RunIsTidy(ops, k);
    MoreCallsAccount([], ops, k);
    assert [] + ops == ops && Given(START) + Texts(ops, STDOUT) == Texts(ops, STDOUT);
    assert |Given(Run(ops, k))| == |Run(ops, k).sent| + |Run(ops, k).buffered|;
  }

  /** What the raw writes made descriptor `f` take. */
  ghost function Received(direct: seq<Raw>, f: int): string {
    if direct == [] then ""
    else
      var w := direct[|direct| - 1];
      Received(direct[..|direct| - 1], f) + if w.fd == f then w.text[..Taken(|w.text|, w.r)] else ""
  }

  /** Every raw write on `f` from the `n`-th on took all it was offered. */
  ghost predicate AllReceived(direct: seq<Raw>, n: nat, f: int) {
    forall i :: n <= i < |direct| && direct[i].fd == f ==> Taken(|direct[i].text|, direct[i].r) == |direct[i].text|
  }

  /** From `a` to `b` raw writes were added, and `f` received `s` if it took all it was offered. */
  ghost predicate Receives(a: seq<Raw>, b: seq<Raw>, s: string, f: int) {
    a <= b && (AllReceived(b, |a|, f) ==> Received(b, f) == Received(a, f) + s)
  }

  lemma RawChain(a: seq<Raw>, b: seq<Raw>, c: seq<Raw>, s: string, t: string, f: int)
    requires Receives(a, b, s, f) && Receives(b, c, t, f)
    ensures Receives(a, c, s + t, f)
  {
    if AllReceived(c, |a|, f) {
      forall i | |a| <= i < |b| && b[i].fd == f
        ensures Taken(|b[i].text|, b[i].r) == |b[i].text|
      {
        assert c[i] == b[i];
      }
      Regroup(Received(a, f), s, t);
    }
  }

  /**
   For a descriptor other than standard output: raw writes are only added, and what it takes grows by
   all it was given if the new writes on it all took what they were offered.
   */
  lemma {:induction false} RawCalls(ops: seq<Op>, more: seq<Op>, k: Kernel, f: int)
    requires f != STDOUT
    ensures Receives(Run(ops, k).direct, Run(ops + more, k).direct, Texts(more, f), f)
    decreases |more|
  {
    if more == [] {
      assert ops + more == ops;
    } else {
      var n := |more| - 1;
      var m := ops + more[..n];
      RawCalls(ops, more[..n], k, f);
      RunSnoc(m, more[n], k);
      assert ops + more == m + [more[n]];
      ActRaw(Run(m, k), more[n], k, f);
      RawChain(Run(ops, k).direct, Run(m, k).direct, Run(ops + more, k).direct, Texts(more[..n], f), TextOf(more[n], f), f);
    }
  }

  lemma ActRaw(o: Stream, op: Op, k: Kernel, f: int)
    requires f != STDOUT
    ensures var z := Act(o, op, k);
            Receives(o.direct, z.direct, TextOf(op, f), f)
  {
    if op.Put? {
      if op.fd == STDOUT {
        EmitLeavesRaw(o, op.text, k, 0);
      } else {
        var z := Act(o, op, k);
        var w := z.direct[|o.direct|];
        assert z.direct[..|o.direct|] == o.direct;
        assert w.text[..|w.text|] == w.text;
      }
    }
  }

  lemma {:induction false} EmitLeavesRaw(o: Stream, s: string, k: Kernel, ret: int)
    ensures Emit(o, s, k, ret).0.direct == o.direct
    decreases |s|
  {
    if s != "" {
      var o1 := o.(buffered := o.buffered + [s[0]]);
      EmitLeavesRaw(Flush(o1, k), s[1..], k, ret + Result(o1, k));
      EmitLeavesRaw(o1, s[1..], k, ret);
    }
  }

  // ---- The library as the code has it ----

  class Stdio {
    const buffer: array<char>
    const kernel: Kernel
    var bufferLen: nat
    var sent: string
    var log: seq<Wrote>
    var direct: seq<Raw>
    ghost var lost: nat
    ghost var ops: seq<Op>                 // the calls made so far

    /** The buffer, what was sent and the raw writes are what the calls so far make of them. */
    ghost predicate Valid()
      reads this, buffer
    {
      buffer.Length == LINE_WIDTH && bufferLen < LINE_WIDTH && Value() == Run(ops, kernel)
    }

    ghost function Value(): Stream
      requires bufferLen <= buffer.Length
      reads this, buffer
    {
      Stream(buffer[..bufferLen], sent, lost, log, direct)
    }

    constructor (k: Kernel)
      ensures Valid() && ops == [] && kernel == k && fresh(buffer)
    {
      buffer := new char[LINE_WIDTH](_ => '\0');
      kernel := k;
      bufferLen, sent, log, direct, lost, ops := 0, "", [], [], 0, [];
    }

    method WriteBuffer() returns (r: int)
      requires bufferLen <= buffer.Length
      modifies this`sent, this`log, this`lost
      ensures bufferLen == 0 ==> r == 0 && Value() == old(Value())
      ensures bufferLen > 0 ==> r == Result(old(Value()), kernel)
      ensures bufferLen > 0 ==> Value() == Flush(old(Value()), kernel).(buffered := old(Value().buffered))
    {
      if bufferLen == 0 {
        return 0;
      }
      r := kernel(STDOUT, |log|, bufferLen);
      ghost var n := Taken(bufferLen, r);
      sent := sent + buffer[..Taken(bufferLen, r)];
      log := log + [Wrote(buffer[..bufferLen], r)];
      lost := lost + bufferLen - n;
      assert buffer[..bufferLen][..n] == buffer[..n];
    }

    /** `out`: one more call, and the state is what it makes of it. */
    method Out(f: int, s: string) returns (ret: int)
      requires Valid()
      modifies this`bufferLen, this`sent, this`log, this`direct, this`lost, this`ops, buffer
      ensures Valid() && ops == old(ops) + [Put(f, s)]
      ensures Value() == Act(old(Value()), Put(f, s), kernel)
      ensures ret == if f == STDOUT then Emit(old(Value()), s, kernel, 0).1 else kernel(f, |old(direct)|, |s|)
    {
      RunSnoc(ops, Put(f, s), kernel);
      if f != STDOUT {
        ret := kernel(f, |direct|, |s|);
        direct := direct + [Raw(f, s, ret)];
      } else {
        ret := PutAll(s);
      }
      ops := ops + [Put(f, s)];
    }

    method StoreByte(c: char)
      requires bufferLen < buffer.Length
      modifies this`bufferLen, buffer
      ensures bufferLen == old(bufferLen) + 1
      ensures Value() == old(Value()).(buffered := old(Value().buffered) + [c])
    {
      ghost var had := buffer[..bufferLen];
      buffer[bufferLen] := c;
      bufferLen := bufferLen + 1;
      assert buffer[..bufferLen] == had + [c];
    }

    /** The loop of `out` over the bytes for standard output. */
    method PutAll(s: string) returns (ret: int)
      requires buffer.Length == LINE_WIDTH && bufferLen < LINE_WIDTH
      modifies this`bufferLen, this`sent, this`log, this`lost, buffer
      ensures bufferLen < LINE_WIDTH && (Value(), ret) == Emit(old(Value()), s, kernel, 0)
    {
      ret := 0;
      ghost var goal := Emit(Value(), s, kernel, 0);
      for i := 0 to |s|
        invariant bufferLen < LINE_WIDTH
        invariant goal == Emit(Value(), s[i..], kernel, ret)
      {
        var c := s[i];
        assert s[i..][1..] == s[i + 1..];
        StoreByte(c);
        if bufferLen == LINE_WIDTH || c == '\n' {
          var r := WriteBuffer();
          bufferLen := 0;
          if r < 0 {
            lost := lost + (|s| - i - 1);
            return r;
          }
          if r < bufferLen {
            return ret + r;
          }
          ret := ret + r;
        }
      }
    }

    method Fflush() returns (r: int)
      requires Valid()
      modifies this`bufferLen, this`sent, this`log, this`lost, this`ops
      ensures Valid() && ops == old(ops) + [Sync]
      ensures Value() == Act(old(Value()), Sync, kernel) && Value().buffered == ""
      ensures r == if old(bufferLen) == 0 || Result(old(Value()), kernel) >= 0 then 0 else Result(old(Value()), kernel)
    {
      RunSnoc(ops, Sync, kernel);
      r := WriteBuffer();
      bufferLen := 0;
      r := if r >= 0 then 0 else r;
      ops := ops + [Sync];
    }
  }
}
