/**
 `fprintf` of the mini libc. `Parse` and `Render` say, item by item, what a format and its arguments
 produce; the method scans the format in runs, as the code does, and is proved against it. Converted
 numbers and unknown conversions always go to standard output, literal text and strings to the file.
 */
module Format {
  import opened Basics
  import opened IntText
  import opened Stdio

  datatype Arg =
    | IntArg(i: int32)
    | LongArg(l: int64)
    | PtrArg(p: uint64)
    | StrArg(s: Option<string>)          // None is a null pointer

  // ---- memchr and strnlen ----

  /** Position of the first `c` in memory, among the first `n` characters; what follows it is not read. */
  method Memchr(mem: string, c: char, n: nat) returns (at: Option<nat>)
    requires n <= |mem| || c in mem
    ensures at.Some? ==> at.value < n && at.value < |mem| && mem[at.value] == c
    ensures at.Some? ==> forall i :: 0 <= i < at.value ==> mem[i] != c
    ensures at.None? ==> n <= |mem| && forall i :: 0 <= i < n ==> mem[i] != c
  {
    var i := 0;
    while i < n && mem[i] != c
      invariant 0 <= i <= n && i <= |mem| && forall j :: 0 <= j < i ==> mem[j] != c
      invariant n <= |mem| || c in mem[i..]
    {
      i := i + 1;
    }
    at := if i < n then Some(i) else None;
  }

  /** A string with its terminator; nothing beyond is ever looked at. */
  function CharAt(s: string, i: nat): char {
    if i < |s| then s[i] else '\0'
  }

  method Strnlen(s: string, n: nat) returns (len: nat)
    requires '\0' !in s
    ensures len == Min(|s|, n)
  {
    var mem := s + ['\0'];
    assert mem[|s|] == '\0' && forall i :: 0 <= i < |s| ==> mem[i] == s[i] && s[i] in s;
    var at := Memchr(mem, '\0', n);
    len := if at.Some? then at.value else n;
  }

  // ---- What a format means ----

  const STRING_CUT: nat := 200

  function Shown(s: Option<string>): string {
    var t := if s.Some? then s.value else "(null)";
    t[..Min(|t|, STRING_CUT)]
  }

  datatype Item =
    | Done                                     // end of the format, or a lone % at its end
    | Lit(c: char)                             // goes to the file
    | Conv(kind: char, long: bool)             // goes to standard output, takes an argument
    | Str                                      // goes to the file, takes an argument
    | Unknown(text: string)                    // goes to standard output, takes none

  /** The item of a format at a position and the position after it. */
  function Next(fmt: string, pos: nat): (r: (Item, nat))
    requires pos <= |fmt|
    ensures pos <= r.1 <= |fmt| && (r.0.Done? || r.1 > pos)
  {
    if pos == |fmt| then (Done, pos)
    else if fmt[pos] != '%' then (Lit(fmt[pos]), pos + 1)
    else if pos + 1 == |fmt| then (Done, pos)
    else if fmt[pos + 1] == '%' then (Lit('%'), pos + 2)
    else if fmt[pos + 1] in "udxp" then (Conv(fmt[pos + 1], false), pos + 2)
    else if fmt[pos + 1] == 's' then (Str, pos + 2)
    else if fmt[pos + 1] != 'l' then (Unknown("%" + [fmt[pos + 1]]), pos + 2)
    else if pos + 2 == |fmt| then (Unknown("%l"), pos + 2)
    else if fmt[pos + 2] in "udx" then (Conv(fmt[pos + 2], true), pos + 3)
    else (Unknown("%l" + [fmt[pos + 2]]), pos + 3)
  }

  /** Whether an argument is of the type the conversion takes. */
  predicate Suits(it: Item, a: Arg) {
    match it
    case Conv(kind, long) => if kind == 'p' then a.PtrArg? else if long then a.LongArg? else a.IntArg?
    case Str => a.StrArg? && (a.s.Some? ==> '\0' !in a.s.value)
    case _ => true
  }

  predicate Takes(it: Item) { it.Conv? || it.Str? }

  /** The items of a format from a position on. */
  function Parse(fmt: string, pos: nat): seq<Item>
    requires pos <= |fmt|
    decreases |fmt| - pos
  {
    var r := Next(fmt, pos);
    if r.0.Done? then [] else [r.0] + Parse(fmt, r.1)
  }

  /** The arguments from `used` on are those the items ask for; more may follow. */
  predicate Matches(items: seq<Item>, args: seq<Arg>, used: nat) {
    items == [] || (Served(items[0], args, used) && Matches(items[1..], args, After(items[0], used)))
  }

  function After(it: Item, used: nat): nat { if Takes(it) then used + 1 else used }

  /** `it` is an item of a format, with its argument at `used` if it takes one. */
  predicate Served(it: Item, args: seq<Arg>, used: nat) {
    && (Takes(it) ==> used < |args| && Suits(it, args[used]))
    && (it.Conv? ==> it.kind in "udxp" && (it.long ==> it.kind != 'p'))
  }

  function ConvText(kind: char, a: Arg): string
    requires Suits(Conv(kind, a.LongArg?), a) && kind in "udxp"
  {
    match a
    case PtrArg(p) => "0x" + HexDigits(p, 16)
    case IntArg(i) => IntDigits(i, if kind == 'x' then 16 else 10, kind != 'u')
    case LongArg(l) => IntDigits(l, if kind == 'x' then 16 else 10, kind != 'u')
    case StrArg(_) => ""
  }

  /** Which of the two outputs an item goes to is selected: to the file, to standard output, or both. */
  datatype Select = Select(file: bool, stdout: bool)

  function Piece(it: Item, args: seq<Arg>, used: nat, sel: Select): string
    requires Served(it, args, used)
  {
    match it
    case Done => ""
    case Lit(c) => if sel.file then [c] else ""
    case Str => if sel.file then Shown(args[used].s) else ""
    case Unknown(text) => if sel.stdout then text else ""
    case Conv(kind, _) => if sel.stdout then ConvText(kind, args[used]) else ""
  }

  /** The output of a list of items, restricted to the selected destinations. */
  function Render(items: seq<Item>, args: seq<Arg>, used: nat, sel: Select): string
    requires Matches(items, args, used)
  {
    if items == [] then ""
    else Piece(items[0], args, used, sel) + Render(items[1..], args, After(items[0], used), sel)
  }

  // ---- Runs of the scanner ----

  function Lits(cs: string): seq<Item> {
    seq(|cs|, i requires 0 <= i < |cs| => Lit(cs[i]))
  }

  lemma RenderCons(it: Item, rest: seq<Item>, args: seq<Arg>, used: nat, sel: Select)
    requires Matches([it] + rest, args, used)
    ensures Served(it, args, used) && Matches(rest, args, After(it, used))
    ensures Render([it] + rest, args, used, sel) == Piece(it, args, used, sel) + Render(rest, args, After(it, used), sel)
  {
    assert ([it] + rest)[1..] == rest;
  }

  lemma LitsCons(cs: string, rest: seq<Item>)
    requires cs != ""
    ensures Lits(cs) + rest == [Lit(cs[0])] + (Lits(cs[1..]) + rest)
  {
  }

  lemma {:induction false} RenderLits(cs: string, rest: seq<Item>, args: seq<Arg>, used: nat, sel: Select)
    requires Matches(Lits(cs) + rest, args, used)
    ensures Matches(rest, args, used)
    ensures Render(Lits(cs) + rest, args, used, sel) == (if sel.file then cs else "") + Render(rest, args, used, sel)
  {
    if cs == "" {
      assert Lits(cs) + rest == rest;
    } else {
      LitsCons(cs, rest);
      var tail := Lits(cs[1..]) + rest;
      RenderCons(Lit(cs[0]), tail, args, used, sel);
      RenderLits(cs[1..], rest, args, used, sel);
      PrependChar(cs, Render(rest, args, used, sel));
    }
  }

  lemma PrependChar(cs: string, t: string)
    requires cs != ""
    ensures [cs[0]] + (cs[1..] + t) == cs + t
    ensures "" + ("" + t) == "" + t
  {
  }

  /** A run without % is literal as it stands. */
  lemma {:induction false} ParseLiterals(fmt: string, pos: nat, end: nat)
    requires pos <= end <= |fmt| && forall i :: pos <= i < end ==> fmt[i] != '%'
    ensures Parse(fmt, pos) == Lits(fmt[pos..end]) + Parse(fmt, end)
    decreases end - pos
  {
    if pos < end {
      ParseLiterals(fmt, pos + 1, end);
      assert Lits(fmt[pos..end]) == [Lit(fmt[pos])] + Lits(fmt[pos + 1..end]);
    } else {
      assert Lits(fmt[pos..end]) == [];
    }
  }

  /** A run of k doubled % stands for k of them. */
  lemma {:induction false} ParsePercents(fmt: string, pos: nat, k: nat)
    requires pos + 2 * k <= |fmt| && forall i :: pos <= i < pos + 2 * k ==> fmt[i] == '%'
    ensures Parse(fmt, pos) == Lits(fmt[pos..pos + k]) + Parse(fmt, pos + 2 * k)
    decreases k
  {
    if k > 0 {
      ParsePercents(fmt, pos + 2, k - 1);
      assert Lits(fmt[pos..pos + k]) == [Lit('%')] + Lits(fmt[pos + 2..pos + 2 + (k - 1)]);
    } else {
      assert Lits(fmt[pos..pos]) == [];
    }
  }

  // ---- Calls of `out` and the text they stand for ----

  /** What a call on `f` adds to standard output, and what it adds to the file `f` itself. */
  function ToStdout(f: int): Select { Select(f == STDOUT, true) }
  function ToFile(f: int): Select { Select(f != STDOUT, false) }

  /** The calls made for a conversion: an unknown one is printed character by character. */
  function Calls(it: Item, args: seq<Arg>, used: nat, f: int): seq<Op>
    requires Served(it, args, used)
  {
    match it
    case Conv(kind, _) => [Put(STDOUT, ConvText(kind, args[used]))]
    case Str => [Put(f, Shown(args[used].s))]
    case Unknown(text) => Chars(text)
    case _ => []
  }

  function Chars(text: string): seq<Op> {
    seq(|text|, i requires 0 <= i < |text| => Put(STDOUT, [text[i]]))
  }

  lemma {:induction false} CharsText(text: string, g: int)
    ensures Texts(Chars(text), g) == if g == STDOUT then text else ""
  {
    if text != "" {
      var n := |text| - 1;
      CharsText(text[..n], g);
      assert Chars(text) == Chars(text[..n]) + [Put(STDOUT, [text[n]])];
      TextsSnoc(Chars(text[..n]), Put(STDOUT, [text[n]]), g);
    }
  }

  lemma OneCall(op: Op, g: int)
    ensures Texts([op], g) == TextOf(op, g)
  {
    TextsSnoc([], op, g);
    assert [] + [op] == [op];
  }

  /** Calls on standard output and on `f` only, none of them a flush. */
  ghost predicate PutsOnly(calls: seq<Op>, f: int) {
    forall op :: op in calls ==> op.Put? && (op.fd == STDOUT || op.fd == f)
  }

  /** The calls print the difference between `items` and `rest`, each part at its destination. */
  ghost predicate Prints(calls: seq<Op>, f: int, args: seq<Arg>, items: seq<Item>, used: nat, rest: seq<Item>, left: nat) {
    && Matches(items, args, used) && Matches(rest, args, left) && PutsOnly(calls, f)
    && Render(items, args, used, ToStdout(f)) == Texts(calls, STDOUT) + Render(rest, args, left, ToStdout(f))
    && (f != STDOUT ==>
          Render(items, args, used, ToFile(f)) == Texts(calls, f) + Render(rest, args, left, ToFile(f)))
  }

  lemma PrintsNothing(f: int, args: seq<Arg>, items: seq<Item>, used: nat)
    requires Matches(items, args, used)
    ensures Prints([], f, args, items, used, items, used)
  {
  }

  lemma PrintsAll(calls: seq<Op>, f: int, args: seq<Arg>, items: seq<Item>, left: nat)
    requires Prints(calls, f, args, items, 0, [], left)
    ensures PutsOnly(calls, f) && Texts(calls, STDOUT) == Render(items, args, 0, ToStdout(f))
    ensures f != STDOUT ==> Texts(calls, f) == Render(items, args, 0, ToFile(f))
  {
    assert Texts(calls, STDOUT) + "" == Texts(calls, STDOUT) && Texts(calls, f) + "" == Texts(calls, f);
  }

  lemma PrintsChain(c: seq<Op>, d: seq<Op>, f: int, args: seq<Arg>, items: seq<Item>, used: nat,
                    mid: seq<Item>, u: nat, rest: seq<Item>, left: nat)
    requires Prints(c, f, args, items, used, mid, u) && Prints(d, f, args, mid, u, rest, left)
    ensures Prints(c + d, f, args, items, used, rest, left)
  {
    TextsConcat(c, d, STDOUT);
    TextsConcat(c, d, f);
    Regroup(Texts(c, STDOUT), Texts(d, STDOUT), Render(rest, args, left, ToStdout(f)));
    Regroup(Texts(c, f), Texts(d, f), Render(rest, args, left, ToFile(f)));
  }

  lemma RunPrints(cs: string, f: int, args: seq<Arg>, rest: seq<Item>, used: nat)
    requires Matches(Lits(cs) + rest, args, used)
    ensures Prints([Put(f, cs)], f, args, Lits(cs) + rest, used, rest, used)
  {
    RenderLits(cs, rest, args, used, ToStdout(f));
    RenderLits(cs, rest, args, used, ToFile(f));
    OneCall(Put(f, cs), STDOUT);
    OneCall(Put(f, cs), f);
  }

  lemma ItemPrints(it: Item, f: int, args: seq<Arg>, rest: seq<Item>, used: nat)
    requires Matches([it] + rest, args, used) && !it.Lit?
    ensures Served(it, args, used)
    ensures Prints(Calls(it, args, used, f), f, args, [it] + rest, used, rest, After(it, used))
  {
    RenderCons(it, rest, args, used, ToStdout(f));
    RenderCons(it, rest, args, used, ToFile(f));
    CallsText(it, args, used, f);
  }

  lemma CallsText(it: Item, args: seq<Arg>, used: nat, f: int)
    requires Served(it, args, used) && !it.Lit?
    ensures PutsOnly(Calls(it, args, used, f), f)
    ensures Texts(Calls(it, args, used, f), STDOUT) == Piece(it, args, used, ToStdout(f))
    ensures f != STDOUT ==> Texts(Calls(it, args, used, f), f) == Piece(it, args, used, ToFile(f))
  {
    match it
    case Conv(kind, _) =>
      OneCall(Put(STDOUT, ConvText(kind, args[used])), STDOUT);
      OneCall(Put(STDOUT, ConvText(kind, args[used])), f);
    case Str =>
      OneCall(Put(f, Shown(args[used].s)), STDOUT);
      OneCall(Put(f, Shown(args[used].s)), f);
    case Unknown(text) =>
      CharsText(text, STDOUT);
      CharsText(text, f);
    case Done =>
  }

  /** Literals and doubled % up to `next` parse to the `len` characters that are output for them. */
  lemma ParseRun(fmt: string, pos: nat, lit: nat, next: nat, len: nat)
    requires pos <= lit <= next <= |fmt|
    requires lit - pos <= len && next - lit == 2 * (len - (lit - pos))
    requires forall i :: pos <= i < lit ==> fmt[i] != '%'
    requires forall i :: lit <= i < next ==> fmt[i] == '%'
    ensures Parse(fmt, pos) == Lits(fmt[pos..pos + len]) + Parse(fmt, next)
  {
    var k := len - (lit - pos);
    ParseLiterals(fmt, pos, lit);
    ParsePercents(fmt, lit, k);
    assert Lits(fmt[pos..lit]) + Lits(fmt[lit..lit + k]) == Lits(fmt[pos..pos + len]);
  }

  // ---- The function as the code has it ----

  /** Finds the literal run at `pos`, doubled % included, and prints it in one call; its end is returned. */
  method EmitRun(io: Stdio, f: int, fmt: string, pos: nat) returns (next: nat, len: nat, ghost lit: nat)
    requires io.Valid() && pos < |fmt|
    modifies io`bufferLen, io`sent, io`log, io`direct, io`lost, io`ops, io.buffer
    ensures io.Valid()
    ensures pos <= lit <= next <= |fmt| && (forall i :: pos <= i < lit ==> fmt[i] != '%') && (lit < |fmt| ==> fmt[lit] == '%')
    ensures next - lit == 2 * (len - (lit - pos)) && forall i :: lit <= i < next ==> fmt[i] == '%'
    ensures !(next + 1 < |fmt| && fmt[next] == '%' && fmt[next + 1] == '%')
    ensures len <= next - pos && io.ops == old(io.ops) + [Put(f, fmt[pos..pos + len])]
  {
    var z: nat;
    next, z, lit := FindRun(fmt, pos);
    len := z - pos;
    var _ := io.Out(f, fmt[pos..z]);
  }

  /** The two scanning loops. */
  method FindRun(fmt: string, pos: nat) returns (s: nat, z: nat, lit: nat)
    requires pos < |fmt|
    ensures pos <= lit <= s <= |fmt| && (forall i :: pos <= i < lit ==> fmt[i] != '%') && (lit < |fmt| ==> fmt[lit] == '%')
    ensures lit <= z <= s && s - lit == 2 * (z - lit) && forall i :: lit <= i < s ==> fmt[i] == '%'
    ensures !(s + 1 < |fmt| && fmt[s] == '%' && fmt[s + 1] == '%')
  {
    s := pos;
    while s < |fmt| && fmt[s] != '%'
      invariant pos <= s <= |fmt| && forall i :: pos <= i < s ==> fmt[i] != '%'
    {
      s := s + 1;
    }
    lit := s;
    z := s;
    while s + 1 < |fmt| && fmt[s] == '%' && fmt[s + 1] == '%'
      invariant lit <= z <= s <= |fmt| && s - lit == 2 * (z - lit)
      invariant forall i :: lit <= i < s ==> fmt[i] == '%'
    {
      z, s := z + 1, s + 2;
    }
  }

  method PrintNumber(io: Stdio, value: int64, base: nat, sign: bool)
    requires io.Valid() && IsBase(base)
    modifies io`bufferLen, io`sent, io`log, io`direct, io`lost, io`ops, io.buffer
    ensures io.Valid() && io.ops == old(io.ops) + [Put(STDOUT, IntDigits(value, base, sign))]
  {
    var text := PrintInt(value, base, sign);
    var _ := io.Out(STDOUT, text);
  }

  method PutChar(io: Stdio, c: char)
    requires io.Valid()
    modifies io`bufferLen, io`sent, io`log, io`direct, io`lost, io`ops, io.buffer
    ensures io.Valid() && io.ops == old(io.ops) + [Put(STDOUT, [c])]
  {
    var _ := io.Out(STDOUT, [c]);
  }

  /** Prints `%l` and what follows it, unless that is the terminator. */
  method PutUnknownLong(io: Stdio, c: char)
    requires io.Valid()
    modifies io`bufferLen, io`sent, io`log, io`direct, io`lost, io`ops, io.buffer
    ensures io.Valid() && io.ops == old(io.ops) + Chars("%l" + if c != '\0' then [c] else "")
  {
    PutChar(io, '%');
    PutChar(io, 'l');
    if c != '\0' {
      PutChar(io, c);
    }
  }

  /** Prints % and the character after it. */
  method PutUnknown(io: Stdio, c: char)
    requires io.Valid()
    modifies io`bufferLen, io`sent, io`log, io`direct, io`lost, io`ops, io.buffer
    ensures io.Valid() && io.ops == old(io.ops) + Chars("%" + [c])
  {
    PutChar(io, '%');
    PutChar(io, c);
    assert Chars("%" + [c]) == [Put(STDOUT, "%")] + [Put(STDOUT, [c])];
  }

  /** Prints a string argument to the file, cut at its limit. */
  method PutString(io: Stdio, f: int, s: Option<string>)
    requires io.Valid() && (s.Some? ==> '\0' !in s.value)
    modifies io`bufferLen, io`sent, io`log, io`direct, io`lost, io`ops, io.buffer
    ensures io.Valid() && io.ops == old(io.ops) + [Put(f, Shown(s))]
  {
    var a := if s.Some? then s.value else "(null)";
    var l := Strnlen(a, STRING_CUT);
    var _ := io.Out(f, a[..l]);
  }

  /** A conversion at `pos` that starts with `%l`; the terminator after it is not skipped. */
  method ConvertLong(io: Stdio, fmt: string, pos: nat, args: seq<Arg>, used: nat, ghost f: int)
    returns (next: nat, ap: nat)
    requires io.Valid() && pos + 1 < |fmt| && '\0' !in fmt && fmt[pos] == '%' && fmt[pos + 1] == 'l'
    requires Served(Next(fmt, pos).0, args, used)
    modifies io`bufferLen, io`sent, io`log, io`direct, io`lost, io`ops, io.buffer
    ensures io.Valid() && io.ops == old(io.ops) + Calls(Next(fmt, pos).0, args, used, f)
    ensures next == Next(fmt, pos).1 && ap == After(Next(fmt, pos).0, used)
  {
    assert pos + 2 < |fmt| ==> fmt[pos + 2] in fmt;
    var s: int := pos;
    ap := used + 1;
    var c := CharAt(fmt, pos + 2);
    if c == 'u' {
      PrintNumber(io, args[used].l, 10, false);
    } else if c == 'd' {
      PrintNumber(io, args[used].l, 10, true);
    } else if c == 'x' {
      PrintNumber(io, args[used].l, 16, true);
    } else {
      ap := used;
      PutUnknownLong(io, c);
      if c == '\0' {
        s := s - 1;
      }
    }
    s := s + 1;
    next := s + 2;
  }

  /** The conversion at `pos`: anything after % but another % or the terminator. */
  method Convert(io: Stdio, f: int, fmt: string, pos: nat, args: seq<Arg>, used: nat)
    returns (next: nat, ap: nat)
    requires io.Valid() && pos + 1 < |fmt| && '\0' !in fmt && fmt[pos] == '%' && fmt[pos + 1] != '%'
    requires Served(Next(fmt, pos).0, args, used)
    modifies io`bufferLen, io`sent, io`log, io`direct, io`lost, io`ops, io.buffer
    ensures io.Valid() && io.ops == old(io.ops) + Calls(Next(fmt, pos).0, args, used, f)
    ensures next == Next(fmt, pos).1 && ap == After(Next(fmt, pos).0, used)
  {
    var c := fmt[pos + 1];
    next, ap := pos + 2, used + 1;
    if c == 'u' {
      PrintNumber(io, args[used].i, 10, false);
    } else if c == 'd' {
      PrintNumber(io, args[used].i, 10, true);
    } else if c == 'x' {
      PrintNumber(io, args[used].i, 16, true);
    } else if c == 'p' {
      var text := PrintPtr(args[used].p);
      var _ := io.Out(STDOUT, text);
    } else if c == 's' {
      PutString(io, f, args[used].s);
    } else if c == 'l' {
      next, ap := ConvertLong(io, fmt, pos, args, used, f);
    } else {
      ap := used;
      PutUnknown(io, c);
    }
  }

  lemma RunStep(fmt: string, pos: nat, lit: nat, next: nat, len: nat, f: int, args: seq<Arg>, used: nat)
    requires pos <= lit <= next <= |fmt|
    requires lit - pos <= len && next - lit == 2 * (len - (lit - pos))
    requires forall i :: pos <= i < lit ==> fmt[i] != '%'
    requires forall i :: lit <= i < next ==> fmt[i] == '%'
    requires Matches(Parse(fmt, pos), args, used)
    ensures Prints([Put(f, fmt[pos..pos + len])], f, args, Parse(fmt, pos), used, Parse(fmt, next), used)
  {
    ParseRun(fmt, pos, lit, next, len);
    RunPrints(fmt[pos..pos + len], f, args, Parse(fmt, next), used);
  }

  /** The conversion at `pos`, with its argument at `used`. */
  ghost function ItemAt(fmt: string, pos: nat, args: seq<Arg>, used: nat): (it: Item)
    requires pos + 1 < |fmt| && fmt[pos] == '%' && fmt[pos + 1] != '%' && Matches(Parse(fmt, pos), args, used)
    ensures it == Next(fmt, pos).0 && Served(it, args, used)
  {
    assert Parse(fmt, pos) == [Next(fmt, pos).0] + Parse(fmt, Next(fmt, pos).1);
    Next(fmt, pos).0
  }

  lemma ItemStep(fmt: string, pos: nat, f: int, args: seq<Arg>, used: nat, calls: seq<Op>)
    requires pos + 1 < |fmt| && fmt[pos] == '%' && fmt[pos + 1] != '%'
    requires Prints(calls, f, args, Parse(fmt, pos), used, Parse(fmt, pos), used)
    ensures var it := ItemAt(fmt, pos, args, used);
            Prints(calls + Calls(it, args, used, f), f, args, Parse(fmt, pos), used,
                   Parse(fmt, Next(fmt, pos).1), After(it, used))
  {
    var (it, end) := Next(fmt, pos);
    assert Parse(fmt, pos) == [it] + Parse(fmt, end);
    ItemPrints(it, f, args, Parse(fmt, end), used);
    PrintsChain(calls, Calls(it, args, used, f), f, args, Parse(fmt, pos), used,
                Parse(fmt, pos), used, Parse(fmt, end), After(it, used));
  }

  /** One round of the main loop: a literal run if there is one, otherwise the item at `pos`. */
  method Round(io: Stdio, f: int, fmt: string, args: seq<Arg>, pos: nat, used: nat)
    returns (pos': nat, used': nat, done: bool, ghost calls: seq<Op>)
    requires io.Valid() && pos < |fmt| && '\0' !in fmt && Matches(Parse(fmt, pos), args, used)
    modifies io`bufferLen, io`sent, io`log, io`direct, io`lost, io`ops, io.buffer
    ensures io.Valid() && pos' <= |fmt| && io.ops == old(io.ops) + calls
    ensures !done ==> pos < pos'
    ensures done ==> Parse(fmt, pos') == []
    ensures Prints(calls, f, args, Parse(fmt, pos), used, Parse(fmt, pos'), used')
  {
    var next, len, lit := EmitRun(io, f, fmt, pos);
    ghost var cs := fmt[pos..pos + len];
    calls := [Put(f, cs)];
    RunStep(fmt, pos, lit, next, len, f, args, used);
    pos', used', done := next, used, false;
    if len > 0 {
      return;
    }
    assert next == pos && fmt[pos] == '%';
    if pos + 1 == |fmt| {
      done := true;
      assert Next(fmt, pos).0.Done?;
      return;
    }
    ghost var more;
    pos', used', more := ConvertAt(io, f, fmt, args, pos, used, calls);
    Regroup(old(io.ops), calls, more);
    calls := calls + more;
  }

  /** The part of a round after an empty literal run: `calls` are those made for it. */
  method ConvertAt(io: Stdio, f: int, fmt: string, args: seq<Arg>, pos: nat, used: nat, ghost calls: seq<Op>)
    returns (pos': nat, used': nat, ghost more: seq<Op>)
    requires io.Valid() && pos + 1 < |fmt| && '\0' !in fmt && fmt[pos] == '%' && fmt[pos + 1] != '%'
    requires Prints(calls, f, args, Parse(fmt, pos), used, Parse(fmt, pos), used)
    modifies io`bufferLen, io`sent, io`log, io`direct, io`lost, io`ops, io.buffer
    ensures io.Valid() && pos < pos' <= |fmt| && io.ops == old(io.ops) + more
    ensures Prints(calls + more, f, args, Parse(fmt, pos), used, Parse(fmt, pos'), used')
  {
    more := Calls(ItemAt(fmt, pos, args, used), args, used, f);
    ItemStep(fmt, pos, f, args, used, calls);
    pos', used' := Convert(io, f, fmt, pos, args, used);
  }

  /** The main loop. */
  method Scan(io: Stdio, f: int, fmt: string, args: seq<Arg>) returns (ghost calls: seq<Op>)
    requires io.Valid() && '\0' !in fmt && Matches(Parse(fmt, 0), args, 0)
    modifies io`bufferLen, io`sent, io`log, io`direct, io`lost, io`ops, io.buffer
    ensures io.Valid() && io.ops == old(io.ops) + calls && PutsOnly(calls, f)
    ensures Texts(calls, STDOUT) == Render(Parse(fmt, 0), args, 0, ToStdout(f))
    ensures f != STDOUT ==> Texts(calls, f) == Render(Parse(fmt, 0), args, 0, ToFile(f))
  {
    var pos: nat, used: nat, done := 0, 0, false;
    ghost var ops0 := io.ops;
    calls := [];
    PrintsNothing(f, args, Parse(fmt, 0), 0);
    while pos < |fmt| && !done
      invariant io.Valid() && pos <= |fmt| && io.ops == ops0 + calls
      invariant Prints(calls, f, args, Parse(fmt, 0), 0, Parse(fmt, pos), used)
      invariant done ==> Parse(fmt, pos) == []
      decreases !done, |fmt| - pos
    {
      ghost var p, u := pos, used;
      ghost var more;
      pos, used, done, more := Round(io, f, fmt, args, pos, used);
      PrintsChain(calls, more, f, args, Parse(fmt, 0), 0, Parse(fmt, p), u, Parse(fmt, pos), used);
      Regroup(ops0, calls, more);
      calls := calls + more;
    }
    PrintsAll(calls, f, args, Parse(fmt, 0), used);
  }

  /**
   `fprintf`. Of the text that the format sends to standard output every byte is sent, buffered or lost,
   and all of it is there, in order, if every write took what it was offered. A file other than standard
   output is offered its own part, and receives it if it takes all. Nothing else is written anywhere.
   */
  method Fprintf(io: Stdio, f: int, fmt: string, args: seq<Arg>)
    requires io.Valid() && '\0' !in fmt && Matches(Parse(fmt, 0), args, 0)
    modifies io`bufferLen, io`sent, io`log, io`direct, io`lost, io`ops, io.buffer
    ensures io.Valid() && old(io.ops) <= io.ops && PutsOnly(io.ops[|old(io.ops)|..], f)
    ensures var text := Render(Parse(fmt, 0), args, 0, ToStdout(f));
            && Texts(io.ops, STDOUT) == old(Texts(io.ops, STDOUT)) + text
            && Accounts(old(io.Value()), text, io.Value())
            && (AllTaken(io.log) ==> Given(io.Value()) == old(Given(io.Value())) + text)
    ensures var text := Render(Parse(fmt, 0), args, 0, ToFile(f));
            f != STDOUT ==> Texts(io.ops, f) == old(Texts(io.ops, f)) + text
                            && Receives(old(io.direct), io.direct, text, f)
    ensures forall g :: g != f && g != STDOUT ==> Texts(io.ops, g) == old(Texts(io.ops, g))
  {
    ghost var ops0 := io.ops;
    ghost var calls := Scan(io, f, fmt, args);
    assert io.ops[|ops0|..] == calls;
    MoreCallsAccount(ops0, calls, io.kernel);
    forall g
      ensures Texts(io.ops, g) == Texts(ops0, g) + Texts(calls, g)
      ensures g != f && g != STDOUT ==> Texts(calls, g) == ""
    {
      TextsConcat(ops0, calls, g);
      NoTextElsewhere(calls, f, g);
    }
    if f != STDOUT {
      RawCalls(ops0, calls, io.kernel, f);
    }
  }

  lemma {:induction false} NoTextElsewhere(calls: seq<Op>, f: int, g: int)
    requires PutsOnly(calls, f)
    ensures g != f && g != STDOUT ==> Texts(calls, g) == ""
  {
    if calls != [] {
      var n := |calls| - 1;
      assert forall op :: op in calls[..n] ==> op in calls;
      NoTextElsewhere(calls[..n], f, g);
      assert calls[n] in calls;
    }
  }

  /**
   Where the text goes: with another file named, standard output gets nothing if and only if the format
   has neither a number nor an unknown conversion.
   */
  lemma {:induction false} NothingStraysIff(fmt: string, pos: nat, args: seq<Arg>, used: nat, f: int)
    requires f != STDOUT && pos <= |fmt| && Matches(Parse(fmt, pos), args, used)
    ensures Render(Parse(fmt, pos), args, used, ToStdout(f)) == ""
            <==> forall it :: it in Parse(fmt, pos) ==> !it.Conv? && !it.Unknown?
    decreases |fmt| - pos
  {
    var r := Next(fmt, pos);
    if !r.0.Done? {
      var rest := Parse(fmt, r.1);
      assert Parse(fmt, pos) == [r.0] + rest;
      RenderCons(r.0, rest, args, used, ToStdout(f));
      NothingStraysIff(fmt, r.1, args, After(r.0, used), f);
      if r.0.Conv? {
        ConvIsText(r.0, args[used]);
      }
    }
  }

  lemma ConvIsText(it: Item, a: Arg)
    requires it.Conv? && it.kind in "udxp" && (it.long ==> it.kind != 'p') && Suits(it, a)
    ensures Suits(Conv(it.kind, a.LongArg?), a) && ConvText(it.kind, a) != ""
  {
  }
}
