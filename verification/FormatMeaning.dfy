/**
 What `fprintf` prints, told by the characters of the format and the arguments alone: at any place in a
 format, the text that comes next, where it goes, and what it says about the argument.
 */
module FormatMeaning {
  import opened Basics
  import opened Numbers
  import opened IntText
  import opened Stdio
  import opened Format

  /** From position `pos` on, with `used` arguments consumed, this is what goes to standard output and to the file. */
  ghost function StdoutFrom(fmt: string, pos: nat, args: seq<Arg>, used: nat, f: int): string
    requires pos <= |fmt| && Matches(Parse(fmt, pos), args, used)
  {
    Render(Parse(fmt, pos), args, used, ToStdout(f))
  }

  ghost function FileFrom(fmt: string, pos: nat, args: seq<Arg>, used: nat, f: int): string
    requires pos <= |fmt| && Matches(Parse(fmt, pos), args, used)
  {
    Render(Parse(fmt, pos), args, used, ToFile(f))
  }

  /** At `pos` the text `text` comes next, for standard output only, up to position `next`. */
  ghost predicate OnStdout(fmt: string, pos: nat, args: seq<Arg>, used: nat, f: int, text: string, next: nat, left: nat)
    requires pos <= |fmt| && Matches(Parse(fmt, pos), args, used)
  {
    && pos < next <= |fmt| && Matches(Parse(fmt, next), args, left)
    && StdoutFrom(fmt, pos, args, used, f) == text + StdoutFrom(fmt, next, args, left, f)
    && FileFrom(fmt, pos, args, used, f) == FileFrom(fmt, next, args, left, f)
  }

  /** At `pos` the text `text` comes next, for the file named in the call, which may be standard output itself. */
  ghost predicate OnFile(fmt: string, pos: nat, args: seq<Arg>, used: nat, f: int, text: string, next: nat, left: nat)
    requires pos <= |fmt| && Matches(Parse(fmt, pos), args, used)
  {
    && pos < next <= |fmt| && Matches(Parse(fmt, next), args, left)
    && StdoutFrom(fmt, pos, args, used, f)
       == (if f == STDOUT then text else "") + StdoutFrom(fmt, next, args, left, f)
    && FileFrom(fmt, pos, args, used, f) == (if f == STDOUT then "" else text) + FileFrom(fmt, next, args, left, f)
  }

  /** The item at `pos`, split off what follows. */
  lemma ItemFirst(fmt: string, pos: nat, args: seq<Arg>, used: nat, f: int)
    requires pos <= |fmt| && Matches(Parse(fmt, pos), args, used) && !Next(fmt, pos).0.Done?
    ensures var (it, next) := Next(fmt, pos);
            && Served(it, args, used) && Matches(Parse(fmt, next), args, After(it, used))
            && StdoutFrom(fmt, pos, args, used, f)
               == Piece(it, args, used, ToStdout(f)) + StdoutFrom(fmt, next, args, After(it, used), f)
            && FileFrom(fmt, pos, args, used, f)
               == Piece(it, args, used, ToFile(f)) + FileFrom(fmt, next, args, After(it, used), f)
  {
    var (it, next) := Next(fmt, pos);
    assert Parse(fmt, pos) == [it] + Parse(fmt, next);
    RenderCons(it, Parse(fmt, next), args, used, ToStdout(f));
    RenderCons(it, Parse(fmt, next), args, used, ToFile(f));
  }

  /** At the end of the format, or at a lone % there, nothing more is printed. */
  lemma AtEnd(fmt: string, pos: nat, args: seq<Arg>, used: nat, f: int)
    requires pos <= |fmt| && (pos == |fmt| || (pos + 1 == |fmt| && fmt[pos] == '%'))
    ensures Matches(Parse(fmt, pos), args, used)
    ensures StdoutFrom(fmt, pos, args, used, f) == "" && FileFrom(fmt, pos, args, used, f) == ""
  {
  }

  /** A character other than % stands for itself, and two % for one. */
  lemma AtLiteral(fmt: string, pos: nat, args: seq<Arg>, used: nat, f: int)
    requires pos < |fmt| && Matches(Parse(fmt, pos), args, used)
    ensures fmt[pos] != '%' ==> OnFile(fmt, pos, args, used, f, [fmt[pos]], pos + 1, used)
    ensures fmt[pos] == '%' && pos + 1 < |fmt| && fmt[pos + 1] == '%' ==>
              OnFile(fmt, pos, args, used, f, "%", pos + 2, used)
  {
    if fmt[pos] != '%' || (pos + 1 < |fmt| && fmt[pos + 1] == '%') {
      ItemFirst(fmt, pos, args, used, f);
    }
  }

  /** What a number printed for a conversion says. */
  ghost predicate Says(kind: char, v: int64, text: string) {
    match kind
    case 'd' =>
      Reads(text) == v && (if v >= 0 then IsDecimal(text) else text[..1] == "-" && IsDecimal(text[1..]))
    case 'u' => IsDecimal(text) && Reads(text) == if v >= 0 then v as int else v as int + TWO64
    case 'x' =>
      if v >= 0 then IsHexadecimal(text) && HexValue(text) == v
      else text != "" && text[..1] == "-" && IsHexadecimal(text[1..]) && HexValue(text[1..]) == -(v as int)
    case _ => false
  }

  lemma NumberSays(kind: char, v: int64)
    requires kind in "udx"
    ensures Says(kind, v, IntDigits(v, if kind == 'x' then 16 else 10, kind != 'u'))
  {
    SignedDecimal(v);
    UnsignedDecimal(v);
    SignedHex(v);
  }

  lemma NumberText(kind: char, a: Arg) returns (text: string)
    requires kind in "udx" && (a.IntArg? || a.LongArg?)
    ensures kind in "udxp" && Suits(Conv(kind, a.LongArg?), a) && text == ConvText(kind, a)
    ensures Says(kind, if a.IntArg? then a.i else a.l, text)
  {
    assert kind == 'u' || kind == 'd' || kind == 'x';
    text := ConvText(kind, a);
    NumberSays(kind, if a.IntArg? then a.i else a.l);
  }

  /** %d, %u and %x take an `int` and print a number that says what it is. */
  lemma AtNumber(fmt: string, pos: nat, args: seq<Arg>, used: nat, f: int) returns (text: string)
    requires pos + 1 < |fmt| && fmt[pos] == '%' && fmt[pos + 1] in "udx" && Matches(Parse(fmt, pos), args, used)
    ensures used < |args| && args[used].IntArg? && Says(fmt[pos + 1], args[used].i, text)
    ensures OnStdout(fmt, pos, args, used, f, text, pos + 2, used + 1)
  {
    assert Next(fmt, pos) == (Conv(fmt[pos + 1], false), pos + 2);
    ItemFirst(fmt, pos, args, used, f);
    text := NumberText(fmt[pos + 1], args[used]);
  }

  /** %ld, %lu and %lx do so for a `long`. */
  lemma AtLong(fmt: string, pos: nat, args: seq<Arg>, used: nat, f: int) returns (text: string)
    requires pos + 2 < |fmt| && fmt[pos] == '%' && fmt[pos + 1] == 'l' && fmt[pos + 2] in "udx"
    requires Matches(Parse(fmt, pos), args, used)
    ensures used < |args| && args[used].LongArg? && Says(fmt[pos + 2], args[used].l, text)
    ensures OnStdout(fmt, pos, args, used, f, text, pos + 3, used + 1)
  {
    assert Next(fmt, pos) == (Conv(fmt[pos + 2], true), pos + 3);
    ItemFirst(fmt, pos, args, used, f);
    text := NumberText(fmt[pos + 2], args[used]);
  }

  /** %p prints 0x and sixteen hexadecimal digits, whose value is the pointer. */
  lemma AtPointer(fmt: string, pos: nat, args: seq<Arg>, used: nat, f: int) returns (ds: string)
    requires pos + 1 < |fmt| && fmt[pos] == '%' && fmt[pos + 1] == 'p' && Matches(Parse(fmt, pos), args, used)
    ensures used < |args| && args[used].PtrArg?
    ensures |ds| == 16 && (forall i :: 0 <= i < |ds| ==> IsHex(ds[i])) && HexValue(ds) == args[used].p
    ensures OnStdout(fmt, pos, args, used, f, "0x" + ds, pos + 2, used + 1)
  {
    ItemFirst(fmt, pos, args, used, f);
    PowersOfSixteen();
    HexRoundTrip(args[used].p, 16);
    ds := HexDigits(args[used].p, 16);
  }

  /** %s prints the string to the file, or "(null)", at most 200 characters of it. */
  lemma AtString(fmt: string, pos: nat, args: seq<Arg>, used: nat, f: int) returns (text: string)
    requires pos + 1 < |fmt| && fmt[pos] == '%' && fmt[pos + 1] == 's' && Matches(Parse(fmt, pos), args, used)
    ensures used < |args| && args[used].StrArg?
    ensures args[used].s == None ==> text == "(null)"
    ensures args[used].s.Some? ==> text <= args[used].s.value && |text| == Min(200, |args[used].s.value|)
    ensures OnFile(fmt, pos, args, used, f, text, pos + 2, used + 1)
  {
    assert Next(fmt, pos) == (Str, pos + 2);
    ItemFirst(fmt, pos, args, used, f);
    text := StringText(args[used].s);
  }

  lemma StringText(s: Option<string>) returns (text: string)
    ensures text == Shown(s)
    ensures s == None ==> text == "(null)"
    ensures s.Some? ==> text <= s.value && |text| == Min(200, |s.value|)
  {
    text := Shown(s);
  }

  /** Any other conversion is printed as it stands, on standard output, and takes no argument. */
  lemma AtUnknown(fmt: string, pos: nat, args: seq<Arg>, used: nat, f: int)
    requires pos + 1 < |fmt| && fmt[pos] == '%' && fmt[pos + 1] !in "%udxpsl" && Matches(Parse(fmt, pos), args, used)
    ensures OnStdout(fmt, pos, args, used, f, "%" + [fmt[pos + 1]], pos + 2, used)
  {
    assert Next(fmt, pos) == (Unknown("%" + [fmt[pos + 1]]), pos + 2);
    ItemFirst(fmt, pos, args, used, f);
  }

  /** So is an unknown one after %l; at the end of the format it is %l alone. */
  lemma AtUnknownLong(fmt: string, pos: nat, args: seq<Arg>, used: nat, f: int)
    requires pos + 2 < |fmt| && fmt[pos] == '%' && fmt[pos + 1] == 'l' && fmt[pos + 2] !in "udx"
    requires Matches(Parse(fmt, pos), args, used)
    ensures OnStdout(fmt, pos, args, used, f, "%l" + [fmt[pos + 2]], pos + 3, used)
  {
    assert Next(fmt, pos) == (Unknown("%l" + [fmt[pos + 2]]), pos + 3);
    ItemFirst(fmt, pos, args, used, f);
  }

  lemma AtBareLong(fmt: string, pos: nat, args: seq<Arg>, used: nat, f: int)
    requires pos + 2 == |fmt| && fmt[pos] == '%' && fmt[pos + 1] == 'l' && Matches(Parse(fmt, pos), args, used)
    ensures OnStdout(fmt, pos, args, used, f, "%l", pos + 2, used)
  {
    assert Next(fmt, pos) == (Unknown("%l"), pos + 2);
    ItemFirst(fmt, pos, args, used, f);
  }

  // ---- Formats with one conversion ----

  /** `fprintf(1, "%d", i)` prints text that reads as `i`. */
  lemma DecimalAlone(i: int32)
    ensures Matches(Parse("%d", 0), [IntArg(i)], 0)
    ensures Says('d', i, StdoutFrom("%d", 0, [IntArg(i)], 0, STDOUT))
  {
    OneItem("%d", [IntArg(i)]);
    var text := AtNumber("%d", 0, [IntArg(i)], 0, STDOUT);
    AtEnd("%d", 2, [IntArg(i)], 1, STDOUT);
    assert text + "" == text;
  }

  lemma HexAlone(i: int32)
    ensures Matches(Parse("%x", 0), [IntArg(i)], 0)
    ensures Says('x', i, StdoutFrom("%x", 0, [IntArg(i)], 0, STDOUT))
  {
    OneItem("%x", [IntArg(i)]);
    var text := AtNumber("%x", 0, [IntArg(i)], 0, STDOUT);
    AtEnd("%x", 2, [IntArg(i)], 1, STDOUT);
    assert text + "" == text;
  }

  lemma OneItem(fmt: string, args: seq<Arg>)
    requires |fmt| == 2 && fmt[0] == '%' && fmt[1] in "udx" && |args| == 1 && args[0].IntArg?
    ensures Matches(Parse(fmt, 0), args, 0)
  {
    assert Parse(fmt, 2) == [];
    var it := Next(fmt, 0).0;
    assert Parse(fmt, 0) == [it] && [it][1..] == [];
  }
}
