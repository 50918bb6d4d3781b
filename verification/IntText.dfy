/** Printing and reading numbers in the mini libc: `printint`, `printptr` and `atoi`. */
module IntText {
  import opened Basics
  import opened Numbers

  const TWO32: int := 0x1_0000_0000
  const TWO64: int := 0x1_0000_0000_0000_0000
  const INT_MIN: int := -0x8000_0000
  const INT_MAX: int := 0x7fff_ffff

  type int32 = v: int | -0x8000_0000 <= v < 0x8000_0000
  type int64 = v: int | -0x8000_0000_0000_0000 <= v < 0x8000_0000_0000_0000
  type uint64 = v: int | 0 <= v < 0x1_0000_0000_0000_0000

  const DIGITS: string := "0123456789abcdef"

  // ---- Digits ----

  /** The two bases the library prints in. */
  predicate IsBase(base: nat) { base == 10 || base == 16 }

  function Quot(x: nat, base: nat): nat
    requires IsBase(base)
  {
    if base == 10 then x / 10 else x / 16
  }

  function Rem(x: nat, base: nat): (r: nat)
    requires IsBase(base)
    ensures r < base
  {
    if base == 10 then x % 10 else x % 16
  }

  /** The digits of `x`, most significant first, without leading zeros. */
  function Digits(x: nat, base: nat): (t: string)
    requires IsBase(base)
    ensures |t| >= 1
    decreases x
  {
    if x < base then [DIGITS[x]] else Digits(Quot(x, base), base) + [DIGITS[Rem(x, base)]]
  }

  /** One digit at a time from the right, as long as something is left. */
  lemma DigitsStep(x: nat, base: nat)
    requires IsBase(base)
    ensures Digits(x, base) == (if Quot(x, base) == 0 then "" else Digits(Quot(x, base), base)) + [DIGITS[Rem(x, base)]]
    ensures x >= base ==> Quot(x, base) != 0
  {
  }

  lemma {:induction false} DigitsAtMost(x: nat, base: nat, k: nat)
    requires IsBase(base) && k >= 1 && x < Pow(base, k)
    ensures |Digits(x, base)| <= k
    decreases k
  {
    if x >= base {
      assert Pow(base, k) == base * Pow(base, k - 1);
      assert k > 1 by {
        assert Pow(base, 0) == 1;
      }
      DigitsAtMost(Quot(x, base), base, k - 1);
    }
  }

  lemma PowersOfTen()
    ensures Pow(10, 19) == 10_000_000_000_000_000_000
    ensures Pow(10, 20) == 100_000_000_000_000_000_000
  {
    assert Pow(10, 2) == 100 && Pow(10, 4) == 10_000 && Pow(10, 5) == 100_000;
    PowSplit(10, 5, 5);
    PowSplit(10, 10, 10);
    assert Pow(10, 20) == 10 * Pow(10, 19);
  }

  lemma PowersOfSixteen()
    ensures Pow(16, 15) == 0x1000_0000_0000_0000
    ensures Pow(16, 16) == TWO64
  {
    assert Pow(16, 2) == 256 && Pow(16, 4) == 65536;
    PowSplit(16, 4, 4);
    PowSplit(16, 8, 8);
    assert Pow(16, 16) == 16 * Pow(16, 15);
  }

  // ---- printint ----

  /** The unsigned 64-bit number whose digits are printed. */
  function Magnitude(value: int64, sign: bool): uint64 {
    var v := value as int;
    if v >= 0 then v else if sign then -v else v + TWO64
  }

  function IntDigits(value: int64, base: nat, sign: bool): string
    requires IsBase(base)
  {
    (if sign && value < 0 then "-" else "") + Digits(Magnitude(value, sign), base)
  }

  const BUF_SIZE: nat := 20

  /** The 20-byte buffer holds the digits and the sign of every 64-bit number in either base. */
  lemma FitsBuffer(value: int64, base: nat, sign: bool)
    requires IsBase(base)
    ensures |IntDigits(value, base, sign)| <= BUF_SIZE
  {
    var x := Magnitude(value, sign);
    PowersOfTen();
    PowersOfSixteen();
    if base == 16 {
      DigitsAtMost(x, 16, 16);
    } else if sign && value < 0 {
      DigitsAtMost(x, 10, 19);
    } else {
      DigitsAtMost(x, 10, 20);
    }
  }

  /** All of it is needed: the largest unsigned and the smallest signed number take all 20 bytes. */
  lemma BufferIsTight()
    ensures |IntDigits(-1, 10, false)| == BUF_SIZE
    ensures |IntDigits(-0x8000_0000_0000_0000, 10, true)| == BUF_SIZE
  {
    FitsBuffer(-1, 10, false);
    FitsBuffer(-0x8000_0000_0000_0000, 10, true);
    PowersOfTen();
    assert Pow(10, 19) == 10 * Pow(10, 18);
    DigitsAtLeast(Magnitude(-1, false), 19);
    DigitsAtLeast(Magnitude(-0x8000_0000_0000_0000, true), 18);
  }

  lemma {:induction false} DigitsAtLeast(x: nat, k: nat)
    requires x >= Pow(10, k)
    ensures |Digits(x, 10)| > k
    decreases k
  {
    if k > 0 {
      assert Pow(10, k) == 10 * Pow(10, k - 1);
      PowPositive(10, k - 1);
      DigitsAtLeast(x / 10, k - 1);
    }
  }

  /** The digit loop: fills the buffer from its end and returns the index of the first digit. */
  method FillDigits(buf: array<char>, value: nat, base: nat) returns (i: nat)
    requires IsBase(base) && buf.Length == BUF_SIZE + 1 && |Digits(value, base)| <= BUF_SIZE
    modifies buf
    ensures i <= BUF_SIZE && buf[i..BUF_SIZE] == Digits(value, base)
  {
    var x := value;
    i := BUF_SIZE;
    ghost var right := "";
    while true
      invariant 0 <= i <= BUF_SIZE
      invariant buf[i..BUF_SIZE] == right && Digits(value, base) == Digits(x, base) + right
      decreases x
    {
      DigitsStep(x, base);
      i := i - 1;
      buf[i] := DIGITS[Rem(x, base)];
      right := [DIGITS[Rem(x, base)]] + right;
      x := Quot(x, base);
      if x == 0 {
        return;
      }
    }
  }

  /** The text of a number; the indices stay inside the buffer. */
  method PrintInt(value: int64, base: nat, sign: bool) returns (text: string)
    requires IsBase(base)
    ensures text == IntDigits(value, base, sign)
  {
    FitsBuffer(value, base, sign);
    var buf := new char[BUF_SIZE + 1](_ => '\0');
    var i := FillDigits(buf, Magnitude(value, sign), base);
    text := buf[i..BUF_SIZE];
    if sign && value < 0 {
      i := i - 1;
      buf[i] := '-';
      assert buf[i..BUF_SIZE] == "-" + text;
      text := buf[i..BUF_SIZE];
    }
  }

  // ---- atoi ----

  predicate IsSpace(c: char) { c == ' ' || '\t' <= c <= '\r' }

  predicate IsDigit(c: char) { '0' <= c <= '9' }

  function DigitValue(c: char): nat
    requires IsDigit(c)
  {
    c as int - '0' as int
  }

  function Spaces(s: string): (k: nat)
    ensures k <= |s|
  {
    if s != "" && IsSpace(s[0]) then 1 + Spaces(s[1..]) else 0
  }

  function DigitRun(s: string): (k: nat)
    ensures k <= |s|
    ensures forall i :: 0 <= i < k ==> IsDigit(s[i])
    ensures k < |s| ==> !IsDigit(s[k])
  {
    if s != "" && IsDigit(s[0]) then 1 + DigitRun(s[1..]) else 0
  }

  /** The number a string of decimal digits stands for. */
  function Decimal(ds: string): nat
    requires forall i :: 0 <= i < |ds| ==> IsDigit(ds[i])
  {
    if ds == "" then 0 else 10 * Decimal(ds[..|ds| - 1]) + DigitValue(ds[|ds| - 1])
  }

  /** Blanks, an optional sign, then digits up to the first other character. */
  function Reads(s: string): int {
    var t := s[Spaces(s)..];
    if t == "" then 0
    else if t[0] == '-' then -(Decimal(t[1..][..DigitRun(t[1..])]) as int)
    else if t[0] == '+' then Decimal(t[1..][..DigitRun(t[1..])])
    else Decimal(t[..DigitRun(t)])
  }

  predicate InInt(v: int) { INT_MIN <= v <= INT_MAX }

  /**
   The digit loop of `atoi`, counting downwards. `clean` says that no step left the range of `int`.
   */
  method ReadDigits(s: string, start: nat) returns (n: int, ghost clean: bool)
    requires start <= |s|
    ensures n == -(Decimal(s[start..][..DigitRun(s[start..])]) as int)
    ensures clean <==> InInt(n)
  {
    ghost var t := s[start..];
    var p := start;
    n, clean := 0, true;
    while p < |s| && IsDigit(s[p])
      invariant start <= p <= start + DigitRun(t)
      invariant n == -(Decimal(t[..p - start]) as int)
      invariant clean <==> InInt(n)
    {
      assert t[p - start] == s[p];
      assert t[..p + 1 - start][..p - start] == t[..p - start];
      var d: int := DigitValue(s[p]);
      clean := clean && InInt(10 * n) && InInt(10 * n - d);
      n := 10 * n - d;
      p := p + 1;
    }
    assert p < |s| ==> t[p - start] == s[p];
  }

  /**
   `atoi` on a string up to its terminator. No step of the computation leaves the range of `int` if
   and only if the number itself is in range.
   */
  method Atoi(s: string) returns (r: int, ghost clean: bool)
    ensures r == Reads(s)
    ensures clean <==> InInt(Reads(s))
  {
    var p, neg := 0, false;
    while p < |s| && IsSpace(s[p])
      invariant 0 <= p <= |s| && Spaces(s) == p + Spaces(s[p..])
    {
      assert s[p..][1..] == s[p + 1..];
      p := p + 1;
    }
    ghost var t := s[p..];
    if p < |s| && s[p] == '-' {
      neg := true;
      p := p + 1;
    } else if p < |s| && s[p] == '+' {
      p := p + 1;
    }
    assert s[p..] == if t != "" && (t[0] == '-' || t[0] == '+') then t[1..] else t;
    var n;
    n, clean := ReadDigits(s, p);
    clean := clean && (neg || InInt(-n));
    r := if neg then n else -n;
  }

  // ---- Round trip ----

  lemma {:induction false} DigitsAreDigits(x: nat)
    ensures forall i :: 0 <= i < |Digits(x, 10)| ==> IsDigit(Digits(x, 10)[i])
    decreases x
  {
    if x >= 10 {
      DigitsAreDigits(x / 10);
    }
  }

  lemma {:induction false} DecimalOfDigits(x: nat)
    ensures forall i :: 0 <= i < |Digits(x, 10)| ==> IsDigit(Digits(x, 10)[i])
    ensures Decimal(Digits(x, 10)) == x
    decreases x
  {
    DigitsAreDigits(x);
    var ds := Digits(x, 10);
    if x >= 10 {
      DecimalOfDigits(x / 10);
      assert ds[..|ds| - 1] == Digits(x / 10, 10);
    } else {
      assert ds[..0] == "";
    }
  }

  lemma {:induction false} DigitRunAll(ds: string)
    requires forall i :: 0 <= i < |ds| ==> IsDigit(ds[i])
    ensures DigitRun(ds) == |ds|
  {
    if ds != "" {
      DigitRunAll(ds[1..]);
    }
  }

  lemma ReadsDigits(ds: string)
    requires ds != "" && forall i :: 0 <= i < |ds| ==> IsDigit(ds[i])
    ensures Reads(ds) == Decimal(ds)
    ensures Reads("-" + ds) == -(Decimal(ds) as int)
  {
    DigitRunAll(ds);
    assert ds[..|ds|] == ds;
    assert Spaces(ds) == 0 && ds[0..] == ds;
    var text := "-" + ds;
    assert Spaces(text) == 0 && text[0..] == text && text[1..] == ds;
  }

  /** Reading back what was printed in signed decimal gives the number, for every 64-bit number. */
  lemma RoundTrip(v: int64)
    ensures Reads(IntDigits(v, 10, true)) == v
  {
    var ds := Digits(Magnitude(v, true), 10);
    DecimalOfDigits(Magnitude(v, true));
    ReadsDigits(ds);
    if v < 0 {
      assert IntDigits(v, 10, true) == "-" + ds;
    } else {
      assert IntDigits(v, 10, true) == ds;
    }
  }

  /**
   Unsigned printing of an `int` is its 32-bit value exactly for the non-negative ones; a negative one
   is shown as a 64-bit number.
   */
  lemma UnsignedIsWide(v: int32)
    ensures Reads(IntDigits(v, 10, false)) == if v >= 0 then v as int else v as int + TWO64
    ensures Reads(IntDigits(v, 10, false)) == (if v >= 0 then v as int else v as int + TWO32) <==> v >= 0
  {
    DecimalOfDigits(Magnitude(v, false));
    ReadsDigits(Digits(Magnitude(v, false), 10));
    assert "" + Digits(Magnitude(v, false), 10) == Digits(Magnitude(v, false), 10);
  }

  // ---- What the text of a number looks like ----

  /** Printed digits have no leading zero, except for zero itself. */
  lemma {:induction false} NoLeadingZero(x: nat, base: nat)
    requires IsBase(base)
    ensures Digits(x, base)[0] == '0' <==> x == 0
    decreases x
  {
    if x >= base {
      NoLeadingZero(Quot(x, base), base);
    }
  }

  /** A decimal number as it is written down: digits without needless zeros. */
  ghost predicate IsDecimal(ds: string) {
    && ds != "" && (forall i :: 0 <= i < |ds| ==> IsDigit(ds[i])) && (ds[0] == '0' ==> |ds| == 1)
  }

  ghost predicate IsHexadecimal(ds: string) {
    && ds != "" && (forall i :: 0 <= i < |ds| ==> IsHex(ds[i])) && (ds[0] == '0' ==> |ds| == 1)
  }

  /** Digits printed in base 16 can be read back. */
  lemma {:induction false} HexOfDigits(x: nat)
    ensures forall i :: 0 <= i < |Digits(x, 16)| ==> IsHex(Digits(x, 16)[i])
    ensures HexValue(Digits(x, 16)) == x
    decreases x
  {
    DigitIsHex(x % 16);
    if x >= 16 {
      HexOfDigits(x / 16);
      assert Digits(x, 16)[..|Digits(x, 16)| - 1] == Digits(x / 16, 16);
    } else {
      assert Digits(x, 16) == [DIGITS[x]] && Digits(x, 16)[..0] == "";
    }
  }

  /** In signed base 10 the text is an optional minus sign and the decimal number; it reads as the value. */
  lemma SignedDecimal(v: int64)
    ensures var text := IntDigits(v, 10, true);
            && Reads(text) == v
            && (v >= 0 ==> IsDecimal(text)) && (v < 0 ==> text[..1] == "-" && IsDecimal(text[1..]))
  {
    var x := Magnitude(v, true);
    RoundTrip(v);
    DecimalOfDigits(x);
    NoLeadingZero(x, 10);
    SingleZero(x, 10);
    if v < 0 {
      assert IntDigits(v, 10, true) == "-" + Digits(x, 10);
    } else {
      assert IntDigits(v, 10, true) == Digits(x, 10);
    }
  }

  lemma SingleZero(x: nat, base: nat)
    requires IsBase(base)
    ensures x == 0 ==> |Digits(x, base)| == 1
  {
  }

  /** In unsigned base 10 it is a decimal number: the value, or the value plus 2^64 for a negative one. */
  lemma UnsignedDecimal(v: int64)
    ensures var text := IntDigits(v, 10, false);
            IsDecimal(text) && Reads(text) == if v >= 0 then v as int else v as int + TWO64
  {
    var x := Magnitude(v, false);
    DecimalOfDigits(x);
    ReadsDigits(Digits(x, 10));
    NoLeadingZero(x, 10);
    SingleZero(x, 10);
    assert IntDigits(v, 10, false) == Digits(x, 10);
  }

  /** In signed base 16 it is an optional minus sign and the magnitude in hexadecimal. */
  lemma SignedHex(v: int64)
    ensures var text := IntDigits(v, 16, true);
            && (v >= 0 ==> IsHexadecimal(text) && HexValue(text) == v)
            && (v < 0 ==> text[..1] == "-" && IsHexadecimal(text[1..]) && HexValue(text[1..]) == -(v as int))
  {
    var x := Magnitude(v, true);
    HexOfDigits(x);
    NoLeadingZero(x, 16);
    SingleZero(x, 16);
    if v < 0 {
      assert IntDigits(v, 16, true) == "-" + Digits(x, 16);
      assert ("-" + Digits(x, 16))[1..] == Digits(x, 16);
    } else {
      assert IntDigits(v, 16, true) == Digits(x, 16);
    }
  }

  // ---- What atoi accepts ----

  /** Blanks are the six white-space characters of the C locale. */
  lemma Blanks(c: char)
    ensures IsSpace(c) <==> c in [' ', '\t', '\n', '\U{0B}', '\U{0C}', '\r']
  {
  }

  /** What ends a number that the digits `ds` have begun: the end, or a character that is no digit. */
  ghost predicate Ends(sign: string, ds: string, rest: string) {
    && (rest != "" ==> !IsDigit(rest[0]))
    && (sign == "" && ds == "" && rest != "" ==> !IsSpace(rest[0]) && rest[0] != '-' && rest[0] != '+')
  }

  predicate IsSign(sign: string) { sign == "" || sign == "+" || sign == "-" }

  ghost predicate AllDigits(ds: string) { forall i :: 0 <= i < |ds| ==> IsDigit(ds[i]) }

  ghost predicate AllBlanks(t: string) { forall i :: 0 <= i < |t| ==> IsSpace(t[i]) }

  /** Blanks, at most one sign, digits, and anything else: only the digits and the sign count. */
  lemma ReadsForm(blanks: string, sign: string, ds: string, rest: string)
    requires AllBlanks(blanks) && IsSign(sign) && AllDigits(ds) && Ends(sign, ds, rest)
    ensures Reads(blanks + (sign + (ds + rest))) == if sign == "-" then -(Decimal(ds) as int) else Decimal(ds)
  {
    var u := ds + rest;
    var t := sign + u;
    SkipBlanks(blanks, t);
    assert (blanks + t)[|blanks|..] == t;
    RunOfDigits(ds, rest);
    assert u[..|ds|] == ds;
    if sign != "" {
      assert t[1..] == u && t[0] == sign[0];
    } else {
      assert t == u;
    }
  }

  lemma {:induction false} SkipBlanks(blanks: string, t: string)
    requires forall i :: 0 <= i < |blanks| ==> IsSpace(blanks[i])
    requires t != "" ==> !IsSpace(t[0])
    ensures Spaces(blanks + t) == |blanks|
  {
    if blanks == "" {
      assert blanks + t == t;
    } else {
      SkipBlanks(blanks[1..], t);
      assert (blanks + t)[1..] == blanks[1..] + t;
    }
  }

  lemma {:induction false} RunOfDigits(ds: string, rest: string)
    requires (forall i :: 0 <= i < |ds| ==> IsDigit(ds[i])) && (rest != "" ==> !IsDigit(rest[0]))
    ensures DigitRun(ds + rest) == |ds|
  {
    if ds == "" {
      assert ds + rest == rest;
    } else {
      RunOfDigits(ds[1..], rest);
      assert (ds + rest)[1..] == ds[1..] + rest;
    }
  }

  /** Every string is of that form. */
  lemma EveryStringHasForm(s: string) returns (blanks: string, sign: string, ds: string, rest: string)
    ensures s == blanks + (sign + (ds + rest))
    ensures AllBlanks(blanks) && IsSign(sign) && AllDigits(ds) && Ends(sign, ds, rest)
  {
    var k := Spaces(s);
    SpacesAre(s);
    var t := s[k..];
    blanks := s[..k];
    sign, ds, rest := SignAndDigits(t);
    assert s == blanks + t;
  }

  lemma SignAndDigits(t: string) returns (sign: string, ds: string, rest: string)
    requires t != "" ==> !IsSpace(t[0])
    ensures t == sign + (ds + rest) && IsSign(sign) && AllDigits(ds) && Ends(sign, ds, rest)
  {
    sign := if t != "" && (t[0] == '-' || t[0] == '+') then [t[0]] else "";
    var u := t[|sign|..];
    ds, rest := u[..DigitRun(u)], u[DigitRun(u)..];
    assert u == ds + rest;
    assert t == sign + u;
  }

  lemma {:induction false} SpacesAre(s: string)
    ensures forall i :: 0 <= i < Spaces(s) ==> IsSpace(s[i])
    ensures Spaces(s) < |s| ==> !IsSpace(s[Spaces(s)])
  {
    if s != "" && IsSpace(s[0]) {
      SpacesAre(s[1..]);
    }
  }

  // ---- printptr ----

  /** The lowest `k` hexadecimal digits of `v`. */
  function HexDigits(v: nat, k: nat): (t: string)
    ensures |t| == k
  {
    if k == 0 then "" else HexDigits(v / 16, k - 1) + [DIGITS[v % 16]]
  }

  predicate IsHex(c: char) { '0' <= c <= '9' || 'a' <= c <= 'f' }

  function HexDigit(c: char): nat
    requires IsHex(c)
  {
    if '0' <= c <= '9' then c as int - '0' as int else 10 + c as int - 'a' as int
  }

  function HexValue(t: string): nat
    requires forall i :: 0 <= i < |t| ==> IsHex(t[i])
  {
    if t == "" then 0 else 16 * HexValue(t[..|t| - 1]) + HexDigit(t[|t| - 1])
  }

  lemma DigitIsHex(d: nat)
    requires d < 16
    ensures IsHex(DIGITS[d]) && HexDigit(DIGITS[d]) == d
  {
  }

  /** A pointer printed in sixteen digits can be read back. */
  lemma {:induction false} HexRoundTrip(v: nat, k: nat)
    requires v < Pow(16, k)
    ensures forall i :: 0 <= i < k ==> IsHex(HexDigits(v, k)[i])
    ensures HexValue(HexDigits(v, k)) == v
    decreases k
  {
    if k > 0 {
      assert Pow(16, k) == 16 * Pow(16, k - 1);
      HexRoundTrip(v / 16, k - 1);
      DigitIsHex(v % 16);
      assert HexDigits(v, k)[..k - 1] == HexDigits(v / 16, k - 1);
    }
  }

  /** The top digit of a number below `16 * p`, seen through a shift by `q`. */
  lemma TopDigit(lo: nat, p: nat, q: nat) returns (d: nat, low: nat)
    requires p > 0 && q > 0 && lo < 16 * p
    ensures low == lo % p
    ensures d < 16 && low < p && lo == d * p + low
    ensures lo * q / (p * q) == d
    ensures lo * q * 16 % (16 * (p * q)) == low * (16 * q)
  {
    d, low := lo / p, lo % p;
    assert lo == d * p + low;
    if d >= 16 {
      MulMono(16, d, p);
    }
    MulLess(0, p, q);
    ShiftedSum(d, low, p, q);
    DivModUnique(lo * q, p * q, d, low * q);
    DivModUnique(lo * q * 16, 16 * (p * q), d, low * (16 * q));
  }

  lemma ShiftedSum(d: nat, low: nat, p: nat, q: nat)
    requires low < p && q > 0
    ensures (d * p + low) * q == d * (p * q) + low * q
    ensures low * q < p * q
    ensures (d * p + low) * q * 16 == d * (16 * (p * q)) + low * (16 * q)
    ensures low * (16 * q) < 16 * (p * q)
  {
    MulDistr(d * p, low, q);
    MulAssoc(d, p, q);
    MulLess(low, p, q);
    MulAssoc(low, q, 16);
    MulAssoc(d, p * q, 16);
  }

  /** Shifts the digits out at the top of a 64-bit number. */
  method PrintPtr(v: uint64) returns (text: string)
    ensures text == "0x" + HexDigits(v, 16)
  {
    var value: nat := v;
    text := "0x";
    ghost var hi: nat, lo: nat := 0, v;
    ShiftStart(v);
    for j := 0 to 16
      invariant Shifted(v, hi, lo, j, value)
      invariant text == "0x" + HexDigits(hi, j)
    {
      ghost var d, hi', lo' := ShiftStep(v, hi, lo, j, value);
      Regroup("0x", HexDigits(hi, j), [DIGITS[d]]);
      text := text + [DIGITS[value / 0x1000_0000_0000_0000]];
      value := value * 16 % TWO64;
      hi, lo := hi', lo';
    }
    ShiftEnd(v, hi, lo, value);
  }

  lemma ShiftStart(v: uint64)
    ensures Shifted(v, 0, v, 0, v)
  {
    PowersOfSixteen();
  }

  lemma ShiftEnd(v: nat, hi: nat, lo: nat, value: nat)
    requires Shifted(v, hi, lo, 16, value)
    ensures hi == v
  {
    assert Pow(16, 0) == 1;
  }

  /** After `j` digits: `hi` is what they say, and `value` is the rest `lo` shifted up by them. */
  ghost predicate Shifted(v: nat, hi: nat, lo: nat, j: nat, value: nat) {
    j <= 16 && v == hi * Pow(16, 16 - j) + lo && lo < Pow(16, 16 - j) && value == lo * Pow(16, j)
  }

  lemma ShiftStep(v: nat, hi: nat, lo: nat, j: nat, value: nat) returns (d: nat, hi': nat, lo': nat)
    requires j < 16 && Shifted(v, hi, lo, j, value)
    ensures d < 16 && value / 0x1000_0000_0000_0000 == d
    ensures Shifted(v, hi', lo', j + 1, value * 16 % TWO64)
    ensures HexDigits(hi', j + 1) == HexDigits(hi, j) + [DIGITS[d]]
  {
    PowPositive(16, 15 - j);
    PowPositive(16, j);
    SixteenAt(j);
    d, lo' := TopDigit(lo, Pow(16, 15 - j), Pow(16, j));
    hi' := 16 * hi + d;
    SplitHigh(v, hi, lo, d, Pow(16, 15 - j), lo');
    HexSnoc(hi, d, j);
  }

  lemma SixteenAt(j: nat)
    requires j < 16
    ensures Pow(16, 15 - j) * Pow(16, j) == 0x1000_0000_0000_0000
    ensures 16 * (Pow(16, 15 - j) * Pow(16, j)) == TWO64
    ensures Pow(16, 16 - j) == 16 * Pow(16, 15 - j) && Pow(16, j + 1) == 16 * Pow(16, j)
  {
    PowersOfSixteen();
    PowSplit(16, 15 - j, j);
  }

  lemma SplitHigh(v: nat, hi: nat, lo: nat, d: nat, p: nat, low: nat)
    requires v == hi * (16 * p) + lo && lo == d * p + low
    ensures v == (16 * hi + d) * p + low
  {
    MulDistr(16 * hi, d, p);
    MulAssoc(hi, 16, p);
  }

  lemma HexSnoc(hi: nat, d: nat, j: nat)
    requires d < 16
    ensures HexDigits(16 * hi + d, j + 1) == HexDigits(hi, j) + [DIGITS[d]]
  {
    assert (16 * hi + d) / 16 == hi && (16 * hi + d) % 16 == d;
  }
}
