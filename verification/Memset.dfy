/** `memset` of the mini libc: overlapping stores at both ends, then an aligned and truncated middle. */
module Memset {
  import opened Basics

  /**
   Fills `n` bytes at `dest`, for every length and every alignment of the start; `base` is the address
   of `mem[0]`. The loop covers only the part from the first aligned byte on, cut to whole words: the
   first four and the last four bytes are stored beforehand.
   */
  method Fill(mem: array<byte>, base: nat, dest: nat, c: int, n: nat)
    requires dest + n <= mem.Length
    modifies mem
    ensures forall i :: dest <= i < dest + n ==> mem[i] == c % 256
    ensures forall i :: 0 <= i < mem.Length && !(dest <= i < dest + n) ==> mem[i] == old(mem[i])
  {
    var v: byte := c % 256;
    if n == 0 {
      return;
    }
    mem[dest] := v;
    mem[dest + n - 1] := v;
    if n <= 2 {
      return;
    }
    mem[dest + 1] := v;
    mem[dest + 2] := v;
    mem[dest + n - 2] := v;
    mem[dest + n - 3] := v;
    if n <= 6 {
      return;
    }
    mem[dest + 3] := v;
    mem[dest + n - 4] := v;
    if n <= 8 {
      return;
    }
    FillMiddle(mem, base, dest, v, n);
  }

  /** The loop; with the first and last four bytes already set, the whole range is. */
  method FillMiddle(mem: array<byte>, base: nat, dest: nat, v: byte, n: nat)
    requires 8 < n && dest + n <= mem.Length
    requires forall i :: dest <= i < dest + 4 ==> mem[i] == v
    requires forall i :: dest + n - 4 <= i < dest + n ==> mem[i] == v
    modifies mem
    ensures forall i :: dest <= i < dest + n ==> mem[i] == v
    ensures forall i :: 0 <= i < mem.Length && !(dest <= i < dest + n) ==> mem[i] == old(mem[i])
  {
    var k := (4 - (base + dest) % 4) % 4;
    var s := dest + k;
    var left := (n - k) / 4 * 4;
    ghost var start, stop := s, s + left;
    while left != 0
      invariant 0 <= left && s + left == stop && start <= s
      invariant forall i :: start <= i < s ==> mem[i] == v
      invariant forall i :: 0 <= i < mem.Length && !(start <= i < s) ==> mem[i] == old(mem[i])
      decreases left
    {
      mem[s] := v;
      left, s := left - 1, s + 1;
    }
  }
}
