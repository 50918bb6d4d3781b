/**
 Scanning user memory for a zero-terminated array (`check_null_terminated`): pages are checked for
 access one at a time, just ahead of the element about to be read.
 */
module UserPtr {
  import opened Numbers

  const PAGE: nat := 4096
  const ADDRESS_SPACE: nat := 0x1_0000_0000_0000_0000

  function PageNo(a: nat): nat { a / PAGE }

  /** Every byte of an element of `size` bytes at `a` lies in an accessible page. */
  ghost predicate Readable(a: nat, size: nat, ok: nat -> bool) {
    forall n :: PageNo(a) <= n && n * PAGE < a + size ==> ok(n * PAGE)
  }

  /** Pages `lo` up to `hi`, the latter excluded, are accessible. */
  ghost predicate PagesOk(lo: nat, hi: nat, ok: nat -> bool) {
    forall n :: lo <= n < hi ==> ok(n * PAGE)
  }

  // ---- Layouts ----

  ghost predicate IsPow2(n: nat) {
    n == 1 || (n > 1 && n % 2 == 0 && IsPow2(n / 2))
  }

  /** The alignment is a power of two and divides the size, as for every Rust type with a size. */
  ghost predicate IsLayout(size: nat, align: nat) {
    IsPow2(align) && size > 0 && size % align == 0
  }

  /** Whatever aligned address an element stands at, it ends inside the page it starts in. */
  ghost predicate StaysInPage(size: nat, align: nat)
    requires align > 0
  {
    forall p: nat :: p % align == 0 ==> p + size <= (PageNo(p) + 1) * PAGE
  }

  lemma {:induction false} Pow2Divides(a: nat, b: nat)
    requires IsPow2(a) && IsPow2(b) && a <= b
    ensures a > 0 && b % a == 0
    decreases a
  {
    if a > 1 {
      Pow2Divides(a / 2, b / 2);
      var h, k := a / 2, b / 2;
      var q := k / h;
      assert k == q * h;
      assert b == q * a;
      MultipleMod(q, a);
    }
  }

  /** Stepping by whole elements keeps the alignment. */
  lemma StepKeepsAlignment(start: nat, k: nat, size: nat)
    requires size > 0 && start % size == 0
    ensures (start + k * size) % size == 0
  {
    var q := start / size;
    assert start == q * size;
    assert start + k * size == (q + k) * size;
    MultipleMod(q + k, size);
  }

  lemma PageIsPow2()
    ensures IsPow2(PAGE)
  {
    assert IsPow2(2) && IsPow2(4) && IsPow2(8) && IsPow2(16) && IsPow2(32) && IsPow2(64);
    assert IsPow2(128) && IsPow2(256) && IsPow2(512) && IsPow2(1024) && IsPow2(2048);
  }

  /** Multiples of `a` leave room for one more below a larger multiple. */
  lemma GapBetweenMultiples(a: nat, m: nat, n: nat)
    requires m * a < n * a
    ensures m * a + a <= n * a
  {
    assert m < n;
    assert (m + 1) * a <= n * a;
  }

  /** Elements never cross out of the page they start in if and only if size and alignment agree and are at most a page. */
  lemma InPageLayouts(size: nat, align: nat)
    requires IsLayout(size, align)
    ensures align > 0
    ensures StaysInPage(size, align) <==> size == align <= PAGE
  {
    PageIsPow2();
    if size == align <= PAGE {
      Pow2Divides(align, PAGE);
      forall p: nat | p % align == 0
        ensures p + size <= (PageNo(p) + 1) * PAGE
      {
        var c, m, q := PAGE / align, p / align, PageNo(p) + 1;
        assert p == m * align && PAGE == c * align;
        assert q * PAGE == q * c * align;
        GapBetweenMultiples(align, m, q * c);
      }
    } else if align <= PAGE {
      Pow2Divides(align, PAGE);
      Counterexample(size, align);
    } else {
      SizeAtLeast(size, align);
      var p: nat := 0;
      assert p % align == 0 && PageNo(p) == 0;
    }
  }

  lemma SizeAtLeast(size: nat, align: nat)
    requires align > 0 && size > 0 && size % align == 0
    ensures size >= align
    ensures size != align ==> size >= 2 * align
  {
    var q := size / align;
    assert size == q * align;
    assert q >= 1;
    if q == 1 {
      assert size == align;
    } else {
      assert q * align >= 2 * align;
    }
  }

  /** An element larger than its alignment, standing one alignment before the end of a page. */
  lemma Counterexample(size: nat, align: nat)
    requires 0 < align <= PAGE && PAGE % align == 0 && size > 0 && size % align == 0 && size != align
    ensures !StaysInPage(size, align)
  {
    SizeAtLeast(size, align);
    var p, c := PAGE - align, PAGE / align;
    assert PAGE == c * align;
    assert p == (c - 1) * align;
    MultipleMod(c - 1, align);
    assert p % align == 0 && PageNo(p) == 0;
  }

  // ---- What is checked before an element is read ----

  /** The end of the pages checked when the element at `ptr` is read; `CheckPages` gets there. */
  function CheckedUpTo(ptr: nat): nat { (PageNo(ptr) + 1) * PAGE }

  /**
   The loop ahead of a read, for any layout: checks page after page, from page number `from` on, up to the
   one `ptr` is in. It stops exactly there, or at the first page that is not accessible.
   */
  method CheckPages(ptr: nat, from: nat, ok: nat -> bool) returns (good: bool, next: nat)
    ensures from <= next && PagesOk(from, next, ok)
    ensures good ==> next == if from > PageNo(ptr) then from else PageNo(ptr) + 1
    ensures good ==> CheckedUpTo(ptr) <= next * PAGE
    ensures !good ==> next * PAGE <= ptr && !ok(next * PAGE)
  {
    next := from;
    var page := from * PAGE;
    while ptr >= page
      invariant page == next * PAGE && from <= next && PagesOk(from, next, ok)
      invariant next <= PageNo(ptr) + 1 || next == from
      decreases ptr - page
    {
      if !ok(page) {
        return false, next;
      }
      page := page + PAGE;
      next := next + 1;
    }
    good := true;
  }

  /** Whatever the start and however far the scan has come, the element it reads lies in checked pages. */
  ghost predicate ReadsOnlyChecked(size: nat, align: nat)
    requires align > 0
  {
    forall start: nat, j: nat :: start % align == 0 ==> Elem(start, size, j) + size <= CheckedUpTo(Elem(start, size, j))
  }

  /** Address of element `j`. */
  function Elem(start: nat, size: nat, j: nat): nat {
    start + j * size
  }

  /** The scan reads only checked pages if and only if size and alignment agree and are at most a page. */
  lemma SafeLayouts(size: nat, align: nat)
    requires IsLayout(size, align)
    ensures align > 0
    ensures ReadsOnlyChecked(size, align) <==> size == align <= PAGE
  {
    InPageLayouts(size, align);
    if size == align <= PAGE {
      forall start: nat, j: nat | start % align == 0
        ensures Elem(start, size, j) + size <= CheckedUpTo(Elem(start, size, j))
      {
        StepKeepsAlignment(start, j, size);
      }
    } else {
      var p: nat :| p % align == 0 && p + size > (PageNo(p) + 1) * PAGE;
      assert Elem(p, size, 0) == p;
    }
  }

  /**
   With any other layout there is an aligned start and a memory in which the checks for the very first
   element succeed and its read touches a page that is not accessible.
   */
  lemma UnsafeFirstRead(size: nat, align: nat)
    requires IsLayout(size, align) && !(size == align <= PAGE)
    ensures align > 0
    ensures exists start: nat, ok: nat -> bool ::
              start % align == 0 && PagesOk(PageNo(start), PageNo(start) + 1, ok) && !Readable(start, size, ok)
  {
    InPageLayouts(size, align);
    var p: nat :| p % align == 0 && p + size > (PageNo(p) + 1) * PAGE;
    var n := PageNo(p);
    var ok := (a: nat) => a < (n + 1) * PAGE;
    assert PagesOk(n, n + 1, ok);
    assert !ok((n + 1) * PAGE);
    assert !Readable(p, size, ok);
  }

  // ---- The scan ----

  datatype Scan = Found(len: nat) | Fault

  /**
   The scan, for elements of `size` bytes aligned to `size`. `ok` answers the access check for the page
   at an address, `zeroAt` says whether the element at an address is zero and may be asked only about
   elements in accessible pages, and no page from `limit` on is accessible.
   */
  method CheckNullTerminated(start: nat, size: nat, ok: nat -> bool, zeroAt: nat --> bool, limit: nat)
    returns (r: Scan)
    requires IsPow2(size) && size <= PAGE
    requires start < ADDRESS_SPACE && limit + PAGE <= ADDRESS_SPACE
    requires forall a :: a >= limit ==> !ok(a)
    requires forall a :: Readable(a, size, ok) ==> zeroAt.requires(a)
    ensures size > 0
    ensures r.Found? ==>
              && start % size == 0
              && PagesOk(PageNo(start), PageNo(Elem(start, size, r.len)) + 1, ok)
              && NonZeroBelow(start, size, r.len, zeroAt)
              && zeroAt.requires(Elem(start, size, r.len)) && zeroAt(Elem(start, size, r.len))
    ensures r.Fault? && start % size == 0 ==> Faults(start, size, ok, zeroAt)
    ensures start % size != 0 ==> r.Fault?
  {
    SafeScan(size);
    if start % size != 0 {
      return Fault;
    }
    var len := 0;
    ghost var first := PageNo(start);
    var next := PageNo(start);
    while true
      invariant next >= first && PagesOk(first, next, ok)
      invariant next > first ==> next * PAGE < limit + PAGE
      invariant len > 0 ==> next > first && Elem(start, size, len) <= next * PAGE
      invariant NonZeroBelow(start, size, len, zeroAt)
      decreases limit + PAGE - (Elem(start, size, len))
    {
      var ptr := Elem(start, size, len);
      NextElem(start, size, len);
      assert ptr < ADDRESS_SPACE && next * PAGE < ADDRESS_SPACE;    // no address has wrapped
      var good, n := CheckPages(ptr, next, ok);
      MorePages(first, next, n, ok);
      next := n;
      if !good {
        assert FaultsAt(start, size, ok, zeroAt, next) by {
          NothingBefore(start, size, len, zeroAt, next * PAGE);
        }
        return Fault;
      }
      assert next > first && ok((next - 1) * PAGE);
      StepKeepsAlignment(start, len, size);
      ElementIsChecked(start, ptr, size, ok, first, next);
      if zeroAt(ptr) {
        return Found(len);
      }
      len := len + 1;
    }
  }

  /** The first `len` elements may be read and are not zero. */
  ghost predicate NonZeroBelow(start: nat, size: nat, len: nat, zeroAt: nat --> bool) {
    forall j :: 0 <= j < len ==> zeroAt.requires(Elem(start, size, j)) && !zeroAt(Elem(start, size, j))
  }

  /** Page `n` is the first inaccessible one, and no element that starts before it is zero. */
  ghost predicate FaultsAt(start: nat, size: nat, ok: nat -> bool, zeroAt: nat --> bool, n: nat) {
    && PageNo(start) <= n && !ok(n * PAGE) && PagesOk(PageNo(start), n, ok)
    && forall j :: 0 <= j && Elem(start, size, j) < n * PAGE ==>
         zeroAt.requires(Elem(start, size, j)) && !zeroAt(Elem(start, size, j))
  }

  ghost predicate Faults(start: nat, size: nat, ok: nat -> bool, zeroAt: nat --> bool) {
    exists n :: FaultsAt(start, size, ok, zeroAt, n)
  }

  lemma NextElem(start: nat, size: nat, j: nat)
    ensures Elem(start, size, j) >= start
    ensures Elem(start, size, j + 1) == Elem(start, size, j) + size
  {
  }

  lemma SafeScan(size: nat)
    requires IsPow2(size) && size <= PAGE
    ensures size > 0 && StaysInPage(size, size)
  {
    MultipleMod(1, size);
    InPageLayouts(size, size);
  }

  lemma NothingBefore(start: nat, size: nat, len: nat, zeroAt: nat --> bool, page: nat)
    requires NonZeroBelow(start, size, len, zeroAt) && Elem(start, size, len) >= page
    ensures forall j :: 0 <= j && Elem(start, size, j) < page ==>
              zeroAt.requires(Elem(start, size, j)) && !zeroAt(Elem(start, size, j))
  {
    forall j | 0 <= j && Elem(start, size, j) < page
      ensures j < len
    {
      if j >= len {
        MulMono(len, j, size);
      }
    }
  }

  lemma MorePages(first: nat, next: nat, n: nat, ok: nat -> bool)
    requires PagesOk(first, next, ok) && PagesOk(next, n, ok)
    ensures PagesOk(first, n, ok)
  {
  }

  /** An aligned element below the next unchecked page lies in checked pages. */
  lemma ElementIsChecked(start: nat, ptr: nat, size: nat, ok: nat -> bool, first: nat, next: nat)
    requires size > 0 && StaysInPage(size, size) && ptr % size == 0
    requires start <= ptr < next * PAGE && first == PageNo(start) && PagesOk(first, next, ok)
    ensures Readable(ptr, size, ok) && ptr + size <= next * PAGE
    ensures first <= PageNo(ptr) < next
  {
    assert ptr + size <= (PageNo(ptr) + 1) * PAGE;
  }
}
