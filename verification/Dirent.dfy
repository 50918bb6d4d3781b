/**
 Directory records (`linux_dirent64`) as `getdents64` lays them out, and a reader that walks them by
 their length field. Numbers are little-endian.
 */
module Dirent {
  import opened Basics

  const NAME_OFFSET: nat := 19      // d_ino 8, d_off 8, d_reclen 2, d_type 1
  const STRUCT_SIZE: nat := 24      // rounded up to the alignment
  const DIRENT_ALIGN: nat := 8

  datatype Entry = Entry(kind: byte, name: seq<byte>)

  /** The space a name of `n` bytes takes: header, name and terminator, rounded up. */
  function RecLen(n: nat): (len: nat)
    ensures len % DIRENT_ALIGN == 0
    ensures STRUCT_SIZE <= len && NAME_OFFSET + n + 1 <= len < NAME_OFFSET + n + 1 + DIRENT_ALIGN
  {
    (NAME_OFFSET + n + 1 + DIRENT_ALIGN - 1) / DIRENT_ALIGN * DIRENT_ALIGN
  }

  function Le(v: nat, n: nat): (b: seq<byte>)
    ensures |b| == n
  {
    if n == 0 then [] else [v % 256] + Le(v / 256, n - 1)
  }

  /** The fixed struct: inode 1, offset 0, the length cut to 16 bits, the type, and padding. */
  function Header(len: nat, kind: byte, pad: seq<byte>): (h: seq<byte>)
    requires |pad| == STRUCT_SIZE - NAME_OFFSET
    ensures |h| == STRUCT_SIZE
    ensures h[..16] == Le(1, 8) + Le(0, 8)
    ensures h[16] == len % 256 && h[17] == len / 256 % 256 && h[18] == kind
  {
    Le(1, 8) + Le(0, 8) + [len % 256, len / 256 % 256, kind] + pad
  }

  function U16(lo: byte, hi: byte): nat {
    (lo as int) + 256 * (hi as int)
  }

  /** Inode 1, offset 0, its own length cut to 16 bits, type, name and terminator. */
  ghost predicate Carries(rec: seq<byte>, e: Entry) {
    && STRUCT_SIZE <= |rec| && NAME_OFFSET + |e.name| < |rec|
    && rec[..16] == Le(1, 8) + Le(0, 8)
    && U16(rec[16], rec[17]) == |rec| % 65536
    && rec[18] == e.kind
    && rec[NAME_OFFSET..NAME_OFFSET + |e.name|] == e.name
    && rec[NAME_OFFSET + |e.name|] == 0
  }

  ghost predicate IsRecord(rec: seq<byte>, e: Entry) {
    |rec| == RecLen(|e.name|) && Carries(rec, e)
  }

  ghost function Flatten(recs: seq<seq<byte>>): seq<byte> {
    if recs == [] then [] else recs[0] + Flatten(recs[1..])
  }

  ghost predicate Consists(bytes: seq<byte>, recs: seq<seq<byte>>, es: seq<Entry>) {
    && |recs| == |es| && bytes == Flatten(recs)
    && forall i :: 0 <= i < |es| ==> IsRecord(recs[i], es[i])
  }

  /** The bytes are one record after another, one for each entry. */
  ghost predicate AreRecords(bytes: seq<byte>, es: seq<Entry>) {
    exists recs :: Consists(bytes, recs, es)
  }

  lemma {:induction false} FlattenSnoc(recs: seq<seq<byte>>, rec: seq<byte>)
    ensures Flatten(recs + [rec]) == Flatten(recs) + rec
  {
    if recs == [] {
      assert ([] + [rec])[1..] == [];
    } else {
      FlattenSnoc(recs[1..], rec);
      assert (recs + [rec])[1..] == recs[1..] + [rec];
    }
  }

  lemma RecordsSnoc(bytes: seq<byte>, es: seq<Entry>, rec: seq<byte>, e: Entry)
    requires AreRecords(bytes, es) && IsRecord(rec, e)
    ensures AreRecords(bytes + rec, es + [e])
  {
    var recs :| Consists(bytes, recs, es);
    FlattenSnoc(recs, rec);
    assert Consists(bytes + rec, recs + [rec], es + [e]);
  }

  lemma NoRecords()
    ensures AreRecords([], [])
  {
    assert Consists([], [], []);
  }

  // ---- Reading back ----

  /** Index of the first zero byte, or the length. */
  function FindNul(b: seq<byte>): (k: nat)
    ensures k <= |b|
    ensures forall i :: 0 <= i < k ==> b[i] != 0
    ensures k < |b| ==> b[k] == 0
  {
    if b == [] || b[0] == 0 then 0 else 1 + FindNul(b[1..])
  }

  /** Walks the records by their length fields; None if a field does not make sense. */
  function Decode(bytes: seq<byte>): Option<seq<Entry>>
    decreases |bytes|
  {
    if bytes == [] then Some([])
    else if |bytes| < STRUCT_SIZE then None
    else
      var len := U16(bytes[16], bytes[17]);
      if len <= NAME_OFFSET || len > |bytes| then None else
      var n := FindNul(bytes[NAME_OFFSET..len]);
      if NAME_OFFSET + n == len then None else
      var rest := Decode(bytes[len..]);
      if rest.None? then None
      else Some([Entry(bytes[18], bytes[NAME_OFFSET..NAME_OFFSET + n])] + rest.value)
  }

  /** A name the format can carry: no zero byte, and a record length that fits 16 bits. */
  predicate Fits(e: Entry) {
    0 !in e.name && |e.name| <= 65508
  }

  /** Exactly then the 16-bit length field holds the record's length. */
  lemma FitsLength(rec: seq<byte>, e: Entry)
    requires IsRecord(rec, e)
    ensures |e.name| <= 65508 <==> |rec| % 65536 == |rec|
    ensures |e.name| > 65508 ==> |rec| % 65536 <= NAME_OFFSET + |e.name|
  {
  }

  lemma LengthField(len: nat)
    ensures U16(len % 256, len / 256 % 256) == len % 65536
  {
    var q := len / 256;
    assert len == q / 256 * 65536 + (q % 256) * 256 + len % 256;
  }

  /** Inside a view that reaches past the terminator, the first zero byte ends the name iff the name has none. */
  lemma FirstNul(view: seq<byte>, name: seq<byte>)
    requires |name| < |view| && view[..|name|] == name && view[|name|] == 0
    ensures FindNul(view) == |name| <==> 0 !in name
  {
    var k := FindNul(view);
    assert forall i :: 0 <= i < |name| ==> view[i] == name[i];
    if k < |name| {
      assert name[k] == 0;
    }
  }

  /** What the walk finds at the head of a record, whatever follows. */
  lemma HeadFields(rec: seq<byte>, rest: seq<byte>, e: Entry)
    requires Carries(rec, e)
    ensures var bytes := rec + rest;
            && U16(bytes[16], bytes[17]) == |rec| % 65536 <= |rec| <= |bytes|
            && bytes[18] == e.kind
            && bytes[NAME_OFFSET..NAME_OFFSET + |e.name|] == e.name
            && bytes[NAME_OFFSET + |e.name|] == 0
            && bytes[|rec|..] == rest
  {
    var bytes := rec + rest;
    assert bytes[NAME_OFFSET..NAME_OFFSET + |e.name|] == rec[NAME_OFFSET..NAME_OFFSET + |e.name|];
  }

  /** The name found at the head is the entry's exactly if the entry fits. */
  lemma DecodeHead(rec: seq<byte>, rest: seq<byte>, e: Entry, len: nat)
    requires IsRecord(rec, e) && len == |rec| % 65536 <= |rec|
    ensures Fits(e) <==>
            (NAME_OFFSET + |e.name| < len && FindNul((rec + rest)[NAME_OFFSET..len]) == |e.name|)
    ensures Fits(e) ==> len == |rec|
  {
    HeadFields(rec, rest, e);
    FitsLength(rec, e);
    var bytes, n := rec + rest, |e.name|;
    if NAME_OFFSET + n < len {
      var view := bytes[NAME_OFFSET..len];
      assert view[..n] == e.name && view[n] == 0;
      FirstNul(view, e.name);
    }
  }

  /**
   Reading the records back gives the entries written if and only if every one of them fits. A longer
   name has its length cut to 16 bits and the walk goes astray; one with a zero byte comes back short.
   */
  lemma RoundTrip(bytes: seq<byte>, es: seq<Entry>)
    requires AreRecords(bytes, es)
    ensures Decode(bytes) == Some(es) <==> forall e :: e in es ==> Fits(e)
  {
    var recs :| Consists(bytes, recs, es);
    WalkRecords(recs, es);
  }

  lemma {:induction false} WalkRecords(recs: seq<seq<byte>>, es: seq<Entry>)
    requires |recs| == |es| && forall i :: 0 <= i < |es| ==> IsRecord(recs[i], es[i])
    ensures Decode(Flatten(recs)) == Some(es) <==> forall e :: e in es ==> Fits(e)
  {
    if es != [] {
      var e, more, rest := es[0], es[1..], Flatten(recs[1..]);
      assert IsRecord(recs[0], e);
      WalkRecords(recs[1..], more);
      HeadFields(recs[0], rest, e);
      DecodeHead(recs[0], rest, e, |recs[0]| % 65536);
      assert es == [e] + more;
      if Fits(e) {
        DecodeCons(recs[0], rest, e, more);
      } else {
        DecodedHead(recs[0] + rest, es);
        assert e in es;
      }
    }
  }

  lemma DecodeCons(rec: seq<byte>, rest: seq<byte>, e: Entry, more: seq<Entry>)
    requires Carries(rec, e) && |rec| % 65536 == |rec|
    requires FindNul((rec + rest)[NAME_OFFSET..|rec|]) == |e.name|
    ensures Decode(rec + rest) == Some([e] + more) <==> Decode(rest) == Some(more)
  {
    HeadFields(rec, rest, e);
    var tail := Decode(rest);
    if tail.Some? {
      assert Decode(rec + rest) == Some([e] + tail.value);
      assert ([e] + more)[1..] == more && ([e] + tail.value)[1..] == tail.value;
    }
  }

  /** A successful walk found its first name ended by a zero byte inside the first record. */
  lemma DecodedHead(bytes: seq<byte>, es: seq<Entry>)
    requires |bytes| >= STRUCT_SIZE && es != []
    ensures Decode(bytes) == Some(es) ==>
              var len := U16(bytes[16], bytes[17]);
              NAME_OFFSET + |es[0].name| < len <= |bytes| && FindNul(bytes[NAME_OFFSET..len]) == |es[0].name|
  {
  }

  // ---- The buffer as the code fills it ----

  function Size(es: seq<Entry>): nat {
    if es == [] then 0 else Size(es[..|es| - 1]) + RecLen(|es[|es| - 1].name|)
  }

  class DirBuffer {
    const buf: array<byte>
    var offset: nat
    ghost var written: seq<Entry>     // the entries stored so far

    ghost predicate Valid()
      reads this, buf
    {
      offset == Size(written) <= buf.Length && AreRecords(buf[..offset], written)
    }

    constructor (buf: array<byte>)
      ensures this.buf == buf && written == [] && Valid()
    {
      this.buf := buf;
      offset, written := 0, [];
      new;
      NoRecords();
    }

    /**
     Appends a record if it fits. The struct is stored first, padding included, and the name and its
     terminator over the end of it. `pad` stands for the padding bytes, which the code leaves to chance.
     */
    method WriteEntry(e: Entry, pad: seq<byte>) returns (ok: bool)
      requires Valid() && |pad| == STRUCT_SIZE - NAME_OFFSET
      modifies this, buf
      ensures Valid()
      ensures ok <==> RecLen(|e.name|) <= buf.Length - old(offset)
      ensures written == old(written) + if ok then [e] else []
      ensures forall i :: 0 <= i < buf.Length && !(old(offset) <= i < offset) ==> buf[i] == old(buf[i])
    {
      var len := RecLen(|e.name|);
      if buf.Length - offset < len {
        return false;
      }
      ghost var prefix, es := buf[..offset], written;
      assert AreRecords(prefix, es);
      ghost var rec := AppendRecord(buf, offset, e, pad);
      assert buf[..offset + len] == prefix + rec;
      offset, written := offset + len, written + [e];
      RecordAdded(this, prefix, es, rec, e);
      ok := true;
    }
  }

  lemma RecordAdded(b: DirBuffer, prefix: seq<byte>, es: seq<Entry>, rec: seq<byte>, e: Entry)
    requires AreRecords(prefix, es) && IsRecord(rec, e) && |prefix| == Size(es)
    requires b.offset == |prefix| + |rec| <= b.buf.Length && b.buf[..b.offset] == prefix + rec
    requires b.written == es + [e]
    ensures b.Valid()
  {
    RecordsSnoc(prefix, es, rec, e);
    assert (es + [e])[..|es|] == es;
  }

  method AppendRecord(buf: array<byte>, offset: nat, e: Entry, pad: seq<byte>) returns (ghost rec: seq<byte>)
    requires offset + RecLen(|e.name|) <= buf.Length && |pad| == STRUCT_SIZE - NAME_OFFSET
    modifies buf
    ensures IsRecord(rec, e) && buf[offset..offset + RecLen(|e.name|)] == rec
    ensures forall i :: 0 <= i < buf.Length && !(offset <= i < offset + RecLen(|e.name|)) ==> buf[i] == old(buf[i])
  {
    var n, len := |e.name|, RecLen(|e.name|);
    StoreRecord(buf, offset, len, Header(len, e.kind, pad), e.name);
    rec := buf[offset..offset + len];
    ghost var h := Header(len, e.kind, pad);
    assert rec[NAME_OFFSET..NAME_OFFSET + n] == e.name;
    assert rec[..NAME_OFFSET][16] == h[16] && rec[..NAME_OFFSET][17] == h[17] && rec[..NAME_OFFSET][18] == h[18];
    assert rec[..16] == rec[..NAME_OFFSET][..16] == h[..16];
    LengthField(len);
  }

  /** The three raw stores of one record, in the order of the code. */
  method StoreRecord(a: array<byte>, at: nat, len: nat, h: seq<byte>, name: seq<byte>)
    requires |h| == STRUCT_SIZE <= len && NAME_OFFSET + |name| + 1 <= len && at + len <= a.Length
    modifies a
    ensures var rec := a[at..at + len];
            && rec[..NAME_OFFSET] == h[..NAME_OFFSET]
            && rec[NAME_OFFSET..NAME_OFFSET + |name|] == name && rec[NAME_OFFSET + |name|] == 0
    ensures a[..at] == old(a[..at]) && a[at + len..] == old(a[at + len..])
  {
    ghost var s := a[..];
    Put(a, at, h);
    ghost var s1 := a[..];
    Put(a, at + NAME_OFFSET, name);
    ghost var s2 := a[..];
    Put(a, at + NAME_OFFSET + |name|, [0]);
    ghost var s3 := a[..];
    RecordStored(s, s1, s2, s3, at, len, h, name);
    assert a[at..at + len] == s3[at..at + len] && a[..at] == s3[..at] && a[at + len..] == s3[at + len..];
  }

  /** `t` is `s` with `data` stored at `at`. */
  ghost predicate Stored(s: seq<byte>, t: seq<byte>, at: nat, data: seq<byte>) {
    && |s| == |t| && at + |data| <= |t|
    && t[at..at + |data|] == data && t[..at] == s[..at] && t[at + |data|..] == s[at + |data|..]
  }

  lemma StoredIndex(s: seq<byte>, t: seq<byte>, at: nat, data: seq<byte>, i: nat)
    requires Stored(s, t, at, data) && i < |t|
    ensures t[i] == if at <= i < at + |data| then data[i - at] else s[i]
  {
    if at <= i < at + |data| {
      assert t[at..at + |data|][i - at] == t[i];
    } else if i < at {
      assert t[..at][i] == s[..at][i];
    } else {
      assert t[at + |data|..][i - at - |data|] == s[at + |data|..][i - at - |data|];
    }
  }

  /** Struct `h`, name and terminator stored over each other in a space of `len` bytes. */
  lemma RecordStored(s: seq<byte>, s1: seq<byte>, s2: seq<byte>, s3: seq<byte>,
                     at: nat, len: nat, h: seq<byte>, name: seq<byte>)
    requires |h| == STRUCT_SIZE <= len && NAME_OFFSET + |name| + 1 <= len && at + len <= |s|
    requires Stored(s, s1, at, h)
    requires Stored(s1, s2, at + NAME_OFFSET, name)
    requires Stored(s2, s3, at + NAME_OFFSET + |name|, [0])
    ensures var rec := s3[at..at + len];
            && rec[..NAME_OFFSET] == h[..NAME_OFFSET]
            && rec[NAME_OFFSET..NAME_OFFSET + |name|] == name && rec[NAME_OFFSET + |name|] == 0
    ensures s3[..at] == s[..at] && s3[at + len..] == s[at + len..]
  {
    var rec, n := s3[at..at + len], |name|;
    forall i | 0 <= i < NAME_OFFSET
      ensures rec[i] == h[i]
    {
      StoredIndex(s, s1, at, h, at + i);
      StoredIndex(s1, s2, at + NAME_OFFSET, name, at + i);
      StoredIndex(s2, s3, at + NAME_OFFSET + n, [0], at + i);
    }
    forall i | 0 <= i < n
      ensures rec[NAME_OFFSET..NAME_OFFSET + n][i] == name[i]
    {
      StoredIndex(s1, s2, at + NAME_OFFSET, name, at + NAME_OFFSET + i);
      StoredIndex(s2, s3, at + NAME_OFFSET + n, [0], at + NAME_OFFSET + i);
    }
    StoredIndex(s2, s3, at + NAME_OFFSET + n, [0], at + NAME_OFFSET + n);
    forall i | 0 <= i < at || at + len <= i < |s|
      ensures s3[i] == s[i]
    {
      StoredIndex(s, s1, at, h, i);
      StoredIndex(s1, s2, at + NAME_OFFSET, name, i);
      StoredIndex(s2, s3, at + NAME_OFFSET + n, [0], i);
    }
  }

  /** Stores `data` at `at`, touching nothing else. */
  method Put(a: array<byte>, at: nat, data: seq<byte>)
    requires at + |data| <= a.Length
    modifies a
    ensures Stored(old(a[..]), a[..], at, data)
  {
    for i := 0 to |data|
      invariant a[at..at + i] == data[..i]
      invariant a[..at] == old(a[..at]) && a[at + i..] == old(a[at + i..])
    {
      a[at + i] := data[i];
    }
  }
}
