/**
 The ring buffer behind a pipe (`PipeRingBuffer`). `Ring` is its value; the class updates the same
 fields in place and is proved against it, one byte at a time and over whole lock-held sections.
 */
module PipeRing {
  import opened Basics

  const RING_BUFFER_SIZE: nat := 256

  datatype Status = Full | Empty | Normal

  datatype Ring = Ring(arr: seq<byte>, head: nat, tail: nat, status: Status) {

    /** Head and tail meet exactly when the ring is empty or full. */
    predicate Valid() {
      && |arr| == RING_BUFFER_SIZE
      && head < RING_BUFFER_SIZE
      && tail < RING_BUFFER_SIZE
      && (head == tail <==> !status.Normal?)
    }

    function AvailableRead(): nat
      requires Valid()
    {
      if status.Empty? then 0
      else if tail > head then tail - head
      else tail + RING_BUFFER_SIZE - head
    }

    function AvailableWrite(): nat
      requires Valid()
    {
      if status.Full? then 0 else RING_BUFFER_SIZE - AvailableRead()
    }

    function WriteByte(b: byte): Ring
      requires |arr| == RING_BUFFER_SIZE && tail < RING_BUFFER_SIZE
    {
      var tail' := (tail + 1) % RING_BUFFER_SIZE;
      Ring(arr[tail := b], head, tail', if tail' == head then Full else Normal)
    }

    function PeekByte(): byte
      requires |arr| == RING_BUFFER_SIZE && head < RING_BUFFER_SIZE
    {
      arr[head]
    }

    function ReadByte(): Ring
      requires head < RING_BUFFER_SIZE
    {
      var head' := (head + 1) % RING_BUFFER_SIZE;
      Ring(arr, head', tail, if head' == tail then Empty else Normal)
    }

    /** The bytes held, oldest first. */
    function Contents(): seq<byte>
      requires Valid()
    {
      seq(AvailableRead(), i requires 0 <= i => arr[(head + i) % RING_BUFFER_SIZE])
    }
  }

  function NewRing(): (r: Ring)
    ensures r.Valid() && r.Contents() == []
  {
    Ring(seq(RING_BUFFER_SIZE, _ => 0), 0, 0, Empty)
  }

  /** Free and used space always add up to the capacity. */
  lemma SpaceIsConserved(r: Ring)
    requires r.Valid()
    ensures r.AvailableRead() + r.AvailableWrite() == RING_BUFFER_SIZE
    ensures |r.Contents()| == r.AvailableRead() <= RING_BUFFER_SIZE
    ensures r.status.Empty? <==> r.Contents() == []
    ensures r.status.Full? <==> |r.Contents()| == RING_BUFFER_SIZE
  {
  }

  lemma WriteByteAppends(r: Ring, b: byte)
    requires r.Valid() && |r.Contents()| < RING_BUFFER_SIZE
    ensures r.WriteByte(b).Valid()
    ensures r.WriteByte(b).Contents() == r.Contents() + [b]
  {
  }

  lemma ReadByteTakesFirst(r: Ring)
    requires r.Valid() && r.Contents() != []
    ensures r.ReadByte().Valid()
    ensures r.Contents() == [r.PeekByte()] + r.ReadByte().Contents()
  {
  }

  /** Writing a byte too many or reading one too few corrupts the ring: neither method checks. */
  lemma UncheckedBytesCorrupt(r: Ring, b: byte)
    requires r.Valid()
    ensures r.status.Full? ==> |r.WriteByte(b).Contents()| == 1
    ensures r.status.Empty? ==> |r.ReadByte().Contents()| == RING_BUFFER_SIZE - 1
  {
  }

  // ---- Whole lock-held sections ----

  /** The ring after `data` has been written byte by byte. */
  function PutAll(r: Ring, data: seq<byte>): Ring
    requires |r.arr| == RING_BUFFER_SIZE && r.tail < RING_BUFFER_SIZE
    decreases |data|
  {
    if data == [] then r else PutAll(r.WriteByte(data[0]), data[1..])
  }

  /** The ring after `n` bytes have been read. */
  function DropBytes(r: Ring, n: nat): Ring
    requires r.head < RING_BUFFER_SIZE
    decreases n
  {
    if n == 0 then r else DropBytes(r.ReadByte(), n - 1)
  }

  lemma {:induction false} PutAllAppends(r: Ring, data: seq<byte>)
    requires r.Valid() && |r.Contents()| + |data| <= RING_BUFFER_SIZE
    ensures PutAll(r, data).Valid()
    ensures PutAll(r, data).Contents() == r.Contents() + data
    decreases |data|
  {
    if data != [] {
      WriteByteAppends(r, data[0]);
      PutAllAppends(r.WriteByte(data[0]), data[1..]);
      assert data == [data[0]] + data[1..];
    }
  }

  lemma {:induction false} DropBytesTakesPrefix(r: Ring, n: nat)
    requires r.Valid() && n <= |r.Contents()|
    ensures DropBytes(r, n).Valid()
    ensures DropBytes(r, n).Contents() == r.Contents()[n..]
    decreases n
  {
    if n > 0 {
      ReadByteTakesFirst(r);
      DropBytesTakesPrefix(r.ReadByte(), n - 1);
    }
  }

  lemma {:induction false} PutAllSnoc(r: Ring, data: seq<byte>, b: byte)
    requires |r.arr| == RING_BUFFER_SIZE && r.tail < RING_BUFFER_SIZE
    ensures |PutAll(r, data).arr| == RING_BUFFER_SIZE && PutAll(r, data).tail < RING_BUFFER_SIZE
    ensures PutAll(r, data + [b]) == PutAll(r, data).WriteByte(b)
    decreases |data|
  {
    if data != [] {
      assert (data + [b])[1..] == data[1..] + [b];
      PutAllSnoc(r.WriteByte(data[0]), data[1..], b);
    }
  }

  lemma {:induction false} DropBytesSnoc(r: Ring, n: nat)
    requires r.head < RING_BUFFER_SIZE
    ensures DropBytes(r, n).head < RING_BUFFER_SIZE
    ensures DropBytes(r, n + 1) == DropBytes(r, n).ReadByte()
    decreases n
  {
    if n > 0 {
      DropBytesSnoc(r.ReadByte(), n - 1);
    }
  }

  // ---- The buffer as the code holds it ----

  class PipeRingBuffer {
    const arr: array<byte>
    var head: nat
    var tail: nat
    var status: Status

    function Value(): Ring
      reads this, arr
    {
      Ring(arr[..], head, tail, status)
    }

    constructor ()
      ensures fresh(arr)
      ensures Value() == NewRing()
    {
      arr := new byte[RING_BUFFER_SIZE](_ => 0);
      head, tail, status := 0, 0, Empty;
      new;
      assert arr[..] == NewRing().arr;
    }

    method WriteByte(b: byte)
      requires Value().Valid() && |Value().Contents()| < RING_BUFFER_SIZE
      modifies this, arr
      ensures Value() == old(Value()).WriteByte(b)
      ensures Value().Valid() && Value().Contents() == old(Value().Contents()) + [b]
    {
      WriteByteAppends(Value(), b);
      status := Normal;
      arr[tail] := b;
      tail := (tail + 1) % RING_BUFFER_SIZE;
      if tail == head {
        status := Full;
      }
    }

    method ReadByte() returns (c: byte)
      requires Value().Valid() && Value().Contents() != []
      modifies this
      ensures Value() == old(Value()).ReadByte()
      ensures Value().Valid() && old(Value().Contents()) == [c] + Value().Contents()
    {
      ReadByteTakesFirst(Value());
      status := Normal;
      c := arr[head];
      head := (head + 1) % RING_BUFFER_SIZE;
      if head == tail {
        status := Empty;
      }
    }

    /** The lock-held part of `read`: moves as much as both sides allow into `buf`. */
    method ReadSection(buf: array<byte>) returns (readSize: nat)
      requires Value().Valid() && buf != arr
      modifies this, buf
      ensures readSize == Min(old(|Value().Contents()|), buf.Length)
      ensures Value() == DropBytes(old(Value()), readSize)
      ensures Value().Valid() && old(Value().Contents()) == buf[..readSize] + Value().Contents()
      ensures buf[readSize..] == old(buf[readSize..])
    {
      ghost var r0 := Value();
      ghost var had := r0.Contents();
      SpaceIsConserved(r0);
      readSize := Min(Value().AvailableRead(), buf.Length);
      for i := 0 to readSize
        invariant Value() == DropBytes(r0, i)
        invariant buf[..i] == had[..i]
        invariant buf[i..] == old(buf[i..])
      {
        DropBytesTakesPrefix(r0, i);
        DropBytesSnoc(r0, i);
        var c := ReadByte();
        assert c == had[i..][0];
        buf[i] := c;
      }
      DropBytesTakesPrefix(r0, readSize);
    }

    /**
     The lock-held part of `write`: one pass of the retry loop, run when there is room.
     `finished` says whether the call returns from inside the pass. The test for the end of the
     data comes before each byte, so a pass that uses up the last free byte does not return.
     */
    method WriteSection(buf: seq<byte>, written: nat) returns (writeSize: nat, finished: bool)
      requires Value().Valid() && |Value().Contents()| < RING_BUFFER_SIZE
      requires written <= |buf|
      modifies this, arr
      ensures written <= writeSize <= |buf|
      ensures writeSize - written == Min(|buf| - written, RING_BUFFER_SIZE - old(|Value().Contents()|))
      ensures Value() == PutAll(old(Value()), buf[written..writeSize])
      ensures Value().Valid() && Value().Contents() == old(Value().Contents()) + buf[written..writeSize]
      ensures finished <==> |buf| - written < RING_BUFFER_SIZE - old(|Value().Contents()|)
    {
      SpaceIsConserved(Value());
      writeSize, finished := written, false;
      var loopWrite := Value().AvailableWrite();
      var i := 0;
      while i < loopWrite
        invariant 0 <= i <= loopWrite && writeSize == written + i <= |buf|
        invariant Value().Valid()
        invariant Value() == PutAll(old(Value()), buf[written..writeSize])
        invariant Value().Contents() == old(Value().Contents()) + buf[written..writeSize]
      {
        if writeSize == |buf| {
          finished := true;
          return;
        }
        PutAllSnoc(old(Value()), buf[written..writeSize], buf[writeSize]);
        assert buf[written..writeSize + 1] == buf[written..writeSize] + [buf[writeSize]];
        WriteByte(buf[writeSize]);
        writeSize := writeSize + 1;
        i := i + 1;
      }
    }
  }
}
