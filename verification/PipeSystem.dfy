/**
 Pipes, file-descriptor tables and the calls in flight, as one concurrent system. Every lock-held
 section and every change of a table is one atomic step; any number of threads interleave.
 Two kinds of reference-counted cell are tracked: file objects (`Arc<dyn FileLike>`) and pipe buffers
 (`Arc<Mutex<PipeRingBuffer>>`), the latter held by the pipe ends that are still alive.
 */
module PipeSystem {
  import opened Basics
  import opened RefCount
  import opened PipeRing
  import opened FdTable

  datatype File = PipeEnd(pipe: nat, readable: bool) | OtherFile

  datatype Heap = Heap(files: map<nat, Arc<File>>, bufs: map<nat, Arc<Ring>>)

  /** A byte in the ring, tagged with the write call that put it there. */
  datatype Placed = Placed(writer: nat, b: byte)

  /** A pipe ever made: its two file objects, and the history of bytes in and bytes out. */
  datatype Pipe = Pipe(r: nat, w: nat, accepted: seq<Placed>, delivered: seq<byte>)

  /** A write call that entered its loop: what it was given, how much it placed, what it returned. */
  datatype Write = Write(pipe: nat, data: seq<byte>, placed: nat, result: Option<nat>)

  datatype Errno = EBADF | EMFILE | EPERM | EPIPE

  datatype Ret =
    | Nothing
    | Got(chunk: seq<byte>)
    | Wrote(n: nat)
    | NewFd(fd: int)
    | NewPipe(readFd: nat, writeFd: nat)
    | Failed(errno: Errno)

  /** Where a thread stands inside a system call. */
  datatype Call =
    | Idle(ret: Ret)
    | Reading(obj: nat, want: nat)
    | WriteEntered(obj: nat, data: seq<byte>)      // before the check for a closed read end
    | Writing(obj: nat, id: nat)                   // in the retry loop
    | Leaving(obj: nat, result: Ret)               // result decided, file reference still held
    | DupGot(obj: nat)                             // dup: looked up, not yet added
    | PipeMade(r: nat, w: nat)                     // pipe2: both ends made, none added
    | PipeReadAdded(readFd: nat, w: nat)           // pipe2: read end added
    | PipeRollback(readFd: nat)                    // pipe2: write end refused, read end to be closed

  datatype Thread = Thread(table: nat, call: Call)

  datatype Sys = Sys(
    tables: seq<Slots>,
    threads: seq<Thread>,
    heap: Heap,
    nextObj: nat,
    pipes: seq<Pipe>,
    writes: seq<Write>)

  /** The file references a call in flight owns. */
  function Held(c: Call): seq<nat> {
    match c
    case Idle(_) => []
    case Reading(o, _) => [o]
    case WriteEntered(o, _) => [o]
    case Writing(o, _) => [o]
    case Leaving(o, _) => [o]
    case DupGot(o) => [o]
    case PipeMade(r, w) => [r, w]
    case PipeReadAdded(_, w) => [w]
    case PipeRollback(_) => []
  }

  // ---- Cloning and dropping file references ----

  function CloneFile(h: Heap, o: nat): Heap {
    if o in h.files then h.(files := CloneRef(h.files, o)) else h
  }

  /** Drops a file reference; a pipe end that dies drops its reference to the buffer. */
  function DropFile(h: Heap, o: nat): Heap {
    if o !in h.files then h else
    var files, f := DropRef(h.files, o), h.files[o].value;
    if o !in files && f.PipeEnd? && f.pipe in h.bufs
    then Heap(files, DropRef(h.bufs, f.pipe))
    else Heap(files, h.bufs)
  }

  function CloneAll(h: Heap, os: seq<nat>): Heap {
    if os == [] then h else CloneFile(CloneAll(h, os[..|os| - 1]), os[|os| - 1])
  }

  function DropAll(h: Heap, os: seq<nat>): Heap {
    if os == [] then h else DropFile(DropAll(h, os[..|os| - 1]), os[|os| - 1])
  }

  // ---- Steps ----

  datatype Action =
    | Spawn(t: nat)                                  // clone sharing the table
    | Fork(t: nat)                                   // clone with a copy of the table
    | Exit(t: nat)                                   // the last thread's table is cleared
    | Pipe2(t: nat)
    | AddFd(t: nat, slot: nat)                       // pipe2 and dup: a free slot is found
    | AddFull(t: nat)                                // pipe2 and dup: no slot is free
    | Rollback(t: nat)
    | DupGet(t: nat, fd: int)
    | Dup2(t: nat, oldFd: int, newFd: int)
    | Close(t: nat, fd: int)
    | ReadEnter(t: nat, fd: int, want: nat)
    | ReadSection(t: nat)
    | WriteEnter(t: nat, fd: int, data: seq<byte>)
    | WriteCheck(t: nat)
    | WriteSection(t: nat)
    | Leave(t: nat)

  function TableOf(s: Sys, t: nat): Slots
    requires t < |s.threads| && s.threads[t].table < |s.tables|
  {
    s.tables[s.threads[t].table]
  }

  function SetCall(s: Sys, t: nat, c: Call): Sys
    requires t < |s.threads|
  {
    s.(threads := s.threads[t := s.threads[t].(call := c)])
  }

  function SetTable(s: Sys, t: nat, slots: Slots): Sys
    requires t < |s.threads| && s.threads[t].table < |s.tables|
  {
    s.(tables := s.tables[s.threads[t].table := slots])
  }

  /** The file the next `add` of this call puts into the table. */
  function NextAdd(c: Call): Option<nat> {
    match c
    case PipeMade(r, _) => Some(r)
    case PipeReadAdded(_, w) => Some(w)
    case DupGot(o) => Some(o)
    case _ => None
  }

  function AfterAdd(c: Call, fd: nat): Call
    requires NextAdd(c).Some?
  {
    match c
    case PipeMade(_, w) => PipeReadAdded(fd, w)
    case PipeReadAdded(readFd, _) => Idle(NewPipe(readFd, fd))
    case DupGot(_) => Idle(NewFd(fd))
  }

  /** A refused `add` drops everything the call still owns; only pipe2's second add has more to do. */
  function AfterFull(c: Call): Call
    requires NextAdd(c).Some?
  {
    if c.PipeReadAdded? then PipeRollback(c.readFd) else Idle(Failed(EMFILE))
  }

  /** `o` is a live end of a pipe whose buffer is live too. */
  predicate IsEnd(s: Sys, o: nat, readable: bool) {
    var h := s.heap;
    && o in h.files && h.files[o].value.PipeEnd? && h.files[o].value.readable == readable
    && h.files[o].value.pipe in h.bufs && h.files[o].value.pipe < |s.pipes|
    && h.bufs[h.files[o].value.pipe].value.Valid()
  }

  /** `Pipe::closed`: only one end still refers to the buffer. */
  predicate Closed(h: Heap, p: nat)
    requires p in h.bufs
  {
    h.bufs[p].count == 1
  }

  predicate LookupIsPipe(s: Sys, t: nat, fd: int)
    requires t < |s.threads| && s.threads[t].table < |s.tables|
  {
    var o := Lookup(TableOf(s, t), fd);
    o.Some? ==> o.value in s.heap.files && s.heap.files[o.value].value.PipeEnd?
  }

  predicate Can(s: Sys, a: Action) {
    && a.t < |s.threads| && s.threads[a.t].table < |s.tables|
    && var c := s.threads[a.t].call;
    match a
    case Spawn(_) => c.Idle?
    case Fork(_) => c.Idle?
    case Exit(_) => c.Idle?
    case Pipe2(_) => c.Idle?
    case AddFd(t, fd) => NextAdd(c).Some? && IsFree(TableOf(s, t), fd)
    case AddFull(t) => NextAdd(c).Some? && IsFull(TableOf(s, t))
    case Rollback(t) => c.PipeRollback? && Lookup(TableOf(s, t), c.readFd).Some?
    case DupGet(_, _) => c.Idle?
    case Dup2(t, oldFd, newFd) => c.Idle? && !Dup2Result(TableOf(s, t), oldFd, newFd).Panics?
    case Close(_, _) => c.Idle?
    case ReadEnter(t, fd, _) => c.Idle? && LookupIsPipe(s, t, fd)
    case ReadSection(_) => c.Reading? && IsEnd(s, c.obj, true)
    case WriteEnter(t, fd, _) => c.Idle? && LookupIsPipe(s, t, fd)
    case WriteCheck(_) => c.WriteEntered? && IsEnd(s, c.obj, false)
    case WriteSection(_) =>
      && c.Writing? && IsEnd(s, c.obj, false)
      && c.id < |s.writes| && s.writes[c.id].placed <= |s.writes[c.id].data|
    case Leave(_) => c.Leaving?
  }

  function Do(s: Sys, a: Action): Sys
    requires Can(s, a)
  {
    match a
    case Spawn(t) => DoSpawn(s, t)
    case Fork(t) => DoFork(s, t)
    case Exit(t) => DoExit(s, t)
    case Pipe2(t) => DoPipe2(s, t)
    case AddFd(t, slot) => DoAddFd(s, t, slot)
    case AddFull(t) => DoAddFull(s, t)
    case Rollback(t) => DoRollback(s, t)
    case DupGet(t, fd) => DoDupGet(s, t, fd)
    case Dup2(t, oldFd, newFd) => DoDup2(s, t, oldFd, newFd)
    case Close(t, fd) => DoClose(s, t, fd)
    case ReadEnter(t, fd, want) => DoReadEnter(s, t, fd, want)
    case ReadSection(t) => DoReadSection(s, t)
    case WriteEnter(t, fd, data) => DoWriteEnter(s, t, fd, data)
    case WriteCheck(t) => DoWriteCheck(s, t)
    case WriteSection(t) => DoWriteSection(s, t)
    case Leave(t) => DoLeave(s, t)
  }

  function DoSpawn(s: Sys, t: nat): Sys
    requires Can(s, Spawn(t))
  {
    s.(threads := s.threads + [Thread(s.threads[t].table, Idle(Nothing))])
  }

  function DoFork(s: Sys, t: nat): Sys
    requires Can(s, Fork(t))
  {
    s.(tables := s.tables + [TableOf(s, t)],
       threads := s.threads + [Thread(|s.tables|, Idle(Nothing))],
       heap := CloneAll(s.heap, Objs(TableOf(s, t))))
  }

  function DoExit(s: Sys, t: nat): Sys
    requires Can(s, Exit(t))
  {
    SetTable(s, t, EmptySlots()).(heap := DropAll(s.heap, Objs(TableOf(s, t))))
  }

  function DoAddFd(s: Sys, t: nat, slot: nat): Sys
    requires Can(s, AddFd(t, slot))
  {
    var c := s.threads[t].call;
    SetCall(SetTable(s, t, TableOf(s, t)[slot := NextAdd(c)]), t, AfterAdd(c, slot))
  }

  function DoAddFull(s: Sys, t: nat): Sys
    requires Can(s, AddFull(t))
  {
    var c := s.threads[t].call;
    SetCall(s, t, AfterFull(c)).(heap := DropAll(s.heap, Held(c)))
  }

  /** Empties a slot and drops the file that was in it. */
  function CloseSlot(s: Sys, t: nat, fd: nat, ret: Ret): Sys
    requires t < |s.threads| && s.threads[t].table < |s.tables|
    requires fd < AX_FILE_LIMIT && TableOf(s, t)[fd].Some?
  {
    SetCall(SetTable(s, t, TableOf(s, t)[fd := None]), t, Idle(ret))
      .(heap := DropFile(s.heap, TableOf(s, t)[fd].value))
  }

  /** The compensating close of pipe2: whatever is at `readFd` by now is closed. */
  function DoRollback(s: Sys, t: nat): Sys
    requires Can(s, Rollback(t))
  {
    CloseSlot(s, t, s.threads[t].call.readFd, Failed(EMFILE))
  }

  function DoClose(s: Sys, t: nat, fd: int): Sys
    requires Can(s, Close(t, fd))
  {
    if Lookup(TableOf(s, t), fd).None? then SetCall(s, t, Idle(Failed(EBADF)))
    else CloseSlot(s, t, fd, Nothing)
  }

  /** Enters a call on the file at `fd`, holding a reference to it. */
  function Enter(s: Sys, t: nat, o: nat, c: Call): Sys
    requires t < |s.threads|
  {
    SetCall(s, t, c).(heap := CloneFile(s.heap, o))
  }

  function DoDupGet(s: Sys, t: nat, fd: int): Sys
    requires Can(s, DupGet(t, fd))
  {
    var o := Lookup(TableOf(s, t), fd);
    if o.None? then SetCall(s, t, Idle(Failed(EBADF))) else Enter(s, t, o.value, DupGot(o.value))
  }

  function DoReadEnter(s: Sys, t: nat, fd: int, want: nat): Sys
    requires Can(s, ReadEnter(t, fd, want))
  {
    var o := Lookup(TableOf(s, t), fd);
    if o.None? then SetCall(s, t, Idle(Failed(EBADF)))
    else if !s.heap.files[o.value].value.readable then Enter(s, t, o.value, Leaving(o.value, Failed(EPERM)))
    else if want == 0 then Enter(s, t, o.value, Leaving(o.value, Got([])))
    else Enter(s, t, o.value, Reading(o.value, want))
  }

  function DoWriteEnter(s: Sys, t: nat, fd: int, data: seq<byte>): Sys
    requires Can(s, WriteEnter(t, fd, data))
  {
    var o := Lookup(TableOf(s, t), fd);
    if o.None? then SetCall(s, t, Idle(Failed(EBADF)))
    else if s.heap.files[o.value].value.readable then Enter(s, t, o.value, Leaving(o.value, Failed(EPERM)))
    else Enter(s, t, o.value, WriteEntered(o.value, data))
  }

  /** The check for a closed read end comes before the one for an empty buffer, without the lock. */
  function DoWriteCheck(s: Sys, t: nat): Sys
    requires Can(s, WriteCheck(t))
  {
    var c := s.threads[t].call;
    var p := s.heap.files[c.obj].value.pipe;
    if Closed(s.heap, p) then SetCall(s, t, Leaving(c.obj, Failed(EPIPE)))
    else if c.data == [] then SetCall(s, t, Leaving(c.obj, Wrote(0)))
    else SetCall(s, t, Writing(c.obj, |s.writes|)).(writes := s.writes + [Write(p, c.data, 0, None)])
  }

  function DoLeave(s: Sys, t: nat): Sys
    requires Can(s, Leave(t))
  {
    var c := s.threads[t].call;
    SetCall(s, t, Idle(c.result)).(heap := DropFile(s.heap, c.obj))
  }

  /** `Pipe::new`: two file objects sharing one buffer, owned by the call until they are added. */
  function DoPipe2(s: Sys, t: nat): Sys
    requires Can(s, Pipe2(t))
  {
    var r, w, p := s.nextObj, s.nextObj + 1, |s.pipes|;
    var files := s.heap.files[r := Arc(1, PipeEnd(p, true))][w := Arc(1, PipeEnd(p, false))];
    SetCall(s, t, PipeMade(r, w))
      .(heap := Heap(files, s.heap.bufs[p := Arc(2, NewRing())]),
        nextObj := s.nextObj + 2,
        pipes := s.pipes + [Pipe(r, w, [], [])])
  }

  function DoDup2(s: Sys, t: nat, oldFd: int, newFd: int): Sys
    requires Can(s, Dup2(t, oldFd, newFd))
  {
    var slots := TableOf(s, t);
    if Dup2Result(slots, oldFd, newFd).BadFd? then SetCall(s, t, Idle(Failed(EBADF)))
    else if oldFd == newFd then SetCall(s, t, Idle(NewFd(newFd)))
    else
      SetCall(SetTable(s, t, Dup2Slots(slots, oldFd, newFd)), t, Idle(NewFd(newFd)))
        .(heap := DropAll(CloneFile(s.heap, slots[oldFd].value), Entry(slots[newFd])))
  }

  /** One pass of the read loop with the buffer locked. */
  function DoReadSection(s: Sys, t: nat): Sys
    requires Can(s, ReadSection(t))
  {
    var c := s.threads[t].call;
    var p := s.heap.files[c.obj].value.pipe;
    var ring := s.heap.bufs[p].value;
    var n := Min(ring.AvailableRead(), c.want);
    if n == 0 then
      if Closed(s.heap, p) then SetCall(s, t, Leaving(c.obj, Got([]))) else s
    else
      var chunk := ring.Contents()[..n];
      SetCall(s, t, Leaving(c.obj, Got(chunk)))
        .(heap := SetRing(s.heap, p, DropBytes(ring, n)),
          pipes := s.pipes[p := s.pipes[p].(delivered := s.pipes[p].delivered + chunk)])
  }

  /**
   One pass of the write loop with the buffer locked. The pass returns from inside only when room is
   left over after the last byte; one that fills the ring exactly goes round again.
   */
  function DoWriteSection(s: Sys, t: nat): Sys
    requires Can(s, WriteSection(t))
  {
    var c := s.threads[t].call;
    var p := s.heap.files[c.obj].value.pipe;
    var ring, w := s.heap.bufs[p].value, s.writes[c.id];
    var room, rest := ring.AvailableWrite(), |w.data| - w.placed;
    if room == 0 then
      if Closed(s.heap, p) then FinishWrite(s, t, w.placed) else s
    else
      var n := Min(room, rest);
      var s' := PlaceChunk(s, p, c.id, n);
      if rest < room then FinishWrite(s', t, w.placed + n) else s'
  }

  /** The next `n` bytes of write call `id` enter the ring of pipe `p`. */
  function PlaceChunk(s: Sys, p: nat, id: nat, n: nat): Sys
    requires p in s.heap.bufs && s.heap.bufs[p].value.Valid() && p < |s.pipes| && id < |s.writes|
    requires s.writes[id].placed + n <= |s.writes[id].data|
  {
    var w := s.writes[id];
    var chunk := w.data[w.placed..w.placed + n];
    s.(
    heap := SetRing(s.heap, p, PutAll(s.heap.bufs[p].value, chunk)),
    pipes := s.pipes[p := s.pipes[p].(accepted := s.pipes[p].accepted + Tag(id, chunk))],
    writes := s.writes[id := w.(placed := w.placed + n)])
  }

  function FinishWrite(s: Sys, t: nat, n: nat): Sys
    requires t < |s.threads| && s.threads[t].call.Writing? && s.threads[t].call.id < |s.writes|
  {
    var c := s.threads[t].call;
    SetCall(s, t, Leaving(c.obj, Wrote(n))).(writes := s.writes[c.id := s.writes[c.id].(result := Some(n))])
  }

  function SetRing(h: Heap, p: nat, r: Ring): Heap
    requires p in h.bufs
  {
    h.(bufs := h.bufs[p := h.bufs[p].(value := r)])
  }

  function Tag(id: nat, data: seq<byte>): seq<Placed> {
    seq(|data|, i requires 0 <= i < |data| => Placed(id, data[i]))
  }

  // ---- Runs ----

  /** The state a run leads to, if every one of its steps could be taken. */
  ghost function Run(s: Sys, run: seq<Action>): Option<Sys> {
    if run == [] then Some(s) else
    var m := Run(s, run[..|run| - 1]);
    if m.Some? && Can(m.value, run[|run| - 1]) then Some(Do(m.value, run[|run| - 1])) else None
  }

  ghost function TableRefs(tables: seq<Slots>, o: nat): nat {
    if tables == [] then 0
    else TableRefs(tables[..|tables| - 1], o) + Occ(Objs(tables[|tables| - 1]), o)
  }

  ghost function CallRefs(threads: seq<Thread>, o: nat): nat {
    if threads == [] then 0
    else CallRefs(threads[..|threads| - 1], o) + Occ(Held(threads[|threads| - 1].call), o)
  }

  /** All references to file `o`: from the slots of every table and from the calls in flight. */
  ghost function Refs(s: Sys, o: nat): nat {
    TableRefs(s.tables, o) + CallRefs(s.threads, o)
  }

  /** A process with any files open that are not pipes, and nothing in flight. */
  ghost predicate Init(s: Sys) {
    && |s.tables| == 1
    && s.threads == [Thread(0, Idle(Nothing))]
    && s.heap.bufs == map[] && s.pipes == [] && s.writes == []
    && (forall o :: o in s.heap.files ==> o < s.nextObj && s.heap.files[o].value.OtherFile?)
    && (forall o: nat :: Exact(s.heap.files, o, Refs(s, o)))
  }
}
