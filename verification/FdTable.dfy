/**
 The file-descriptor table: a fixed row of slots, each empty or holding a reference to a file.
 Files are named by identifiers; their reference counts are kept in `PipeSystem`.
 */
module FdTable {
  import opened Basics
  import opened RefCount

  const AX_FILE_LIMIT: nat := 1024

  type Slots = s: seq<Option<nat>> | |s| == AX_FILE_LIMIT witness seq(AX_FILE_LIMIT, _ => None)

  /** The file at `fd`; a descriptor outside the table, negative ones included, names nothing. */
  function Lookup(s: Slots, fd: int): Option<nat> {
    if 0 <= fd < AX_FILE_LIMIT then s[fd] else None
  }

  predicate IsFree(s: Slots, fd: nat) {
    fd < AX_FILE_LIMIT && s[fd].None?
  }

  predicate IsFull(s: Slots) {
    forall fd :: 0 <= fd < AX_FILE_LIMIT ==> s[fd].Some?
  }

  function EmptySlots(): Slots {
    seq(AX_FILE_LIMIT, _ => None)
  }

  /** The references held by the slots, in slot order. */
  function Objs(s: seq<Option<nat>>): seq<nat> {
    if s == [] then [] else Objs(s[..|s| - 1]) + Entry(s[|s| - 1])
  }

  function Entry(x: Option<nat>): seq<nat> {
    if x.Some? then [x.value] else []
  }

  lemma ObjsSnoc(s: seq<Option<nat>>, o: nat)
    requires s != []
    ensures Occ(Objs(s), o) == Occ(Objs(s[..|s| - 1]), o) + Occ(Entry(s[|s| - 1]), o)
  {
    OccConcat(Objs(s[..|s| - 1]), Entry(s[|s| - 1]), o);
  }

  lemma {:induction false} ObjsUpdate(s: seq<Option<nat>>, i: nat, x: Option<nat>, o: nat)
    requires i < |s|
    ensures Occ(Objs(s[i := x]), o) + Occ(Entry(s[i]), o) == Occ(Objs(s), o) + Occ(Entry(x), o)
  {
    var n, u := |s| - 1, s[i := x];
    ObjsSnoc(s, o);
    ObjsSnoc(u, o);
    if i < n {
      assert u[..n] == s[..n][i := x] && u[n] == s[n];
      ObjsUpdate(s[..n], i, x, o);
    } else {
      assert u[..n] == s[..n];
    }
  }

  lemma {:induction false} ObjsMember(s: seq<Option<nat>>, o: nat)
    ensures o in Objs(s) <==> exists i :: 0 <= i < |s| && s[i] == Some(o)
  {
    if s != [] {
      var n := |s| - 1;
      ObjsMember(s[..n], o);
      if o in Objs(s[..n]) {
        var i :| 0 <= i < n && s[..n][i] == Some(o);
        assert s[i] == Some(o);
      }
      if exists i :: 0 <= i < |s| && s[i] == Some(o) {
        var i :| 0 <= i < |s| && s[i] == Some(o);
        assert i < n ==> s[..n][i] == Some(o);
      }
    }
  }

  lemma {:induction false} ObjsOfEmpty(s: seq<Option<nat>>)
    requires forall i :: 0 <= i < |s| ==> s[i].None?
    ensures Objs(s) == []
  {
    if s != [] {
      ObjsOfEmpty(s[..|s| - 1]);
    }
  }

  // ---- dup2 on slots ----

  datatype Dup2Outcome = Duplicated | BadFd | Panics

  /** What `sys_dup2` does: the old descriptor is looked up first, the new one is never range-checked. */
  function Dup2Result(s: Slots, oldFd: int, newFd: int): Dup2Outcome {
    if Lookup(s, oldFd).None? then BadFd
    else if oldFd != newFd && !(0 <= newFd < AX_FILE_LIMIT) then Panics
    else Duplicated
  }

  function Dup2Slots(s: Slots, oldFd: int, newFd: int): Slots
    requires Dup2Result(s, oldFd, newFd).Duplicated?
  {
    if oldFd == newFd then s else s[newFd := s[oldFd]]
  }

  // ---- The table as the code holds it ----

  class Table {
    const slots: array<Option<nat>>

    ghost predicate Valid()
      reads this
    {
      slots.Length == AX_FILE_LIMIT
    }

    function Value(): Slots
      requires Valid()
      reads this, slots
    {
      slots[..]
    }

    constructor ()
      ensures Valid() && fresh(slots) && Value() == EmptySlots()
    {
      slots := new Option<nat>[AX_FILE_LIMIT](_ => None);
      new;
      assert slots[..] == EmptySlots();
    }

    /** Puts a file in the lowest free slot, or reports a full table. */
    method Add(o: nat) returns (fd: Option<nat>)
      requires Valid()
      modifies slots
      ensures fd.None? <==> IsFull(old(Value()))
      ensures fd.None? ==> Value() == old(Value())
      ensures fd.Some? ==> IsFree(old(Value()), fd.value) && Value() == old(Value())[fd.value := Some(o)]
    {
      var i := 0;
      while i < AX_FILE_LIMIT
        invariant 0 <= i <= AX_FILE_LIMIT
        invariant forall j :: 0 <= j < i ==> slots[..][j].Some?
        invariant slots[..] == old(slots[..])
      {
        if slots[i].None? {
          slots[i] := Some(o);
          return Some(i);
        }
        i := i + 1;
      }
      fd := None;
    }

    method Close(fd: int) returns (closed: Option<nat>)
      requires Valid()
      modifies slots
      ensures closed == Lookup(old(Value()), fd)
      ensures Value() == if closed.Some? then old(Value())[fd := None] else old(Value())
    {
      if 0 <= fd < AX_FILE_LIMIT {
        closed := slots[fd];
        slots[fd] := None;
      } else {
        closed := None;
      }
    }

    method Dup2(oldFd: int, newFd: int) returns (r: Dup2Outcome)
      requires Valid()
      modifies slots
      ensures r == Dup2Result(old(Value()), oldFd, newFd)
      ensures Value() == if r.Duplicated? then Dup2Slots(old(Value()), oldFd, newFd) else old(Value())
      ensures r.Duplicated? ==> Lookup(Value(), newFd) == Lookup(old(Value()), oldFd) != None
      ensures forall fd: int :: fd != newFd ==> Lookup(Value(), fd) == Lookup(old(Value()), fd)
      ensures r.Panics? <==> Lookup(old(Value()), oldFd).Some? && !(0 <= newFd < AX_FILE_LIMIT)
    {
      var f := Lookup(slots[..], oldFd);
      if f.None? {
        return BadFd;
      }
      if oldFd != newFd {
        var _ := Close(newFd);
        if !(0 <= newFd < AX_FILE_LIMIT) {
          return Panics;
        }
        slots[newFd] := f;
      }
      r := Duplicated;
    }

    /** `copy_inner`: the table a forked process starts with. */
    method CopyInner() returns (copy: Table)
      requires Valid()
      ensures copy.Valid() && fresh(copy) && fresh(copy.slots) && copy.Value() == Value()
    {
      copy := new Table();
      for id := 0 to AX_FILE_LIMIT
        invariant copy.Valid() && slots[..] == old(slots[..])
        invariant copy.slots[..id] == slots[..id]
        invariant forall i :: id <= i < AX_FILE_LIMIT ==> copy.slots[i].None?
      {
        if slots[id].Some? {
          copy.slots[id] := slots[id];
        }
      }
    }

    method Clear()
      requires Valid()
      modifies slots
      ensures Value() == EmptySlots()
    {
      for id := 0 to AX_FILE_LIMIT
        invariant forall i :: 0 <= i < id ==> slots[i].None?
      {
        if slots[id].Some? {
          slots[id] := None;
        }
      }
    }
  }
}
