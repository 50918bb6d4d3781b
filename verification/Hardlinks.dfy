/**
 The hardlink manager: a map from link to target, and for each target a cached count of its links.
 What the file system holds is a parameter; attempts to remove a file are logged.
 */
module Hardlinks {
  import opened Basics

  type Path = string

  datatype State = State(links: map<Path, Path>, counts: map<Path, nat>, removals: seq<Path>)

  /** The links that point to `d`. */
  function LinksTo(links: map<Path, Path>, d: Path): set<Path> {
    set s | s in links && links[s] == d
  }

  /** The cache is right: a target is listed with the number of its links, and only if it has any. */
  ghost predicate Consistent(links: map<Path, Path>, counts: map<Path, nat>) {
    forall d: Path ::
      && (d in counts <==> LinksTo(links, d) != {})
      && (d in counts ==> counts[d] == |LinksTo(links, d)|)
  }

  // ---- Steps on values ----

  /** `decrease_ref_count`; a target that is not listed is reported and left alone. */
  function Decrease(s: State, d: Path): State {
    if d !in s.counts then s
    else if s.counts[d] <= 1 then s.(counts := s.counts - {d}, removals := s.removals + [d])
    else s.(counts := s.counts[d := s.counts[d] - 1])
  }

  function Increase(counts: map<Path, nat>, d: Path): map<Path, nat> {
    counts[d := (if d in counts then counts[d] else 0) + 1]
  }

  datatype Op = Update(src: Path, dst: Path) | Remove(src: Path)

  function Apply(s: State, op: Op): State {
    match op
    case Update(src, dst) =>
      if src in s.links && s.links[src] == dst then s else
      var m := if src in s.links then Decrease(s, s.links[src]) else s;
      m.(links := s.links[src := dst], counts := Increase(m.counts, dst))
    case Remove(src) =>
      if src !in s.links then s
      else Decrease(s.(links := s.links - {src}), s.links[src])
  }

  // ---- One link fewer, one link more ----

  lemma LinksToWithout(links: map<Path, Path>, src: Path, d: Path)
    requires src in links
    ensures LinksTo(links - {src}, d) == LinksTo(links, d) - {src}
    ensures |LinksTo(links - {src}, d)| == |LinksTo(links, d)| - if links[src] == d then 1 else 0
  {
    assert LinksTo(links - {src}, d) == LinksTo(links, d) - {src};
  }

  lemma LinksToWith(links: map<Path, Path>, src: Path, dst: Path, d: Path)
    requires src !in links
    ensures LinksTo(links[src := dst], d) == LinksTo(links, d) + if dst == d then {src} else {}
    ensures |LinksTo(links[src := dst], d)| == |LinksTo(links, d)| + if dst == d then 1 else 0
  {
    assert LinksTo(links[src := dst], d) == LinksTo(links, d) + if dst == d then {src} else {};
    assert src !in LinksTo(links, d);
  }

  /** The decrement never underflows, never meets an unlisted target, and removes the file with the last link. */
  lemma DropLink(s: State, src: Path)
    requires Consistent(s.links, s.counts) && src in s.links
    ensures s.links[src] in s.counts && s.counts[s.links[src]] >= 1
    ensures Consistent(s.links - {src}, Decrease(s, s.links[src]).counts)
    ensures Decrease(s, s.links[src]).removals
         == s.removals + if LinksTo(s.links - {src}, s.links[src]) == {} then [s.links[src]] else []
  {
    var target, counts' := s.links[src], Decrease(s, s.links[src]).counts;
    assert src in LinksTo(s.links, target);
    LinksToWithout(s.links, src, target);
    forall d: Path
      ensures d in counts' <==> LinksTo(s.links - {src}, d) != {}
      ensures d in counts' ==> counts'[d] == |LinksTo(s.links - {src}, d)|
    {
      LinksToWithout(s.links, src, d);
      assert d in s.counts <==> LinksTo(s.links, d) != {};
    }
  }

  lemma AddLink(links: map<Path, Path>, counts: map<Path, nat>, src: Path, dst: Path)
    requires src !in links && Consistent(links, counts)
    ensures Consistent(links[src := dst], Increase(counts, dst))
  {
    var counts' := Increase(counts, dst);
    forall d: Path
      ensures d in counts' <==> LinksTo(links[src := dst], d) != {}
      ensures d in counts' ==> counts'[d] == |LinksTo(links[src := dst], d)|
    {
      LinksToWith(links, src, dst, d);
      assert d in counts <==> LinksTo(links, d) != {};
    }
  }

  /** Every update and removal keeps the cache right. */
  lemma ApplyKeepsConsistent(s: State, op: Op)
    requires Consistent(s.links, s.counts)
    ensures Consistent(Apply(s, op).links, Apply(s, op).counts)
  {
    match op
    case Remove(src) =>
      if src in s.links {
        DropLink(s, src);
      }
    case Update(src, dst) =>
      if src !in s.links {
        AddLink(s.links, s.counts, src, dst);
      } else if s.links[src] != dst {
        DropLink(s, src);
        AddLink(s.links - {src}, Decrease(s, s.links[src]).counts, src, dst);
        assert (s.links - {src})[src := dst] == s.links[src := dst];
      }
  }

  ghost predicate LosesLastLink(s: State, op: Op, d: Path) {
    LinksTo(s.links, d) != {} && LinksTo(Apply(s, op).links, d) == {}
  }

  ghost function Times(xs: seq<Path>, d: Path): nat {
    if xs == [] then 0 else Times(xs[..|xs| - 1], d) + if xs[|xs| - 1] == d then 1 else 0
  }

  lemma TimesSnoc(xs: seq<Path>, x: Path, d: Path)
    ensures Times(xs + [x], d) == Times(xs, d) + if x == d then 1 else 0
  {
    assert (xs + [x])[..|xs|] == xs;
  }

  /** The targets left without a link when `src` is taken away. */
  lemma LastLinkIs(links: map<Path, Path>, src: Path, d: Path)
    requires src in links
    ensures LinksTo(links, d) != {} && LinksTo(links - {src}, d) == {}
            <==> d == links[src] && LinksTo(links - {src}, links[src]) == {}
  {
    LinksToWithout(links, src, d);
    assert src in LinksTo(links, links[src]);
  }

  /** A step attempts to remove a target exactly if it takes away its last link, and then once. */
  lemma RemovalMeansLastLink(s: State, op: Op, d: Path)
    requires Consistent(s.links, s.counts)
    ensures Times(Apply(s, op).removals, d) == Times(s.removals, d) + if LosesLastLink(s, op, d) then 1 else 0
  {
    var src := op.src;
    if src !in s.links {
      if op.Update? {
        LinksToWith(s.links, src, op.dst, d);
      }
    } else if op.Remove? || s.links[src] != op.dst {
      DropLink(s, src);
      LastLinkIs(s.links, src, d);
      TimesSnoc(s.removals, s.links[src], d);
      if op.Update? {
        var rest := s.links - {src};
        assert rest[src := op.dst] == s.links[src := op.dst];
        LinksToWith(rest, src, op.dst, d);
        LinksToWith(rest, src, op.dst, s.links[src]);
        if d == op.dst {
          assert src in LinksTo(rest[src := op.dst], d);
        }
      }
    }
  }

  // ---- Any sequence of operations ----

  ghost function Run(s: State, ops: seq<Op>): State {
    if ops == [] then s else Apply(Run(s, ops[..|ops| - 1]), ops[|ops| - 1])
  }

  const EMPTY: State := State(map[], map[], [])

  /** How many of the operations take away the last link to `d`. */
  ghost function LastLinksLost(s: State, ops: seq<Op>, d: Path): nat {
    if ops == [] then 0
    else LastLinksLost(s, ops[..|ops| - 1], d)
         + if LosesLastLink(Run(s, ops[..|ops| - 1]), ops[|ops| - 1], d) then 1 else 0
  }

  /**
   After any operations, every count is the number of links to its target, and removal of a target
   was attempted as often as its last link went.
   */
  lemma {:induction false} CountsFollowLinks(ops: seq<Op>, d: Path)
    ensures var s := Run(EMPTY, ops);
            && Consistent(s.links, s.counts)
            && Times(s.removals, d) == LastLinksLost(EMPTY, ops, d)
  {
    if ops != [] {
      var n := |ops| - 1;
      var m := Run(EMPTY, ops[..n]);
      CountsFollowLinks(ops[..n], d);
      ApplyKeepsConsistent(m, ops[n]);
      RemovalMeansLastLink(m, ops[n], d);
    }
  }

  // ---- The system calls: every name is resolved first ----

  /** One step of resolution, as `FilePath::new` does it for every name: links are not followed further. */
  function RealPath(links: map<Path, Path>, name: Path): Path {
    if name in links then links[name] else name
  }

  /** `FilePath::is_dir` goes by the trailing slash. */
  predicate IsDirName(path: Path) {
    path != "" && path[|path| - 1] == '/'
  }

  lemma DirNames(p: Path, c: char)
    ensures IsDirName(p + [c]) <==> c == '/'
    ensures !IsDirName("")
  {
  }

  /** What the file system says about a path: nothing there, a directory, or something else. */
  datatype Meta = Absent | Directory | OtherKind

  type Files = Path -> Meta

  datatype Outcome = Done | NoEntry | NotAFile | IsADirectory

  function LinkOutcome(s: State, oldName: Path, fs: Files): Outcome {
    var dst := RealPath(s.links, oldName);
    if fs(dst).Absent? then NoEntry else if !IsDirName(dst) then NotAFile else Done
  }

  /** `linkat`: the entry written is that of the resolved new name. */
  function Link(s: State, oldName: Path, newName: Path, fs: Files): State {
    if LinkOutcome(s, oldName, fs).Done?
    then Apply(s, Update(RealPath(s.links, newName), RealPath(s.links, oldName)))
    else s
  }

  /** `unlinkat`: a path that is no link goes to the file system, which is tried for removal. */
  function Unlink(s: State, name: Path, fs: Files): State {
    var path := RealPath(s.links, name);
    if !fs(path).OtherKind? then s
    else if path in s.links then Apply(s, Remove(path))
    else s.(removals := s.removals + [path])
  }

  /**
   A link ought to make the new name stand for what the old one stands for. It does if and only if the
   new name was no link before, or one to itself or to that very target; otherwise the call changes the
   entry of the name it stood for.
   */
  lemma LinkTakesEffectIff(s: State, oldName: Path, newName: Path, fs: Files)
    requires LinkOutcome(s, oldName, fs).Done?
    ensures var z := Link(s, oldName, newName, fs);
            && RealPath(z.links, RealPath(s.links, newName)) == RealPath(s.links, oldName)
            && (RealPath(z.links, newName) == RealPath(s.links, oldName)
                <==> newName !in s.links || s.links[newName] in {newName, RealPath(s.links, oldName)})
  {
  }

  /**
   Unlinking a link ought to take its entry away. It does if and only if the link points to itself and
   the file system does not call it a directory; otherwise the call acts on the target, and the entry of
   every other name is left alone.
   */
  lemma UnlinkRemovesIff(s: State, name: Path, fs: Files)
    requires name in s.links
    ensures var z := Unlink(s, name, fs);
            && (name !in z.links <==> s.links[name] == name && fs(name).OtherKind?)
            && (forall n :: n in s.links && n != s.links[name] ==> n in z.links && z.links[n] == s.links[n])
  {
  }

  datatype Syscall = LinkAt(oldName: Path, newName: Path, fs: Files) | UnlinkAt(name: Path, fs: Files)

  ghost function After(s: State, calls: seq<Syscall>): State {
    if calls == [] then s else
    var m := After(s, calls[..|calls| - 1]);
    match calls[|calls| - 1]
    case LinkAt(o, n, fs) => Link(m, o, n, fs)
    case UnlinkAt(n, fs) => Unlink(m, n, fs)
  }

  ghost predicate TargetsAreDirNames(links: map<Path, Path>) {
    forall n :: n in links ==> IsDirName(links[n])
  }

  /** A file system in which what is found under a name with a trailing slash is a directory. */
  ghost predicate SlashMeansDirectory(fs: Files) {
    forall path :: IsDirName(path) ==> !fs(path).OtherKind?
  }

  lemma SyscallKeeps(s: State, call: Syscall)
    requires Consistent(s.links, s.counts) && TargetsAreDirNames(s.links)
    ensures var z := After(s, [call]);
            && Consistent(z.links, z.counts) && TargetsAreDirNames(z.links)
            && (SlashMeansDirectory(call.fs) ==> s.links.Keys <= z.links.Keys)
  {
    assert [call][..0] == [];
    match call
    case LinkAt(o, n, fs) =>
      ApplyKeepsConsistent(s, Update(RealPath(s.links, n), RealPath(s.links, o)));
    case UnlinkAt(n, fs) =>
      ApplyKeepsConsistent(s, Remove(RealPath(s.links, n)));
      assert n in s.links ==> IsDirName(s.links[n]);
  }

  /**
   After any link and unlink calls the counts are right and every target is a directory name. So, with a
   file system in which a trailing slash means a directory, no call ever takes a link away.
   */
  lemma {:induction false} LinksAreForever(calls: seq<Syscall>)
    ensures var z := After(EMPTY, calls);
            && Consistent(z.links, z.counts) && TargetsAreDirNames(z.links)
    ensures forall k :: 0 <= k <= |calls| && (forall i :: 0 <= i < |calls| ==> SlashMeansDirectory(calls[i].fs)) ==>
              After(EMPTY, calls[..k]).links.Keys <= After(EMPTY, calls).links.Keys
  {
    if calls != [] {
      var n := |calls| - 1;
      var m := After(EMPTY, calls[..n]);
      LinksAreForever(calls[..n]);
      SyscallKeeps(m, calls[n]);
      assert [calls[n]][..0] == [];
      assert After(m, [calls[n]]) == After(EMPTY, calls);
      forall k | 0 <= k <= |calls| && (forall i :: 0 <= i < |calls| ==> SlashMeansDirectory(calls[i].fs))
        ensures After(EMPTY, calls[..k]).links.Keys <= After(EMPTY, calls).links.Keys
      {
        if k == |calls| {
          assert calls[..k] == calls;
        } else {
          assert calls[..n][..k] == calls[..k];
          assert forall i :: 0 <= i < n ==> calls[..n][i] == calls[i];
        }
      }
    }
  }

  /**
   Unlinking a name that is no link, of something that is not a directory: exactly that file is tried for
   removal, and no link and no count changes. A name of nothing, or of a directory, changes nothing at all.
   */
  lemma UnlinkPlainFile(s: State, name: Path, fs: Files)
    requires name !in s.links
    ensures var z := Unlink(s, name, fs);
            && z.links == s.links && z.counts == s.counts
            && z.removals == s.removals + if fs(name).OtherKind? then [name] else []
  {
  }

  /** A refused link changes nothing; one that is made changes the entry of one name and no other. */
  lemma LinkChangesOne(s: State, oldName: Path, newName: Path, fs: Files)
    ensures var z := Link(s, oldName, newName, fs);
            && (fs(RealPath(s.links, oldName)).Absent? || !IsDirName(RealPath(s.links, oldName)) ==> z == s)
            && (forall n :: n != RealPath(s.links, newName) ==> (n in z.links <==> n in s.links))
            && (forall n :: n != RealPath(s.links, newName) && n in s.links ==> z.links[n] == s.links[n])
  {
  }

  /** The call unlinks `d` as a plain file: the name stands for it, it is no link, and it is no directory. */
  ghost predicate UnlinksFile(s: State, call: Syscall, d: Path) {
    call.UnlinkAt? && RealPath(s.links, call.name) == d && d !in s.links && call.fs(d).OtherKind?
  }

  /** The call takes the last link to `d` away. */
  ghost predicate TakesLastLink(s: State, call: Syscall, d: Path) {
    LinksTo(s.links, d) != {} && LinksTo(After(s, [call]).links, d) == {}
  }

  /** One call tries to remove `d` once for its last link, and once if it unlinks `d` as a file. */
  lemma CallRemovals(s: State, call: Syscall, d: Path)
    requires Consistent(s.links, s.counts)
    ensures Times(After(s, [call]).removals, d)
         == Times(s.removals, d) + (if TakesLastLink(s, call, d) then 1 else 0) + (if UnlinksFile(s, call, d) then 1 else 0)
  {
    assert [call][..0] == [];
    match call
    case LinkAt(o, n, fs) =>
      RemovalMeansLastLink(s, Update(RealPath(s.links, n), RealPath(s.links, o)), d);
    case UnlinkAt(n, fs) =>
      var path := RealPath(s.links, n);
      if fs(path).OtherKind? {
        if path in s.links {
          RemovalMeansLastLink(s, Remove(path), d);
        } else {
          TimesSnoc(s.removals, path, d);
        }
      }
  }

  /** How often the calls take the last link to `d` away, and how often they unlink it as a file. */
  ghost function LastLinksTaken(s: State, calls: seq<Syscall>, d: Path): nat {
    if calls == [] then 0 else
    var n := |calls| - 1;
    LastLinksTaken(s, calls[..n], d) + if TakesLastLink(After(s, calls[..n]), calls[n], d) then 1 else 0
  }

  ghost function FilesUnlinked(s: State, calls: seq<Syscall>, d: Path): nat {
    if calls == [] then 0 else
    var n := |calls| - 1;
    FilesUnlinked(s, calls[..n], d) + if UnlinksFile(After(s, calls[..n]), calls[n], d) then 1 else 0
  }

  /** Over any calls a file is tried for removal exactly as often as its last link goes or it is unlinked itself. */
  lemma {:induction false} RemovalsAreAccountedFor(calls: seq<Syscall>, d: Path)
    ensures Times(After(EMPTY, calls).removals, d) == LastLinksTaken(EMPTY, calls, d) + FilesUnlinked(EMPTY, calls, d)
  {
    if calls != [] {
      var n := |calls| - 1;
      var m := After(EMPTY, calls[..n]);
      RemovalsAreAccountedFor(calls[..n], d);
      LinksAreForever(calls[..n]);
      CallRemovals(m, calls[n], d);
      assert [calls[n]][..0] == [];
      assert After(m, [calls[n]]) == After(EMPTY, calls);
    }
  }

  /**
   Linking under a fresh name and unlinking that name again ought to change nothing. It never does: the
   new entry stays, and the second call acts on the target instead. If that is a directory the call is
   refused; if it is a link itself its entry goes; otherwise the target file is tried for removal.
   */
  lemma LinkThenUnlink(s: State, oldName: Path, newName: Path, fs: Files)
    requires LinkOutcome(s, oldName, fs).Done? && newName !in s.links && RealPath(s.links, oldName) != newName
    ensures var dst := RealPath(s.links, oldName);
            var m := Link(s, oldName, newName, fs);
            var z := Unlink(m, newName, fs);
            && m.links == s.links[newName := dst] && newName in z.links && z != s
            && z == if fs(dst).Directory? then m
                    else if dst in s.links then Apply(m, Remove(dst))
                    else m.(removals := m.removals + [dst])
  {
  }

  // ---- The manager as the code has it ----

  datatype LinkError = NotFound | NotFile

  class HardlinkManager {
    var links: map<Path, Path>
    var refCounts: map<Path, nat>
    var removals: seq<Path>          // target files whose removal was attempted, in order

    ghost function Value(): State
      reads this
    {
      State(links, refCounts, removals)
    }

    ghost predicate Valid()
      reads this
    {
      Consistent(links, refCounts)
    }

    constructor ()
      ensures Value() == EMPTY && Valid()
    {
      links, refCounts, removals := map[], map[], [];
    }

    /** `removable` tells for which files removal succeeds. */
    method DecreaseRefCount(path: Path, removable: set<Path>) returns (done: bool)
      requires path in refCounts ==> refCounts[path] >= 1
      modifies this`refCounts, this`removals
      ensures Value() == Decrease(old(Value()), path)
      ensures done <==> path in old(refCounts) && (old(refCounts[path]) == 1 ==> path in removable)
    {
      if path in refCounts {
        refCounts := refCounts[path := refCounts[path] - 1];
        if refCounts[path] == 0 {
          refCounts := refCounts - {path};
          removals := removals + [path];
          return path in removable;
        }
        done := true;
      } else {
        done := false;
      }
    }

    method AtomicLinkUpdate(src: Path, dst: Path, removable: set<Path>)
      requires Valid()
      modifies this
      ensures Valid() && Value() == Apply(old(Value()), Update(src, dst))
    {
      ApplyKeepsConsistent(Value(), Update(src, dst));
      if src in links {
        if links[src] == dst {
          return;
        }
        DropLink(Value(), src);
        var _ := DecreaseRefCount(links[src], removable);
      }
      links := links[src := dst];
      refCounts := refCounts[dst := (if dst in refCounts then refCounts[dst] else 0) + 1];
    }

    method AtomicLinkRemove(src: Path, removable: set<Path>) returns (r: Option<Path>)
      requires Valid()
      modifies this
      ensures Valid() && Value() == Apply(old(Value()), Remove(src))
      ensures r == if src in old(links) then Some(old(links)[src]) else None
    {
      ApplyKeepsConsistent(Value(), Remove(src));
      if src !in links {
        return None;
      }
      DropLink(Value(), src);
      var dst := links[src];
      links := links - {src};
      var _ := DecreaseRefCount(dst, removable);
      r := Some(dst);
    }

    /** Creates a link; as coded, the target has to be a directory. */
    method CreateLink(src: Path, dst: Path, present: bool, isDir: bool, removable: set<Path>)
      returns (r: Option<LinkError>)
      requires Valid()
      modifies this
      ensures Valid()
      ensures r == if !present then Some(NotFound) else if !isDir then Some(NotFile) else None
      ensures Value() == if r.None? then Apply(old(Value()), Update(src, dst)) else old(Value())
    {
      if !present {
        return Some(NotFound);
      }
      if !isDir {
        return Some(NotFile);
      }
      AtomicLinkUpdate(src, dst, removable);
      r := None;
    }

    /** Removes a link, or the file itself when there is no such link. */
    method RemoveLink(src: Path, removable: set<Path>) returns (r: Option<Path>)
      requires Valid()
      modifies this
      ensures Valid()
      ensures src in old(links) ==> r == Some(old(links)[src]) && Value() == Apply(old(Value()), Remove(src))
      ensures src !in old(links) ==>
                && r == (if src in removable then Some(src) else None)
                && Value() == old(Value()).(removals := old(removals) + [src])
    {
      r := AtomicLinkRemove(src, removable);
      if r.None? {
        removals := removals + [src];
        r := if src in removable then Some(src) else None;
      }
    }

    /** `linkat` on names made absolute. */
    method LinkAt(oldName: Path, newName: Path, fs: Files, removable: set<Path>) returns (r: Outcome)
      requires Valid()
      modifies this
      ensures Valid() && Value() == Link(old(Value()), oldName, newName, fs)
      ensures var dst := RealPath(old(links), oldName);
              && (r.NoEntry? <==> fs(dst).Absent?)
              && (r.NotAFile? <==> !fs(dst).Absent? && !IsDirName(dst))
              && (r.Done? <==> !fs(dst).Absent? && IsDirName(dst))
      ensures r.Done? ==> links[RealPath(old(links), newName)] == RealPath(old(links), oldName)
    {
      var oldPath, newPath := RealPath(links, oldName), RealPath(links, newName);
      var e := CreateLink(newPath, oldPath, !fs(oldPath).Absent?, IsDirName(oldPath), removable);
      r := if e.None? then Done else if e.value.NotFound? then NoEntry else NotAFile;
    }

    /** `unlinkat` without the flag for directories, on a name made absolute. */
    method UnlinkAt(name: Path, fs: Files, removable: set<Path>) returns (r: Outcome)
      requires Valid()
      modifies this
      ensures Valid() && Value() == Unlink(old(Value()), name, fs)
      ensures r.Done? ==>
                var path := RealPath(old(links), name);
                if path in old(links) then path !in links else removals == old(removals) + [path]
      ensures var path := RealPath(old(links), name);
              r == if fs(path).Absent? then NoEntry else if fs(path).Directory? then IsADirectory
                   else if path in old(links) || path in removable then Done else NoEntry
    {
      var path := RealPath(links, name);
      if fs(path).Absent? {
        return NoEntry;
      }
      if fs(path).Directory? {
        return IsADirectory;
      }
      var e := RemoveLink(path, removable);
      r := if e.Some? then Done else NoEntry;
    }
  }
}
