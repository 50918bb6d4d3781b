/** Shared vocabulary: optional values, bytes, and reference-counted cells (Rust's `Arc`). */
module Basics {

  datatype Option<+T> = None | Some(value: T)

  type byte = b: int | 0 <= b < 256

  function Min(a: nat, b: nat): nat { if a < b then a else b }

  lemma Regroup<T>(a: seq<T>, b: seq<T>, c: seq<T>)
    ensures a + (b + c) == a + b + c
  {
  }

  lemma SameRest<T>(a: seq<T>, b: seq<T>, c: seq<T>)
    requires a + b == a + c
    ensures b == c
  {
    assert b == (a + b)[|a|..] && c == (a + c)[|a|..];
  }
}

/** Strong counts of `Arc` cells: a heap maps each live cell to its count and its value. */
module RefCount {

  datatype Arc<T> = Arc(count: nat, value: T)

  /** Cell `o` is live exactly when `refs` references to it exist, and its count is exact. */
  ghost predicate Exact<T>(heap: map<nat, Arc<T>>, o: nat, refs: nat) {
    && (o in heap <==> refs > 0)
    && (o in heap ==> heap[o].count == refs)
  }

  function CloneRef<T>(heap: map<nat, Arc<T>>, o: nat): map<nat, Arc<T>>
    requires o in heap
  {
    heap[o := heap[o].(count := heap[o].count + 1)]
  }

  /** Drops one reference; the cell dies with its last reference. */
  function DropRef<T>(heap: map<nat, Arc<T>>, o: nat): map<nat, Arc<T>>
    requires o in heap
  {
    if heap[o].count <= 1 then heap - {o} else heap[o := heap[o].(count := heap[o].count - 1)]
  }

  /** How often `o` occurs in a list of references. */
  ghost function Occ(os: seq<nat>, o: nat): nat {
    if os == [] then 0
    else Occ(os[..|os| - 1], o) + (if os[|os| - 1] == o then 1 else 0)
  }

  lemma {:induction false} OccMember(os: seq<nat>, o: nat)
    ensures Occ(os, o) > 0 <==> o in os
  {
    if os != [] {
      var n := |os| - 1;
      OccMember(os[..n], o);
      assert os == os[..n] + [os[n]];
    }
  }

  lemma {:induction false} OccConcat(a: seq<nat>, b: seq<nat>, o: nat)
    ensures Occ(a + b, o) == Occ(a, o) + Occ(b, o)
  {
    if b == [] {
      assert a + b == a;
    } else {
      var n := |b| - 1;
      OccConcat(a, b[..n], o);
      assert (a + b)[..|a + b| - 1] == a + b[..n];
    }
  }

  ghost function Sum(ns: seq<nat>): nat {
    if ns == [] then 0 else Sum(ns[..|ns| - 1]) + ns[|ns| - 1]
  }

  lemma {:induction false} SumUpdate(ns: seq<nat>, i: nat, x: nat)
    requires i < |ns|
    ensures Sum(ns[i := x]) + ns[i] == Sum(ns) + x
  {
    var n, u := |ns| - 1, ns[i := x];
    if i < n {
      SumUpdate(ns[..n], i, x);
      assert u[..n] == ns[..n][i := x];
    } else {
      assert u[..n] == ns[..n];
    }
  }

  lemma {:induction false} SumAtLeast(ns: seq<nat>, i: nat)
    requires i < |ns|
    ensures ns[i] <= Sum(ns)
  {
    if i < |ns| - 1 {
      SumAtLeast(ns[..|ns| - 1], i);
    }
  }

  lemma {:induction false} SumOfNone(ns: seq<nat>)
    requires forall i :: 0 <= i < |ns| ==> ns[i] == 0
    ensures Sum(ns) == 0
  {
    if ns != [] {
      SumOfNone(ns[..|ns| - 1]);
    }
  }
}
