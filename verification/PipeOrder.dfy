/** The order of whole write calls in a pipe's stream. */
module PipeOrder {
  import opened PipeSystem
  import opened PipeFlow
  import opened PipeTheorems

  /** Write call `id` has decided its result. */
  ghost predicate Finished(s: Sys, id: nat) {
    id < |s.writes| && s.writes[id].result.Some?
  }

  lemma FinishedStays(s: Sys, a: Action, id: nat)
    requires Inv(s) && Can(s, a) && Finished(s, id)
    ensures |s.writes| <= |Do(s, a).writes| && Do(s, a).writes[id] == s.writes[id]
  {
    assert CallOk(s, a.t);
  }

  lemma {:induction false} RunKeepsFinished(s: Sys, run: seq<Action>, id: nat)
    requires Inv(s) && Run(s, run).Some? && Finished(s, id)
    ensures |s.writes| <= |Run(s, run).value.writes| && Run(s, run).value.writes[id] == s.writes[id]
  {
    if run != [] {
      var n := |run| - 1;
      RunKeepsFinished(s, run[..n], id);
      RunKeepsInv(s, run[..n]);
      FinishedStays(Run(s, run[..n]).value, run[n], id);
    }
  }

  lemma {:induction false} SelectConcat(a: seq<Placed>, b: seq<Placed>, id: nat)
    ensures Select(a + b, id) == Select(a, id) + Select(b, id)
  {
    if b == [] {
      assert a + b == a;
    } else {
      var n := |b| - 1;
      SelectConcat(a, b[..n], id);
      assert (a + b)[..|a + b| - 1] == a + b[..n];
    }
  }

  lemma {:induction false} NoneSelected(acc: seq<Placed>, id: nat)
    requires Select(acc, id) == []
    ensures forall i :: 0 <= i < |acc| ==> acc[i].writer != id
  {
    if acc != [] {
      NoneSelected(acc[..|acc| - 1], id);
    }
  }

  /** Nothing that happens later adds to what a finished call placed. */
  lemma FinishedPlacesNoMore(s: Sys, run: seq<Action>, p: nat, id: nat)
    requires Inv(s) && Run(s, run).Some? && p < |s.pipes| && Finished(s, id)
    ensures var acc := s.pipes[p].accepted;
            && p < |Run(s, run).value.pipes| && acc <= Run(s, run).value.pipes[p].accepted
            && forall i :: |acc| <= i < |Run(s, run).value.pipes[p].accepted| ==>
                 Run(s, run).value.pipes[p].accepted[i].writer != id
  {
    var z := Run(s, run).value;
    RunKeepsInv(s, run);
    RunEvolves(s, run);
    RunKeepsFinished(s, run, id);
    var before, after := s.pipes[p].accepted, z.pipes[p].accepted;
    assert Select(after, id) == Select(before, id) by {
      assert MergeOk(s, p) && MergeOk(z, p);
    }
    NoneAdded(before, after, id);
  }

  lemma NoneAdded(before: seq<Placed>, after: seq<Placed>, id: nat)
    requires before <= after && Select(after, id) == Select(before, id)
    ensures forall i :: |before| <= i < |after| ==> after[i].writer != id
  {
    var more := after[|before|..];
    assert after == before + more;
    SelectConcat(before, more, id);
    NoneSelected(more, id);
    assert forall i :: |before| <= i < |after| ==> after[i] == more[i - |before|];
  }

  /**
   Write calls on a pipe take effect in the order in which they happen: if one has returned before
   another begins, all its bytes come before all bytes of the other, for the whole future. So a single
   writer's calls come out one after another, without gaps or overlaps.
   */
  lemma WritesKeepTheirOrder(s: Sys, run: seq<Action>, p: nat, first: nat, second: nat, i: nat, j: nat)
    requires Reachable(s) && Run(s, run).Some? && p < |s.pipes|
    requires Finished(s, first) && |s.writes| <= second
    requires p < |Run(s, run).value.pipes|
    requires i < |Run(s, run).value.pipes[p].accepted| && j < |Run(s, run).value.pipes[p].accepted|
    requires Run(s, run).value.pipes[p].accepted[i].writer == first
    requires Run(s, run).value.pipes[p].accepted[j].writer == second
    ensures i < |s.pipes[p].accepted| <= j
  {
    ReachableIsInv(s);
    FinishedPlacesNoMore(s, run, p, first);
    assert MergeOk(s, p);
  }
}
