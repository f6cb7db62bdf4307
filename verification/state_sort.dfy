/** `state_sort`: renumbering the states in place, cycle by cycle. */
module StateSorts {
  import opened Fsts
  import opened Properties
  import opened PropertyBits
  import opened Renamings
  import opened Trims
  import opened VectorFsts
  import opened Weights

  // ------------------------------------------------ the cycle walk

  /** States already done are in their new places; places whose owner is not done are untouched. */
  ghost predicate PartlyRenamed(states0: seq<State<Weight>>, states: seq<State<Weight>>, order: seq<nat>,
                                done: seq<bool>) {
    && |states| == |states0| == |done| && IsPermutation(order, |states0|)
    && forall s :: 0 <= s < |states0| ==>
         TargetsBelow(order, states0[s]) && states[order[s]] == if done[s] then MapState(order, states0[s])
           else states0[order[s]]
  }

  /** Overwrites state `s2` with a final weight and renumbered arcs. */
  method WriteState(fst: VectorFst, s2: nat, final: Option<Weight>, trs: seq<Tr<Weight>>, order: seq<nat>)
    requires s2 < |fst.states| && TargetsBelow(order, State(final, trs))
    modifies fst
    ensures fst.start == old(fst.start) && fst.states == old(fst.states)[s2 := MapState(order, State(final, trs))]
  {
    hide SetFinalProperties, AddTrProperties;
    fst.SetFinal(s2, final);
    fst.DeleteTrs(s2);
    ghost var all := MapTrs(order, trs);
    for i := 0 to |trs|
      invariant fst.start == old(fst.start) && fst.states == old(fst.states)[s2 := State(final, all[..i])]
    {
      fst.AddTr(s2, trs[i].(nextstate := order[trs[i].nextstate]));
      assert all[..i+1] == all[..i] + [all[i]];
    }
    assert all[..|trs|] == all;
  }

  ghost function Undone(done: seq<bool>): set<nat> {
    set s: nat | s < |done| && !done[s]
  }

  /** Whole cycles are done. */
  predicate ClosedUnder(order: seq<nat>, done: seq<bool>) {
    |order| == |done| && (forall s :: 0 <= s < |order| ==> order[s] < |done|) &&
         forall s :: 0 <= s < |done| && done[s] ==> done[order[s]]
  }

  /** Between two walks an undone place still holds what it held. */
  lemma Untouched(states0: seq<State<Weight>>, states: seq<State<Weight>>, order: seq<nat>, done: seq<bool>, s: nat)
    requires PartlyRenamed(states0, states, order, done) && ClosedUnder(order, done) && s < |done| && !done[s]
    ensures states[s] == states0[s]
  {
    var p := Preimage(order, s);
  }

  /** Follows the cycle of `s0`, carrying the overwritten state along. */
  method WalkCycle(fst: VectorFst, s0: nat, order: seq<nat>, done0: seq<bool>, ghost states0: seq<State<Weight>>)
    returns (done: seq<bool>)
    requires PartlyRenamed(states0, fst.states, order, done0) && s0 < |done0|
    requires !done0[s0] ==> fst.states[s0] == states0[s0]
    modifies fst
    ensures fst.start == old(fst.start) && PartlyRenamed(states0, fst.states, order, done)
    ensures |done| == |done0| == |fst.states| && done[s0] && forall s :: 0 <= s < |done| && done0[s] ==> done[s]
    ensures ClosedUnder(order, done0) ==> ClosedUnder(order, done)
  {
    done := done0;
    var s1 := s0;
    var final1, trsa := fst.states[s1].finalWeight, fst.states[s1].trs;
    while !done[s1]
      invariant fst.start == old(fst.start) && PartlyRenamed(states0, fst.states, order, done)
      invariant |done| == |done0| && s1 < |done| && (s1 == s0 || done[s0]) &&
           forall s :: 0 <= s < |done| && done0[s] ==> done[s]
      invariant !done[s1] ==> State(final1, trsa) == states0[s1]
      invariant ClosedUnder(order, done0) ==>
           forall s :: 0 <= s < |done| && done[s] ==> order[s] == s1 || done[order[s]]
      decreases Undone(done)
    {
      var s2 := order[s1];
      ghost var done1, states1 := done, fst.states;
      var final2, trsb := final1, trsa;
      if !done[s2] {
        final2, trsb := fst.states[s2].finalWeight, fst.states[s2].trs;
      }
      WriteState(fst, s2, final1, trsa, order);
      done := done[s1 := true];
      WalkStep(states0, states1, order, done1, s1);
      assert s1 in Undone(done1) && s1 !in Undone(done);
      final1, trsa := final2, trsb;
      s1 := s2;
    }
  }

  lemma WalkStep(states0: seq<State<Weight>>, states: seq<State<Weight>>, order: seq<nat>, done: seq<bool>, s1: nat)
    requires PartlyRenamed(states0, states, order, done) && s1 < |done| && !done[s1]
    ensures order[s1] < |states| && states[order[s1]] == states0[order[s1]] && TargetsBelow(order, states0[s1])
    ensures PartlyRenamed(states0, states[order[s1] := MapState(order, states0[s1])], order, done[s1 := true])
  {
  }

  /** `Ok` unless the order has the wrong length; without a start state nothing is sorted. */
  method StateSort(fst: VectorFst, order: seq<nat>) returns (ok: bool)
    requires WellFormed(fst.Value()) && (|order| == |fst.states| ==> IsPermutation(order, |order|))
    modifies fst
    ensures ok <==> |order| == |old(fst.states)|
    ensures !ok || old(fst.start).None? ==> fst.Value() == old(fst.Value()) && fst.properties == old(fst.properties)
    ensures ok && old(fst.start).Some? ==>
        Renamed(old(fst.Value()), order, fst.Value()) && fst.properties == old(fst.properties) * STATESORT_PROPERTIES
    ensures WellFormed(fst.Value())
    ensures old(BitsTrue(fst.Value(), fst.properties)) ==> BitsTrue(fst.Value(), fst.properties)
  {
    ok := |order| == |fst.states|;
    if !ok || fst.start.None? {
      return;
    }
    hide IsPermutation, MapState, TargetsBelow, Renamed, BitsTrue, STATESORT_PROPERTIES;
    ghost var bits := fst.properties;
    var props := fst.properties * STATESORT_PROPERTIES;
    ghost var f := fst.Value();
    SortReady(f, order);
    fst.SetStart(order[fst.start.value]);
    WalkAll(fst, order);
    SortDone(f, order, fst.Value());
    fst.properties := props;
    RenamedWell(f, order, fst.Value());
    if BitsTrue(f, bits) {
      RenamedKeeps(f, order, fst.Value(), bits);
    }
  }

  /** Walks every cycle once. */
  method WalkAll(fst: VectorFst, order: seq<nat>)
    requires |order| == |fst.states| && PartlyRenamed(fst.states, fst.states, order, seq(|order|, _ => false))
    modifies fst
    ensures fst.start == old(fst.start) && PartlyRenamed(old(fst.states), fst.states, order, seq(|order|, _ => true))
  {
    hide *;
    ghost var states0 := fst.states;
    var done := seq(|order|, _ => false);
    StartWalk(states0, order);
    for s1 := 0 to |fst.states|
      invariant fst.start == old(fst.start) && |fst.states| == |order| == |done|
                && PartlyRenamed(states0, fst.states, order, done)
      invariant forall s :: 0 <= s < s1 ==> done[s]
      invariant ClosedUnder(order, done)
    {
      if !done[s1] {
        Untouched(states0, fst.states, order, done, s1);
        done := WalkCycle(fst, s1, order, done, states0);
      }
    }
    assert done == seq(|order|, _ => true);
  }

  lemma StartWalk(states: seq<State<Weight>>, order: seq<nat>)
    requires |order| == |states| && PartlyRenamed(states, states, order, seq(|order|, _ => false))
    ensures ClosedUnder(order, seq(|order|, _ => false))
  {
  }

  lemma SortReady(f: Fst<Weight>, order: seq<nat>)
    requires WellFormed(f) && IsPermutation(order, |f.states|)
    ensures PartlyRenamed(f.states, f.states, order, seq(|order|, _ => false)) &&
         forall s :: 0 <= s < |order| ==> order[s] < |order|
  {
  }

  lemma SortDone(f: Fst<Weight>, order: seq<nat>, g: Fst<Weight>)
    requires WellFormed(f) && f.start.Some? && |order| == |f.states| && g.start == Some(order[f.start.value])
    requires PartlyRenamed(f.states, g.states, order, seq(|order|, _ => true))
    ensures Renamed(f, order, g)
  {
  }
}
