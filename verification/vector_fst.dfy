/** The in-memory transducer and its order-preserving `del_states`. */
module VectorFsts {
  import opened Fsts
  import opened Properties
  import opened Weights

  // ------------------------------------------------ what deleting states means

  /** How many of the first `s` states survive. */
  function Rank(dead: seq<bool>, s: nat): nat
    requires s <= |dead|
  {
    if s == 0 then 0 else Rank(dead, s - 1) + if dead[s-1] then 0 else 1
  }

  lemma RankStep(dead: seq<bool>, s: nat)
    requires s <= |dead|
    ensures Rank(dead, 0) == 0
    ensures s < |dead| ==> Rank(dead, s + 1) == Rank(dead, s) + if dead[s] then 0 else 1
  {
  }

  lemma {:induction false} RankMonotone(dead: seq<bool>, s: nat, t: nat)
    requires s <= t <= |dead|
    ensures Rank(dead, s) <= Rank(dead, t) <= Rank(dead, s) + (t - s)
    ensures s < t && !dead[s] ==> Rank(dead, s) < Rank(dead, t)
    decreases t
  {
    if s < t {
      RankMonotone(dead, s, t - 1);
    }
  }

  /** The arcs to surviving states, renumbered and in order. */
  function KeptTrs<W>(dead: seq<bool>, trs: seq<Tr<W>>): seq<Tr<W>>
    requires forall i :: 0 <= i < |trs| ==> trs[i].nextstate < |dead|
  {
    if trs == [] then []
    else (if dead[trs[0].nextstate] then [] else [Renumbered(dead, trs[0])]) + KeptTrs(dead, trs[1..])
  }

  function Renumbered<W>(dead: seq<bool>, tr: Tr<W>): Tr<W>
    requires tr.nextstate < |dead|
  {
    tr.(nextstate := Rank(dead, tr.nextstate))
  }

  function KeptState<W>(dead: seq<bool>, state: State<W>): State<W>
    requires forall i :: 0 <= i < |state.trs| ==> state.trs[i].nextstate < |dead|
  {
    state.(trs := KeptTrs(dead, state.trs))
  }

  /** `g` is `f` without the dead states. */
  ghost predicate IsTrimmed<W>(f: Fst<W>, dead: seq<bool>, g: Fst<W>)
    requires WellFormed(f) && |dead| == |f.states|
  {
    && |g.states| == Rank(dead, |dead|)
    && (forall s :: 0 <= s < |f.states| && !dead[s]
         ==> Rank(dead, s) < |g.states| && g.states[Rank(dead, s)] == KeptState(dead, f.states[s]))
    && g.start == if f.start.Some? && !dead[f.start.value] then Some(Rank(dead, f.start.value)) else None
  }

  /** The survivor with a given rank. */
  lemma {:induction false} Unrank(dead: seq<bool>, k: nat, n: nat) returns (s: nat)
    requires n <= |dead| && k < Rank(dead, n)
    ensures s < n && !dead[s] && Rank(dead, s) == k
  {
    s := n - 1;
    if dead[n-1] || k < Rank(dead, n - 1) {
      s := Unrank(dead, k, n - 1);
    }
  }

  /** `ids` as filled by the first pass of `del_states`. */
  ghost predicate NewIds(dead: seq<bool>, ids: seq<int>) {
    |ids| == |dead| && forall s :: 0 <= s < |dead| ==> ids[s] == if dead[s] then -1 else Rank(dead, s)
  }

  /** `del` lists, in order, the arcs that lead to dead states. */
  ghost predicate DeadArcs<W>(dead: seq<bool>, trs: seq<Tr<W>>, del: seq<nat>, n: nat)
    requires forall i :: 0 <= i < |trs| ==> trs[i].nextstate < |dead|
    requires n <= |trs|
  {
    && (forall k :: 0 <= k < |del| ==> del[k] < n && dead[trs[del[k]].nextstate])
    && (forall k, l :: 0 <= k < l < |del| ==> del[k] < del[l])
    && (forall i :: 0 <= i < n && dead[trs[i].nextstate] ==> i in del)
  }

  lemma KeptFirst<W>(dead: seq<bool>, trs: seq<Tr<W>>, i: nat)
    requires forall k :: 0 <= k < |trs| ==> trs[k].nextstate < |dead|
    requires i < |trs| && !dead[trs[i].nextstate]
    ensures KeptTrs(dead, trs[i..]) == [Renumbered(dead, trs[i])] + KeptTrs(dead, trs[i+1..])
  {
    assert trs[i..][1..] == trs[i+1..];
  }

  lemma {:induction false} KeptAll<W>(dead: seq<bool>, trs: seq<Tr<W>>, moved: seq<Tr<W>>, i: nat, j: nat)
    requires |moved| == |trs| && i <= j <= |trs|
    requires forall k :: 0 <= k < |trs| ==> trs[k].nextstate < |dead|
    requires forall k :: i <= k < j ==> !dead[trs[k].nextstate] && moved[k] == Renumbered(dead, trs[k])
    ensures moved[i..j] + KeptTrs(dead, trs[j..]) == KeptTrs(dead, trs[i..])
    decreases j - i
  {
    hide KeptTrs;
    if i < j {
      KeptAll(dead, trs, moved, i + 1, j);
      assert moved[i..j] == [moved[i]] + moved[i+1..j];
      KeptFirst(dead, trs, i);
    }
  }

  /** The survivors, in order, before renumbering. */
  ghost predicate Survivors<W>(dead: seq<bool>, all: seq<State<W>>, moved: seq<State<W>>)
    requires |dead| == |all|
  {
    && |moved| == Rank(dead, |dead|)
    && forall t :: 0 <= t < |all| && !dead[t] ==> Rank(dead, t) < |moved| && moved[Rank(dead, t)] == all[t]
  }

  ghost predicate TargetsKnown<W>(dead: seq<bool>, state: State<W>) {
    forall i :: 0 <= i < |state.trs| ==> state.trs[i].nextstate < |dead|
  }

  lemma SurvivorTargets<W>(f: Fst<W>, dead: seq<bool>, moved: seq<State<W>>)
    requires WellFormed(f) && |dead| == |f.states| && Survivors(dead, f.states, moved)
    ensures forall r :: 0 <= r < |moved| ==> TargetsKnown(dead, moved[r])
  {
    forall r | 0 <= r < |moved| ensures TargetsKnown(dead, moved[r]) {
      var t := Unrank(dead, r, |dead|);
      assert moved[r] == f.states[t];
    }
  }

  lemma TrimmedDone<W>(f: Fst<W>, dead: seq<bool>, newId: seq<int>, moved: seq<State<W>>, states: seq<State<W>>)
    returns (g: Fst<W>)
    requires WellFormed(f) && |dead| == |f.states| && Survivors(dead, f.states, moved) && NewIds(dead, newId)
    requires |states| == |moved|
    requires forall r :: 0 <= r < |moved| ==> TargetsKnown(dead, moved[r]) && states[r] == KeptState(dead, moved[r])
    ensures f.start.Some? ==> f.start.value < |newId| && -1 <= newId[f.start.value]
    ensures g == Fst(states, if f.start.None? || newId[f.start.value] == -1 then None else Some(newId[f.start.value]))
    ensures IsTrimmed(f, dead, g)
  {
    hide KeptState;
    if f.start.Some? {
      assert newId[f.start.value] == if dead[f.start.value] then -1 else Rank(dead, f.start.value);
    }
    g := Fst(states, if f.start.None? || newId[f.start.value] == -1 then None else Some(newId[f.start.value]));
  }

  /** The arcs to survivors rewritten in place, the others untouched. */
  ghost predicate Retargeted<W>(dead: seq<bool>, trs: seq<Tr<W>>, trs': seq<Tr<W>>, n: nat)
    requires TargetsKnown(dead, State(None, trs)) && n <= |trs|
  {
    && |trs'| == |trs| && trs'[n..] == trs[n..]
    && forall i :: 0 <= i < n && !dead[trs[i].nextstate] ==> trs'[i] == Renumbered(dead, trs[i])
  }

  method Retarget<W>(trs: seq<Tr<W>>, newId: seq<int>, ghost dead: seq<bool>)
    returns (trs': seq<Tr<W>>, toDelete: seq<nat>)
    requires NewIds(dead, newId) && TargetsKnown(dead, State(None, trs))
    ensures Retargeted(dead, trs, trs', |trs|) && DeadArcs(dead, trs, toDelete, |trs|)
  {
    trs', toDelete := trs, [];
    for idx := 0 to |trs|
      invariant Retargeted(dead, trs, trs', idx) && DeadArcs(dead, trs, toDelete, idx)
    {
      assert trs'[idx] == trs'[idx..][0] == trs[idx];
      var t := newId[trs'[idx].nextstate];
      if t != -1 {
        trs' := trs'[idx := trs'[idx].(nextstate := t)];
      } else {
        toDelete := toDelete + [idx];
      }
    }
  }

  function After(del: seq<nat>, k: nat): nat
    requires k <= |del|
  {
    if k == 0 then 0 else del[k-1] + 1
  }

  /** Once all but the first `k` dead arcs are gone. */
  ghost predicate RemovedTo<W>(dead: seq<bool>, old0: seq<Tr<W>>, all: seq<Tr<W>>, i: nat, trs: seq<Tr<W>>)
    requires TargetsKnown(dead, State(None, old0))
  {
    i <= |all| == |old0| && trs == all[..i] + KeptTrs(dead, old0[i..])
  }

  lemma SkipKept<W>(dead: seq<bool>, old0: seq<Tr<W>>, all: seq<Tr<W>>, del: seq<nat>, k: nat, i: nat, trs: seq<Tr<W>>)
    requires TargetsKnown(dead, State(None, old0)) && Retargeted(dead, old0, all, |old0|)
             && DeadArcs(dead, old0, del, |old0|)
    requires k <= |del| && i == (if k == |del| then |old0| else del[k]) && RemovedTo(dead, old0, all, i, trs)
    ensures RemovedTo(dead, old0, all, After(del, k), trs)
  {
    var j := After(del, k);
    forall l | j <= l < i ensures !dead[old0[l].nextstate] {
      assert l !in del;
    }
    KeptAll(dead, old0, all, j, i);
    hide KeptTrs;
    assert all[..i] == all[..j] + all[j..i];
  }

  lemma RemoveOne<W>(dead: seq<bool>, old0: seq<Tr<W>>, all: seq<Tr<W>>, i: nat, trs: seq<Tr<W>>)
    requires TargetsKnown(dead, State(None, old0))
    requires i < |old0| && dead[old0[i].nextstate] && RemovedTo(dead, old0, all, i + 1, trs)
    ensures RemovedTo(dead, old0, all, i, trs[..i] + trs[i+1..])
  {
    assert old0[i..][1..] == old0[i+1..] && old0[i..][0] == old0[i];
  }

  /** Removes the arcs listed in `toDelete`, last first. */
  method RemoveDead<W>(all: seq<Tr<W>>, toDelete: seq<nat>, ghost old0: seq<Tr<W>>, ghost dead: seq<bool>)
    returns (trs: seq<Tr<W>>)
    requires TargetsKnown(dead, State(None, old0)) && Retargeted(dead, old0, all, |old0|)
             && DeadArcs(dead, old0, toDelete, |old0|)
    ensures trs == KeptTrs(dead, old0)
  {
    assert |all| == |old0|;
    hide Retargeted;
    trs := all;
    var k: nat := |toDelete|;
    SkipKept(dead, old0, all, toDelete, k, |old0|, trs);
    while k > 0
      invariant k <= |toDelete| && RemovedTo(dead, old0, all, After(toDelete, k), trs)
    {
      k := k - 1;
      var i := toDelete[k];
      RemoveOne(dead, old0, all, i, trs);
      trs := trs[..i] + trs[i+1..];
      SkipKept(dead, old0, all, toDelete, k, i, trs);
    }
    assert old0[0..] == old0;
  }

  function LastTr(trs: seq<Tr<Weight>>): Option<Tr<Weight>> {
    if trs == [] then None else Some(trs[|trs|-1])
  }

  function ReplaceTr(states: seq<State<Weight>>, s: nat, i: nat, tr: Tr<Weight>): seq<State<Weight>>
    requires s < |states| && i < |states[s].trs|
  {
    states[s := states[s].(trs := states[s].trs[i := tr])]
  }

  /** The bits once `trs` are added one by one to state `s`. */
  function AddedTrs(props: set<Property>, s: nat, trs: seq<Tr<Weight>>): set<Property> {
    if trs == [] then props
    else AddTrProperties(AddedTrs(props, s, trs[..|trs|-1]), s, trs[|trs|-1], LastTr(trs[..|trs|-1]))
  }

  class VectorFst {
    var states: seq<State<Weight>>
    var start: Option<nat>
    var properties: set<Property>

    function Value(): Fst<Weight>
      reads this
    {
      Fst(states, start)
    }

    constructor (f: Fst<Weight>, props: set<Property>)
      ensures Value() == f && properties == props
    {
      states, start, properties := f.states, f.start, props;
    }

    method AddState() returns (s: nat)
      modifies this
      ensures s == |old(states)| && states == old(states) + [State(None, [])] && start == old(start)
      ensures properties == AddStateProperties(old(properties))
    {
      s := |states|;
      states := states + [State(None, [])];
      properties := AddStateProperties(properties);
    }

    method SetStart(s: nat)
      requires s < |states|
      modifies this
      ensures Value() == old(Value()).(start := Some(s)) && properties == SetStartProperties(old(properties))
    {
      start := Some(s);
      properties := SetStartProperties(properties);
    }

    /** `set_final`, or `delete_final_weight` without a weight. */
    method SetFinal(s: nat, weight: Option<Weight>)
      requires s < |states|
      modifies this
      ensures start == old(start) && states == old(states)[s := old(states)[s].(finalWeight := weight)]
      ensures properties == SetFinalProperties(old(properties), old(states)[s].finalWeight, weight)
    {
      properties := SetFinalProperties(properties, states[s].finalWeight, weight);
      states := states[s := states[s].(finalWeight := weight)];
    }

    method DeleteTrs(s: nat)
      requires s < |states|
      modifies this
      ensures start == old(start) && states == old(states)[s := old(states)[s].(trs := [])]
      ensures properties == old(properties) * DELETE_ARCS_PROPERTIES
    {
      properties := properties * DELETE_ARCS_PROPERTIES;
      states := states[s := states[s].(trs := [])];
    }

    method DelAllStates()
      modifies this
      ensures Value() == Fst([], None) && properties == NULL_PROPERTIES
    {
      states, start, properties := [], None, NULL_PROPERTIES;
    }

    method AddTr(s: nat, tr: Tr<Weight>)
      requires s < |states|
      modifies this
      ensures start == old(start) && states == old(states)[s := old(states)[s].(trs := old(states)[s].trs + [tr])]
      ensures properties == AddTrProperties(old(properties), s, tr, LastTr(old(states)[s].trs))
    {
      properties := AddTrProperties(properties, s, tr, LastTr(states[s].trs));
      states := states[s := states[s].(trs := states[s].trs + [tr])];
    }

    // The setters of `TrsIterMut`, on arc `i` of state `s`.

    method SetLabels(s: nat, i: nat, ilabel: Label, olabel: Label)
      requires s < |states| && i < |states[s].trs|
      modifies this
      ensures start == old(start) && states == old(ReplaceTr(states, s, i,
                                                             states[s].trs[i].(ilabel := ilabel, olabel := olabel)))
      ensures properties == SetLabelsProperties(old(properties), old(states)[s].trs[i], ilabel, olabel)
    {
      properties := SetLabelsProperties(properties, states[s].trs[i], ilabel, olabel);
      states := ReplaceTr(states, s, i, states[s].trs[i].(ilabel := ilabel, olabel := olabel));
    }

    method SetWeight(s: nat, i: nat, weight: Weight)
      requires s < |states| && i < |states[s].trs|
      modifies this
      ensures start == old(start) && states == old(ReplaceTr(states, s, i, states[s].trs[i].(weight := weight)))
      ensures properties == SetWeightProperties(old(properties), old(states)[s].trs[i].weight, weight)
    {
      properties := SetWeightProperties(properties, states[s].trs[i].weight, weight);
      states := ReplaceTr(states, s, i, states[s].trs[i].(weight := weight));
    }

    method SetNextstate(s: nat, i: nat, nextstate: nat)
      requires s < |states| && i < |states[s].trs|
      modifies this
      ensures start == old(start) && states == old(ReplaceTr(states, s, i, states[s].trs[i].(nextstate := nextstate)))
      ensures properties == old(properties) * RELEVANT_TO_SET_ARC
    {
      properties := properties * RELEVANT_TO_SET_ARC;
      states := ReplaceTr(states, s, i, states[s].trs[i].(nextstate := nextstate));
    }

    method SetTr(s: nat, i: nat, tr: Tr<Weight>)
      requires s < |states| && i < |states[s].trs|
      modifies this
      ensures start == old(start) && states == old(ReplaceTr(states, s, i, tr))
      ensures properties == SetTrProperties(old(properties), old(states)[s].trs[i], tr)
    {
      properties := SetTrProperties(properties, states[s].trs[i], tr);
      states := ReplaceTr(states, s, i, tr);
    }

    /** `set_trs_unchecked`: the bits of the new arcs are added to those of the old ones. */
    method SetTrs(s: nat, trs: seq<Tr<Weight>>)
      requires s < |states|
      modifies this
      ensures start == old(start) && states == old(states)[s := old(states)[s].(trs := trs)]
      ensures properties == AddedTrs(old(properties), s, trs)
    {
      hide AddTrProperties;
      var props := properties;
      states := states[s := states[s].(trs := trs)];
      for i := 0 to |trs|
        invariant props == AddedTrs(old(properties), s, trs[..i])
        invariant start == old(start) && states == old(states)[s := old(states)[s].(trs := trs)]
      {
        assert trs[..i+1][..i] == trs[..i];
        props := AddTrProperties(props, s, trs[i], if i >= 1 then Some(trs[i-1]) else None);
      }
      assert trs[..|trs|] == trs;
      properties := props;
    }

    /** `sort_trs_unchecked` and `unique_trs_unchecked` overwrite the arcs of a state without a word to
        the properties. */
    method ReplaceTrs(s: nat, trs: seq<Tr<Weight>>)
      requires s < |states|
      modifies this`states
      ensures states == old(states)[s := old(states)[s].(trs := trs)]
    {
      states := states[s := states[s].(trs := trs)];
    }

    /** Rewrites the targets of one state's arcs and removes the arcs to dead states. */
    method RenumberTrs(s: nat, newId: seq<int>, ghost dead: seq<bool>)
      requires s < |states| && NewIds(dead, newId) && TargetsKnown(dead, states[s])
      modifies this`states
      ensures states == old(states)[s := KeptState(dead, old(states[s]))]
    {
      var trs, toDelete := Retarget(states[s].trs, newId, dead);
      trs := RemoveDead(trs, toDelete, states[s].trs, dead);
      states := states[s := states[s].(trs := trs)];
    }

    /** Moves the survivors to the front, in order, and truncates; `newId` marks the dead with -1. */
    method Compact(marks: seq<int>, ghost dead: seq<bool>) returns (newId: seq<int>)
      requires |dead| == |states| == |marks|
      requires forall s :: 0 <= s < |states| ==> marks[s] == if dead[s] then -1 else 0
      modifies this`states
      ensures NewIds(dead, newId) && Survivors(dead, old(states), states)
    {
      ghost var old0, n := states, |states|;
      hide Rank;
      newId := marks;
      var nstates := 0;
      RankStep(dead, 0);
      for s := 0 to |states|
        invariant |newId| == |states| == n && nstates == Rank(dead, s) <= s
        invariant forall t :: 0 <= t < n ==> newId[t] == if dead[t] then -1 else if t < s then Rank(dead, t) else 0
        invariant forall t :: 0 <= t < s && !dead[t] ==> Rank(dead, t) < nstates && states[Rank(dead, t)] == old0[t]
        invariant forall t :: s <= t < n ==> states[t] == old0[t]
      {
        RankStep(dead, s);
        if newId[s] != -1 {
          newId := newId[s := nstates];
          if s != nstates {
            states := states[nstates := states[s]][s := states[nstates]];
          }
          nstates := nstates + 1;
        }
      }
      states := states[..nstates];
    }

    method DelStates(dstates: seq<nat>, ghost dead: seq<bool>)
      requires WellFormed(Value()) && |dead| == |states|
      requires forall s :: 0 <= s < |states| ==> (dead[s] <==> s in dstates)
      requires forall k :: 0 <= k < |dstates| ==> dstates[k] < |states|
      modifies this
      ensures IsTrimmed(old(Value()), dead, Value())
      ensures properties == old(properties) * DELETE_STATES_PROPERTIES
    {
      var newId: seq<int> := seq(|states|, _ => 0);
      for k := 0 to |dstates|
        invariant |newId| == |states|
        invariant forall s :: 0 <= s < |states| ==> newId[s] == if s in dstates[..k] then -1 else 0
      {
        newId := newId[dstates[k] := -1];
      }
      assert dstates[..|dstates|] == dstates;
      newId := Compact(newId, dead);
      ghost var moved := states;
      SurvivorTargets(old(Value()), dead, moved);
      hide Rank, KeptState, Survivors, IsTrimmed, WellFormed, NewIds;
      for s := 0 to |states|
        invariant |states| == |moved| && start == old(start) && properties == old(properties)
        invariant forall r :: s <= r < |moved| ==> states[r] == moved[r]
        invariant forall r :: 0 <= r < s ==> TargetsKnown(dead, moved[r]) && states[r] == KeptState(dead, moved[r])
      {
        assert TargetsKnown(dead, moved[s]);
        RenumberTrs(s, newId, dead);
      }
      ghost var g := TrimmedDone(old(Value()), dead, newId, moved, states);
      if start.Some? {
        var id := newId[start.value];
        start := if id == -1 then None else Some(id);
      }
      properties := properties * DELETE_STATES_PROPERTIES;
    }
  }
}
