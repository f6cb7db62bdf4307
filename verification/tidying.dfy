/** `tr_sort` and `tr_unique` on a whole machine, with the property bits they leave. */
module Tidying {
  import opened Fsts
  import opened Acceptors
  import opened Properties
  import opened PropertyBits
  import opened SameArcs
  import opened SimilarMachines
  import opened TrSorts
  import opened VectorFsts
  import opened Weights

  ghost predicate SortedAt(f: Fst<Weight>, g: Fst<Weight>) {
    && |f.states| == |g.states| && f.start == g.start
    && forall s :: 0 <= s < |f.states| ==> g.states[s] == f.states[s].(trs := SortTrs(f.states[s].trs))
  }

  ghost predicate UniqueAt(f: Fst<Weight>, g: Fst<Weight>) {
    && |f.states| == |g.states| && f.start == g.start
    && forall s :: 0 <= s < |f.states| ==> g.states[s] == f.states[s].(trs := UniqueTrs(f.states[s].trs))
  }

  // ------------------------------------------------ arcs in another order

  lemma SortedRearranged(f: Fst<Weight>, g: Fst<Weight>)
    requires SortedAt(f, g)
    ensures Rearranged(f, g)
  {
    forall s | 0 <= s < |f.states| ensures SameState(f.states[s], g.states[s]) {
      SortTrsSorted(f.states[s].trs);
    }
  }

  lemma UniqueRearranged(f: Fst<Weight>, g: Fst<Weight>)
    requires UniqueAt(f, g)
    ensures Rearranged(f, g)
  {
    forall s | 0 <= s < |f.states| ensures SameState(f.states[s], g.states[s]) {
      UniqueTrsExact(f.states[s].trs);
    }
  }

  function Here(n: nat): seq<nat> {
    seq(n, s => s)
  }

  lemma RearrangedSimulates(f: Fst<Weight>, g: Fst<Weight>)
    requires WellFormed(f) && Rearranged(f, g)
    ensures Simulates(f, Here(|f.states|), g) && forall x :: 0 <= x < |g.states| ==> x in Here(|f.states|)
  {
    var at := Here(|f.states|);
    forall e | IsEdge(f, e) ensures HasCopy(f, at, g, e) {
      var j := SameTr(f, g, e.src, e.pos);
      assert CopyOf(f, at, g, e, Edge(e.src, j));
    }
    forall s | 0 <= s < |at| ensures g.states[at[s]].finalWeight == f.states[s].finalWeight {
      assert SameState(f.states[s], g.states[s]);
    }
    forall x: nat | x < |g.states| ensures x in at {
      assert at[x] == x;
    }
  }

  /** What depends on the arcs of each state as a set is the same. */
  lemma RearrangedFacts(f: Fst<Weight>, g: Fst<Weight>)
    requires WellFormed(f) && Rearranged(f, g)
    ensures WellFormed(g) && SameFacts(f, g) && TopSorted(f) == TopSorted(g)
  {
    hide SameFacts, Simulates;
    RearrangedWellFormed(f, g);
    RearrangedBack(f, g);
    RearrangedSimulates(f, g);
    RearrangedSimulates(g, f);
    SimilarFacts(f, Here(|f.states|), g, Here(|g.states|));
    AscentShared(f, g);
    AscentShared(g, f);
  }

  lemma AscentShared(f: Fst<Weight>, g: Fst<Weight>)
    requires Rearranged(f, g)
    ensures TopSorted(g) ==> TopSorted(f)
  {
    if TopSorted(g) {
      forall s, i | 0 <= s < |f.states| && 0 <= i < |f.states[s].trs| ensures s < f.states[s].trs[i].nextstate {
        var j := SameTr(f, g, s, i);
      }
    }
  }

  // ------------------------------------------------ distinct labels

  lemma {:induction false} RepeatCounted<T(!new)>(l: seq<T>)
    ensures NoRepeats(l) <==> forall x :: multiset(l)[x] <= 1
  {
    if l != [] {
      var a, rest := l[0], l[1..];
      assert l == [a] + rest;
      RepeatCounted(rest);
      NoRepeatsCons(a, rest);
      assert multiset(l) == multiset{a} + multiset(rest);
      if NoRepeats(l) {
        assert forall x :: multiset(l)[x] <= 1;
      } else {
        if a in rest {
          assert multiset(l)[a] >= 2;
        } else {
          var x :| multiset(rest)[x] > 1;
          assert multiset(l)[x] > 1;
        }
      }
    }
  }

  ghost predicate OneArcPerOLabel<W(!new)>(trs: seq<Tr<W>>) {
    forall a, b :: a in trs && b in trs && a.olabel == b.olabel ==> a == b
  }

  predicate OLabelsDistinct<W>(trs: seq<Tr<W>>) {
    forall i, j :: 0 <= i < j < |trs| ==> trs[i].olabel != trs[j].olabel
  }

  /** Labels are distinct when no arc is there twice and no label is on two arcs. */
  lemma DistinctIs<W(!new)>(trs: seq<Tr<W>>)
    ensures LabelsDistinct(trs) <==> NoRepeats(trs) && OneArcPerLabel(trs)
    ensures OLabelsDistinct(trs) <==> NoRepeats(trs) && OneArcPerOLabel(trs)
  {
    if NoRepeats(trs) && OneArcPerLabel(trs) {
      forall i, j | 0 <= i < j < |trs| ensures trs[i].ilabel != trs[j].ilabel {
        assert trs[i] in trs && trs[j] in trs;
      }
    }
    if NoRepeats(trs) && OneArcPerOLabel(trs) {
      forall i, j | 0 <= i < j < |trs| ensures trs[i].olabel != trs[j].olabel {
        assert trs[i] in trs && trs[j] in trs;
      }
    }
  }

  lemma SortKeepsDistinct(trs: seq<Tr<Weight>>)
    ensures LabelsDistinct(SortTrs(trs)) == LabelsDistinct(trs) && OLabelsDistinct(SortTrs(trs)) == OLabelsDistinct(trs)
  {
    SortTrsSorted(trs);
    RepeatCounted(trs);
    RepeatCounted(SortTrs(trs));
    DistinctIs(trs);
    DistinctIs(SortTrs(trs));
  }

  lemma UniqueKeepsDistinct(trs: seq<Tr<Weight>>)
    ensures LabelsDistinct(trs) ==> LabelsDistinct(UniqueTrs(trs))
    ensures OLabelsDistinct(trs) ==> OLabelsDistinct(UniqueTrs(trs))
  {
    UniqueTrsExact(trs);
    UniqueTrsDistinct(trs);
    DistinctIs(trs);
    DistinctIs(UniqueTrs(trs));
    if NoRepeats(trs) {
      assert forall i: nat, j: nat, k: nat :: !Parted(trs, i, j, k);
    }
  }

  // ------------------------------------------------ the bits after sorting

  lemma SortedDeterminism(f: Fst<Weight>, g: Fst<Weight>)
    requires SortedAt(f, g)
    ensures Deterministic(f) == Deterministic(g) && OutputDeterministic(f) == OutputDeterministic(g)
  {
    forall s | 0 <= s < |f.states|
      ensures LabelsDistinct(f.states[s].trs) == LabelsDistinct(g.states[s].trs)
      ensures OLabelsDistinct(f.states[s].trs) == OLabelsDistinct(g.states[s].trs)
    {
      SortKeepsDistinct(f.states[s].trs);
    }
    DeterminismIs(f);
    DeterminismIs(g);
  }

  lemma DeterminismIs(f: Fst<Weight>)
    ensures Deterministic(f) <==> forall s :: 0 <= s < |f.states| ==> LabelsDistinct(f.states[s].trs)
    ensures OutputDeterministic(f) <==> forall s :: 0 <= s < |f.states| ==> OLabelsDistinct(f.states[s].trs)
  {
  }

  lemma SortedString(f: Fst<Weight>, g: Fst<Weight>)
    requires SortedAt(f, g)
    ensures IsString(f) == IsString(g)
  {
    forall s | 0 <= s < |f.states|
      ensures g.states[s].finalWeight == f.states[s].finalWeight && |g.states[s].trs| == |f.states[s].trs|
      ensures |f.states[s].trs| == 1 ==> g.states[s].trs[0] == f.states[s].trs[0]
    {
      SortTrsSorted(f.states[s].trs);
      if |f.states[s].trs| == 1 {
        assert g.states[s].trs[0] in g.states[s].trs;
      }
    }
  }

  lemma SortedOrder(f: Fst<Weight>, g: Fst<Weight>)
    requires SortedAt(f, g)
    ensures ILabelSorted(g) && (IsAcceptor(g) ==> OLabelSorted(g))
  {
    forall s | 0 <= s < |g.states| ensures LabelSorted(g.states[s].trs) {
      SortTrsSorted(f.states[s].trs);
    }
  }

  ghost predicate SortFacts(f: Fst<Weight>, g: Fst<Weight>) {
    && SameFacts(f, g) && TopSorted(f) == TopSorted(g) && IsString(f) == IsString(g)
    && Deterministic(f) == Deterministic(g) && OutputDeterministic(f) == OutputDeterministic(g)
    && ILabelSorted(g) && (IsAcceptor(g) ==> OLabelSorted(g))
  }

  lemma SortBit(f: Fst<Weight>, g: Fst<Weight>, p: Property)
    requires SortFacts(f, g) && p in ARCSORT_PROPERTIES && Holds(f, p)
    ensures Holds(g, p)
  {
    hide IsAcceptor, Deterministic, OutputDeterministic, NoEpsilons, NoInputEpsilons, NoOutputEpsilons, ILabelSorted,
         OLabelSorted, IsUnweighted, CyclesUnweighted, AllCoAccessible, AllAccessible, IsString, TopSorted, Acyclic,
         InitialAcyclic;
  }

  lemma SortOwnBits(f: Fst<Weight>, g: Fst<Weight>)
    requires SortFacts(f, g)
    ensures Holds(g, I_LABEL_SORTED) && (Holds(f, ACCEPTOR) ==> Holds(g, O_LABEL_SORTED))
  {
    hide IsAcceptor, Deterministic, OutputDeterministic, NoEpsilons, NoInputEpsilons, NoOutputEpsilons, ILabelSorted,
         OLabelSorted, IsUnweighted, CyclesUnweighted, AllCoAccessible, AllAccessible, IsString, TopSorted, Acyclic,
         InitialAcyclic;
  }

  /** Sorting by input label leaves only true bits. */
  lemma SortKeepsBits(f: Fst<Weight>, g: Fst<Weight>, props: set<Property>)
    requires WellFormed(f) && SortedAt(f, g) && BitsTrue(f, props)
    ensures WellFormed(g) && BitsTrue(g, SortedByILabel(props))
  {
    hide IsAcceptor, Deterministic, OutputDeterministic, ILabelSorted, OLabelSorted, IsString, TopSorted, SameFacts,
         WellFormed, ARCSORT_PROPERTIES, Holds, SortedAt, Rearranged;
    SortedRearranged(f, g);
    RearrangedFacts(f, g);
    SortedDeterminism(f, g);
    SortedString(f, g);
    SortedOrder(f, g);
    assert SortFacts(f, g);
    SortOwnBits(f, g);
    hide SortFacts;
    assert ACCEPTOR in props ==> Holds(f, ACCEPTOR);
    forall p | p in SortedByILabel(props) ensures Holds(g, p) {
      if p in props && p in ARCSORT_PROPERTIES {
        SortBit(f, g, p);
      }
    }
  }

  // ------------------------------------------------ the bits after removing repetitions

  ghost predicate UniqueFact(f: Fst<Weight>, g: Fst<Weight>) {
    && SameFacts(f, g) && TopSorted(f) == TopSorted(g)
    && (Deterministic(f) ==> Deterministic(g)) && (OutputDeterministic(f) ==> OutputDeterministic(g))
  }

  lemma UniqueBit(f: Fst<Weight>, g: Fst<Weight>, p: Property)
    requires UniqueFact(f, g) && Holds(f, p)
    requires (p in ARCSORT_PROPERTIES && p in DELETE_ARCS_PROPERTIES)
             || p == ACCESSIBLE || p == NOT_ACCESSIBLE || p == COACCESSIBLE || p == NOT_COACCESSIBLE
    ensures Holds(g, p)
  {
    hide IsAcceptor, Deterministic, OutputDeterministic, NoEpsilons, NoInputEpsilons, NoOutputEpsilons, ILabelSorted,
         OLabelSorted, IsUnweighted, CyclesUnweighted, AllCoAccessible, AllAccessible, IsString, TopSorted, Acyclic,
         InitialAcyclic;
  }

  lemma UniqueDeterminism(f: Fst<Weight>, g: Fst<Weight>)
    requires UniqueAt(f, g)
    ensures (Deterministic(f) ==> Deterministic(g)) && (OutputDeterministic(f) ==> OutputDeterministic(g))
  {
    forall s | 0 <= s < |f.states|
      ensures LabelsDistinct(f.states[s].trs) ==> LabelsDistinct(g.states[s].trs)
      ensures OLabelsDistinct(f.states[s].trs) ==> OLabelsDistinct(g.states[s].trs)
    {
      UniqueKeepsDistinct(f.states[s].trs);
    }
    DeterminismIs(f);
    DeterminismIs(g);
  }

  /** Removing repetitions leaves only true bits; the null bits are added to the empty machine alone. */
  lemma UniqueKeepsBits(f: Fst<Weight>, g: Fst<Weight>, props: set<Property>)
    requires WellFormed(f) && UniqueAt(f, g) && BitsTrue(f, props)
    ensures WellFormed(g) && BitsTrue(g, UniqueProperties(props, g.states == []))
    ensures {ACCESSIBLE, COACCESSIBLE} <= props ==>
              {ACCESSIBLE, COACCESSIBLE} <= UniqueProperties(props, g.states == [])
  {
    hide Deterministic, OutputDeterministic, TopSorted, SameFacts, WellFormed, ARCSORT_PROPERTIES,
         DELETE_ARCS_PROPERTIES, NULL_PROPERTIES, Holds, Rearranged, UniqueAt;
    UniqueRearranged(f, g);
    RearrangedFacts(f, g);
    UniqueDeterminism(f, g);
    assert UniqueFact(f, g);
    hide UniqueFact;
    EmptyTrue();
    if g.states == [] {
      NoneLeft(g);
    }
    forall p | p in UniqueProperties(props, g.states == []) ensures Holds(g, p) {
      if p in props * ARCSORT_PROPERTIES * DELETE_ARCS_PROPERTIES
         || p in props * {ACCESSIBLE, NOT_ACCESSIBLE, COACCESSIBLE, NOT_COACCESSIBLE} {
        UniqueBit(f, g, p);
      }
    }
  }

  lemma NoneLeft(g: Fst<Weight>)
    requires WellFormed(g) && g.states == []
    ensures g == Fst([], None)
  {
  }

  // ------------------------------------------------ the loops

  /** `tr_sort` by input label. */
  method TrSort(fst: VectorFst)
    modifies fst
    ensures SortedAt(old(fst.Value()), fst.Value()) && fst.properties == SortedByILabel(old(fst.properties))
    ensures old(WellFormed(fst.Value()) && BitsTrue(fst.Value(), fst.properties)) ==>
              WellFormed(fst.Value()) && BitsTrue(fst.Value(), fst.properties)
  {
    hide BitsTrue, SortedByILabel;
    ghost var f, props := fst.Value(), fst.properties;
    for s := 0 to |fst.states|
      invariant fst.start == old(fst.start) && |fst.states| == |old(fst.states)|
                && fst.properties == old(fst.properties)
      invariant forall t :: 0 <= t < |fst.states| ==>
                  fst.states[t] ==
                    var state := old(fst.states)[t]; if t < s then state.(trs := SortTrs(state.trs)) else state
    {
      fst.ReplaceTrs(s, SortTrs(fst.states[s].trs));
    }
    fst.properties := SortedByILabel(fst.properties);
    if WellFormed(f) && BitsTrue(f, props) {
      SortKeepsBits(f, fst.Value(), props);
    }
  }

  method TrUnique(fst: VectorFst)
    modifies fst
    ensures UniqueAt(old(fst.Value()), fst.Value())
    ensures fst.properties == UniqueProperties(old(fst.properties), fst.states == [])
    ensures old(WellFormed(fst.Value()) && BitsTrue(fst.Value(), fst.properties)) ==>
              WellFormed(fst.Value()) && BitsTrue(fst.Value(), fst.properties)
              && (old({ACCESSIBLE, COACCESSIBLE} <= fst.properties) ==> {ACCESSIBLE, COACCESSIBLE} <= fst.properties)
  {
    hide BitsTrue, UniqueProperties;
    ghost var f, props := fst.Value(), fst.properties;
    for s := 0 to |fst.states|
      invariant fst.start == old(fst.start) && |fst.states| == |old(fst.states)|
                && fst.properties == old(fst.properties)
      invariant forall t :: 0 <= t < |fst.states| ==>
                  fst.states[t] ==
                    var state := old(fst.states)[t]; if t < s then state.(trs := UniqueTrs(state.trs)) else state
    {
      fst.ReplaceTrs(s, UniqueTrs(fst.states[s].trs));
    }
    fst.properties := UniqueProperties(fst.properties, fst.states == []);
    if WellFormed(f) && BitsTrue(f, props) {
      UniqueKeepsBits(f, fst.Value(), props);
    }
  }
}
