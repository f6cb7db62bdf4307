/** What the property bits mean, and that every mutation keeps the set bits true. */
module PropertyBits {
  import opened Fsts
  import opened Acceptors
  import opened Properties
  import opened Trims
  import opened VectorFsts
  import opened Weights

  // ------------------------------------------------ the meaning of the bits

  predicate OutputDeterministic(f: Fst<Weight>) {
    forall s, i, j :: 0 <= s < |f.states| && 0 <= i < j < |f.states[s].trs|
      ==> f.states[s].trs[i].olabel != f.states[s].trs[j].olabel
  }

  predicate OLabelSorted(f: Fst<Weight>) {
    forall s, i, j :: 0 <= s < |f.states| && 0 <= i < j < |f.states[s].trs|
      ==> f.states[s].trs[i].olabel <= f.states[s].trs[j].olabel
  }

  predicate NoEpsilons(f: Fst<Weight>) {
    forall s, i :: 0 <= s < |f.states| && 0 <= i < |f.states[s].trs| ==>
      !(f.states[s].trs[i].ilabel == EPS_LABEL && f.states[s].trs[i].olabel == EPS_LABEL)
  }

  predicate NoInputEpsilons(f: Fst<Weight>) {
    forall s, i :: 0 <= s < |f.states| && 0 <= i < |f.states[s].trs| ==> f.states[s].trs[i].ilabel != EPS_LABEL
  }

  predicate NoOutputEpsilons(f: Fst<Weight>) {
    forall s, i :: 0 <= s < |f.states| && 0 <= i < |f.states[s].trs| ==> f.states[s].trs[i].olabel != EPS_LABEL
  }

  ghost predicate InitialAcyclic<W>(f: Fst<W>) {
    f.start.Some? ==> forall p :: p != [] ==> !IsPath(f, f.start.value, p, f.start.value)
  }

  ghost predicate AllAccessible<W>(f: Fst<W>) {
    forall s :: 0 <= s < |f.states| ==> Accessible(f, s)
  }

  /** One chain from state 0 to the last state, the only final one. */
  predicate IsString(f: Fst<Weight>) {
    f.states != [] ==>
      && f.start == Some(0)
      && forall s :: 0 <= s < |f.states| ==>
           if s + 1 == |f.states| then f.states[s].finalWeight.Some? && f.states[s].trs == []
           else f.states[s].finalWeight.None? && |f.states[s].trs| == 1 && f.states[s].trs[0].nextstate == s + 1
  }

  /** Arcs on cycles weigh zero or one. */
  ghost predicate CyclesUnweighted(f: Fst<Weight>) {
    forall e :: IsEdge(f, e) && Reach(f, Arc(f, e).nextstate, e.src) ==> Trivial(Arc(f, e).weight)
  }

  ghost predicate Holds(f: Fst<Weight>, p: Property) {
    match p
    case ACCEPTOR => IsAcceptor(f)
    case NOT_ACCEPTOR => !IsAcceptor(f)
    case I_DETERMINISTIC => Deterministic(f)
    case NOT_I_DETERMINISTIC => !Deterministic(f)
    case O_DETERMINISTIC => OutputDeterministic(f)
    case NOT_O_DETERMINISTIC => !OutputDeterministic(f)
    case EPSILONS => !NoEpsilons(f)
    case NO_EPSILONS => NoEpsilons(f)
    case I_EPSILONS => !NoInputEpsilons(f)
    case NO_I_EPSILONS => NoInputEpsilons(f)
    case O_EPSILONS => !NoOutputEpsilons(f)
    case NO_O_EPSILONS => NoOutputEpsilons(f)
    case I_LABEL_SORTED => ILabelSorted(f)
    case NOT_I_LABEL_SORTED => !ILabelSorted(f)
    case O_LABEL_SORTED => OLabelSorted(f)
    case NOT_O_LABEL_SORTED => !OLabelSorted(f)
    case WEIGHTED => !IsUnweighted(f)
    case UNWEIGHTED => IsUnweighted(f)
    case CYCLIC => !Acyclic(f)
    case ACYCLIC => Acyclic(f)
    case INITIAL_CYCLIC => !InitialAcyclic(f)
    case INITIAL_ACYCLIC => InitialAcyclic(f)
    case TOP_SORTED => TopSorted(f)
    case NOT_TOP_SORTED => !TopSorted(f)
    case ACCESSIBLE => AllAccessible(f)
    case NOT_ACCESSIBLE => !AllAccessible(f)
    case COACCESSIBLE => AllCoAccessible(f)
    case NOT_COACCESSIBLE => !AllCoAccessible(f)
    case STRING => IsString(f)
    case NOT_STRING => !IsString(f)
    case WEIGHTED_CYCLES => !CyclesUnweighted(f)
    case UNWEIGHTED_CYCLES => CyclesUnweighted(f)
  }

  /** Every set bit is true. */
  ghost predicate BitsTrue(f: Fst<Weight>, props: set<Property>) {
    forall p :: p in props ==> Holds(f, p)
  }

  /** The other bit of the pair. */
  function Opposite(p: Property): (q: Property)
    ensures q != p
  {
    match p
    case ACCEPTOR => NOT_ACCEPTOR case NOT_ACCEPTOR => ACCEPTOR
    case I_DETERMINISTIC => NOT_I_DETERMINISTIC case NOT_I_DETERMINISTIC => I_DETERMINISTIC
    case O_DETERMINISTIC => NOT_O_DETERMINISTIC case NOT_O_DETERMINISTIC => O_DETERMINISTIC
    case EPSILONS => NO_EPSILONS case NO_EPSILONS => EPSILONS
    case I_EPSILONS => NO_I_EPSILONS case NO_I_EPSILONS => I_EPSILONS
    case O_EPSILONS => NO_O_EPSILONS case NO_O_EPSILONS => O_EPSILONS
    case I_LABEL_SORTED => NOT_I_LABEL_SORTED case NOT_I_LABEL_SORTED => I_LABEL_SORTED
    case O_LABEL_SORTED => NOT_O_LABEL_SORTED case NOT_O_LABEL_SORTED => O_LABEL_SORTED
    case WEIGHTED => UNWEIGHTED case UNWEIGHTED => WEIGHTED
    case CYCLIC => ACYCLIC case ACYCLIC => CYCLIC
    case INITIAL_CYCLIC => INITIAL_ACYCLIC case INITIAL_ACYCLIC => INITIAL_CYCLIC
    case TOP_SORTED => NOT_TOP_SORTED case NOT_TOP_SORTED => TOP_SORTED
    case ACCESSIBLE => NOT_ACCESSIBLE case NOT_ACCESSIBLE => ACCESSIBLE
    case COACCESSIBLE => NOT_COACCESSIBLE case NOT_COACCESSIBLE => COACCESSIBLE
    case STRING => NOT_STRING case NOT_STRING => STRING
    case WEIGHTED_CYCLES => UNWEIGHTED_CYCLES case UNWEIGHTED_CYCLES => WEIGHTED_CYCLES
  }

  lemma OppositeHolds(f: Fst<Weight>, p: Property)
    ensures Holds(f, Opposite(p)) <==> !Holds(f, p)
  {
    hide IsAcceptor, Deterministic, OutputDeterministic, NoEpsilons, NoInputEpsilons, NoOutputEpsilons, ILabelSorted,
         OLabelSorted, IsUnweighted, CyclesUnweighted, AllCoAccessible, AllAccessible, IsString, TopSorted, Acyclic,
         InitialAcyclic;
  }

  /** True bits never contradict each other. */
  lemma NoContradiction(f: Fst<Weight>, props: set<Property>, p: Property)
    requires BitsTrue(f, props)
    ensures !(p in props && Opposite(p) in props)
  {
    OppositeHolds(f, p);
    hide Holds, Opposite;
    assert p in props ==> Holds(f, p);
  }

  /** A topological order allows no cycle, and no cycles no initial one. */
  lemma CycleBits(f: Fst<Weight>, props: set<Property>)
    requires BitsTrue(f, props)
    ensures TOP_SORTED in props ==> Holds(f, ACYCLIC)
    ensures ACYCLIC in props ==> Holds(f, INITIAL_ACYCLIC)
    ensures CYCLIC in props ==> TOP_SORTED !in props
    ensures INITIAL_CYCLIC in props ==> ACYCLIC !in props
  {
    hide IsPath;
    assert TOP_SORTED in props ==> Holds(f, TOP_SORTED);
    assert CYCLIC in props ==> Holds(f, CYCLIC);
    assert ACYCLIC in props ==> Holds(f, ACYCLIC);
    assert INITIAL_CYCLIC in props ==> Holds(f, INITIAL_CYCLIC);
    if TopSorted(f) {
      TopSortedAcyclic(f);
    }
    if Acyclic(f) {
      AcyclicInitially(f);
    }
  }

  lemma AcyclicInitially<W>(f: Fst<W>)
    requires Acyclic(f)
    ensures InitialAcyclic(f)
  {
  }

  lemma {:induction false} TopSortedAscends<W>(f: Fst<W>, s: nat, p: seq<Edge>, t: nat)
    requires TopSorted(f) && IsPath(f, s, p, t)
    ensures s <= t && (p != [] ==> s < t)
    decreases |p|
  {
    if p != [] {
      TopSortedAscends(f, Arc(f, p[0]).nextstate, p[1..], t);
    }
  }

  lemma TopSortedAcyclic<W>(f: Fst<W>)
    requires TopSorted(f)
    ensures Acyclic(f) && InitialAcyclic(f)
  {
    forall s, p | p != [] ensures !IsPath(f, s, p, s) {
      if IsPath(f, s, p, s) {
        TopSortedAscends(f, s, p, s);
      }
    }
  }

  // ------------------------------------------------ machines with fewer arcs

  /** Every arc of `f` is an arc of `g`. */
  ghost predicate ArcsIn(f: Fst<Weight>, g: Fst<Weight>) {
    forall e :: IsEdge(f, e) ==> IsEdge(g, e) && Arc(g, e) == Arc(f, e)
  }

  lemma {:induction false} PathIn(f: Fst<Weight>, g: Fst<Weight>, s: nat, p: seq<Edge>, t: nat)
    requires ArcsIn(f, g) && IsPath(f, s, p, t) && t < |g.states|
    ensures IsPath(g, s, p, t)
    decreases |p|
  {
    if p != [] {
      PathIn(f, g, Arc(f, p[0]).nextstate, p[1..], t);
    }
  }

  lemma ReachIn(f: Fst<Weight>, g: Fst<Weight>, s: nat, t: nat)
    requires ArcsIn(f, g) && Reach(f, s, t) && t < |g.states|
    ensures Reach(g, s, t)
  {
    var p := ReachPath(f, s, t);
    PathIn(f, g, s, p, t);
  }

  /** The facts that say there is no such thing pass from `f` to `g`. */
  ghost predicate Inherits(f: Fst<Weight>, g: Fst<Weight>) {
    && (IsAcceptor(f) ==> IsAcceptor(g))
    && (Deterministic(f) ==> Deterministic(g)) && (OutputDeterministic(f) ==> OutputDeterministic(g))
    && (NoEpsilons(f) ==> NoEpsilons(g)) && (NoInputEpsilons(f) ==> NoInputEpsilons(g))
      && (NoOutputEpsilons(f) ==> NoOutputEpsilons(g))
    && (ILabelSorted(f) ==> ILabelSorted(g)) && (OLabelSorted(f) ==> OLabelSorted(g))
    && (Acyclic(f) ==> Acyclic(g)) && (TopSorted(f) ==> TopSorted(g)) && (CyclesUnweighted(f) ==> CyclesUnweighted(g))
  }

  lemma FewerLabels(f: Fst<Weight>, g: Fst<Weight>)
    requires ArcsIn(g, f)
    ensures IsAcceptor(f) ==> IsAcceptor(g)
    ensures Deterministic(f) ==> Deterministic(g)
    ensures OutputDeterministic(f) ==> OutputDeterministic(g)
    ensures NoEpsilons(f) ==> NoEpsilons(g)
    ensures NoInputEpsilons(f) ==> NoInputEpsilons(g)
    ensures NoOutputEpsilons(f) ==> NoOutputEpsilons(g)
    ensures ILabelSorted(f) ==> ILabelSorted(g)
    ensures OLabelSorted(f) ==> OLabelSorted(g)
    ensures TopSorted(f) ==> TopSorted(g)
  {
    forall s, i | 0 <= s < |g.states| && 0 <= i < |g.states[s].trs|
      ensures s < |f.states| && i < |f.states[s].trs| && f.states[s].trs[i] == g.states[s].trs[i]
    {
      assert IsEdge(g, Edge(s, i)) && Arc(f, Edge(s, i)) == Arc(g, Edge(s, i));
    }
  }

  /** Fewer arcs make no new cycle. */
  lemma FewerCycles(f: Fst<Weight>, g: Fst<Weight>)
    requires WellFormed(g) && ArcsIn(g, f)
    ensures Acyclic(f) ==> Acyclic(g)
    ensures f.start == g.start && InitialAcyclic(f) ==> InitialAcyclic(g)
    ensures CyclesUnweighted(f) ==> CyclesUnweighted(g)
  {
    forall s, p | p != [] && IsPath(g, s, p, s) ensures IsPath(f, s, p, s) {
      assert IsEdge(f, p[0]);
      PathIn(g, f, s, p, s);
    }
    forall e | IsEdge(g, e) && Reach(g, Arc(g, e).nextstate, e.src)
      ensures IsEdge(f, e) && Reach(f, Arc(g, e).nextstate, e.src) {
      ReachIn(g, f, Arc(g, e).nextstate, e.src);
    }
  }

  lemma FewerInherits(f: Fst<Weight>, g: Fst<Weight>)
    requires WellFormed(g) && ArcsIn(g, f)
    ensures Inherits(f, g) && (f.start == g.start && InitialAcyclic(f) ==> InitialAcyclic(g))
  {
    hide IsAcceptor, Deterministic, OutputDeterministic, NoEpsilons, NoInputEpsilons, NoOutputEpsilons, ILabelSorted,
         OLabelSorted, IsUnweighted, CyclesUnweighted, AllCoAccessible, AllAccessible, IsString, TopSorted, Acyclic,
         InitialAcyclic, ArcsIn, IsPath, Reach, WellFormed;
    FewerLabels(f, g);
    FewerCycles(f, g);
  }

  /** More arcs lose no path. */
  lemma MorePaths(f: Fst<Weight>, g: Fst<Weight>, s: nat)
    requires ArcsIn(f, g) && |f.states| <= |g.states| && s < |f.states| && WellFormed(f)
    ensures f.start == g.start && Accessible(f, s) ==> Accessible(g, s)
    ensures (forall t: nat :: IsFinal(f, t) ==> IsFinal(g, t)) && CoReach(f, s) ==> CoReach(g, s)
  {
    if f.start == g.start && Accessible(f, s) {
      ReachIn(f, g, f.start.value, s);
    }
    if (forall t: nat :: IsFinal(f, t) ==> IsFinal(g, t)) && CoReach(f, s) {
      var t: nat :| Reach(f, s, t) && IsFinal(f, t);
      ReachIn(f, g, s, t);
    }
  }

  // ------------------------------------------------ what each mutation does to the facts

  /** The same arcs out of every state. */
  ghost predicate SameTrs(f: Fst<Weight>, g: Fst<Weight>) {
    |f.states| == |g.states| && forall s :: 0 <= s < |f.states| ==> f.states[s].trs == g.states[s].trs
  }

  ghost predicate FewerAccessible(f: Fst<Weight>, g: Fst<Weight>) {
    AllAccessible(g) ==> AllAccessible(f)
  }

  ghost predicate FewerCoAccessible(f: Fst<Weight>, g: Fst<Weight>) {
    AllCoAccessible(g) ==> AllCoAccessible(f)
  }

  lemma SameTrsInherits(f: Fst<Weight>, g: Fst<Weight>)
    requires WellFormed(f) && WellFormed(g) && SameTrs(f, g)
    ensures ArcsIn(f, g) && Inherits(f, g) && (f.start == g.start && InitialAcyclic(f) ==> InitialAcyclic(g))
  {
    hide IsAcceptor, Deterministic, OutputDeterministic, NoEpsilons, NoInputEpsilons, NoOutputEpsilons, ILabelSorted,
         OLabelSorted, IsUnweighted, CyclesUnweighted, AllCoAccessible, AllAccessible, IsString, TopSorted, Acyclic,
         InitialAcyclic, IsPath, Reach;
    FewerInherits(f, g);
  }

  /** With the states of `f` first in `g` and all arcs of `f` in `g`, what is accessible stays so. */
  lemma GrownAccess(f: Fst<Weight>, g: Fst<Weight>)
    requires WellFormed(f) && ArcsIn(f, g) && |f.states| <= |g.states| && f.start == g.start
    ensures |f.states| == |g.states| && AllAccessible(f) ==> AllAccessible(g)
    ensures |f.states| == |g.states| && (forall t: nat :: IsFinal(f, t) ==> IsFinal(g, t)) && AllCoAccessible(f)
            ==> AllCoAccessible(g)
  {
    hide Accessible, CoReach;
    forall s: nat | s < |f.states|
      ensures Accessible(f, s) ==> Accessible(g, s)
      ensures (forall t: nat :: IsFinal(f, t) ==> IsFinal(g, t)) && CoReach(f, s) ==> CoReach(g, s)
    {
      MorePaths(f, g, s);
    }
  }

  // ---- a start state

  ghost predicate StartFacts(f: Fst<Weight>, g: Fst<Weight>) {
    Inherits(f, g) && Inherits(g, f) && IsUnweighted(f) == IsUnweighted(g) && AllCoAccessible(f) == AllCoAccessible(g)
  }

  lemma StartBit(f: Fst<Weight>, g: Fst<Weight>, p: Property)
    requires StartFacts(f, g) && p in SET_START_PROPERTIES && Holds(f, p)
    ensures Holds(g, p)
  {
    hide IsAcceptor, Deterministic, OutputDeterministic, NoEpsilons, NoInputEpsilons, NoOutputEpsilons, ILabelSorted,
         OLabelSorted, IsUnweighted, CyclesUnweighted, AllCoAccessible, AllAccessible, IsString, TopSorted, Acyclic,
         InitialAcyclic;
  }

  lemma SetStartFacts(f: Fst<Weight>, g: Fst<Weight>)
    requires WellFormed(f) && WellFormed(g) && f.states == g.states
    ensures StartFacts(f, g)
  {
    hide IsAcceptor, Deterministic, OutputDeterministic, NoEpsilons, NoInputEpsilons, NoOutputEpsilons, ILabelSorted,
         OLabelSorted, IsUnweighted, CyclesUnweighted, AllCoAccessible, AllAccessible, IsString, TopSorted, Acyclic,
         InitialAcyclic, IsPath, Reach, Inherits, CoReach;
    SameTrsInherits(f, g);
    SameTrsInherits(g, f);
    SameFinals(f, g);
    SameWeights(f, g);
  }

  lemma SameFinals(f: Fst<Weight>, g: Fst<Weight>)
    requires WellFormed(f) && WellFormed(g) && SameTrs(f, g) && forall t: nat :: IsFinal(f, t) == IsFinal(g, t)
    ensures AllCoAccessible(f) == AllCoAccessible(g)
  {
    hide Accessible, CoReach, WellFormed;
    forall s: nat | s < |f.states| ensures CoReach(f, s) == CoReach(g, s) {
      MorePaths(f, g, s);
      MorePaths(g, f, s);
    }
  }

  lemma SameWeights(f: Fst<Weight>, g: Fst<Weight>)
    requires SameTrs(f, g) &&
         forall s :: 0 <= s < |f.states| ==> NonTrivial(f.states[s].finalWeight) == NonTrivial(g.states[s].finalWeight)
    ensures IsUnweighted(f) == IsUnweighted(g)
  {
  }

  lemma SetStartKeeps(f: Fst<Weight>, s: nat, props: set<Property>)
    requires WellFormed(f) && s < |f.states| && BitsTrue(f, props)
    ensures BitsTrue(f.(start := Some(s)), SetStartProperties(props))
  {
    hide IsAcceptor, Deterministic, OutputDeterministic, NoEpsilons, NoInputEpsilons, NoOutputEpsilons, ILabelSorted,
         OLabelSorted, IsUnweighted, CyclesUnweighted, AllCoAccessible, AllAccessible, IsString, TopSorted, Acyclic,
         InitialAcyclic, SET_START_PROPERTIES, StartFacts;
    var g := f.(start := Some(s));
    SetStartFacts(f, g);
    forall p | p in SetStartProperties(props) ensures Holds(g, p) {
      if p in props && p in SET_START_PROPERTIES {
        StartBit(f, g, p);
      } else {
        assert Holds(f, ACYCLIC);
        StillAcyclic(f, g);
      }
    }
  }

  lemma StillAcyclic(f: Fst<Weight>, g: Fst<Weight>)
    requires StartFacts(f, g) && Acyclic(f)
    ensures InitialAcyclic(g)
  {
    AcyclicInitially(g);
  }

  // ---- a final weight

  ghost predicate FinalFacts(f: Fst<Weight>, g: Fst<Weight>) {
    Inherits(f, g) && Inherits(g, f) && InitialAcyclic(f) == InitialAcyclic(g) && AllAccessible(f) == AllAccessible(g)
  }

  lemma FinalBit(f: Fst<Weight>, g: Fst<Weight>, p: Property)
    requires FinalFacts(f, g) && p in SET_FINAL_PROPERTIES && Holds(f, p)
    ensures Holds(g, p)
  {
    hide IsAcceptor, Deterministic, OutputDeterministic, NoEpsilons, NoInputEpsilons, NoOutputEpsilons, ILabelSorted,
         OLabelSorted, IsUnweighted, CyclesUnweighted, AllCoAccessible, AllAccessible, IsString, TopSorted, Acyclic,
         InitialAcyclic;
  }

  function WithFinal(f: Fst<Weight>, s: nat, w: Option<Weight>): Fst<Weight>
    requires s < |f.states|
  {
    f.(states := f.states[s := f.states[s].(finalWeight := w)])
  }

  lemma SetFinalFacts(f: Fst<Weight>, s: nat, w: Option<Weight>)
    requires WellFormed(f) && s < |f.states|
    ensures FinalFacts(f, WithFinal(f, s, w))
  {
    hide IsAcceptor, Deterministic, OutputDeterministic, NoEpsilons, NoInputEpsilons, NoOutputEpsilons, ILabelSorted,
         OLabelSorted, IsUnweighted, CyclesUnweighted, AllCoAccessible, AllAccessible, IsString, TopSorted, Acyclic,
         InitialAcyclic, IsPath, Reach, Inherits, Accessible;
    var g := WithFinal(f, s, w);
    SameTrsInherits(f, g);
    SameTrsInherits(g, f);
    GrownAccess(f, g);
    GrownAccess(g, f);
  }

  lemma SetFinalWeights(f: Fst<Weight>, s: nat, w: Option<Weight>)
    requires s < |f.states|
    ensures NonTrivial(w) ==> !IsUnweighted(WithFinal(f, s, w))
    ensures !NonTrivial(w) && IsUnweighted(f) ==> IsUnweighted(WithFinal(f, s, w))
    ensures !NonTrivial(f.states[s].finalWeight) && !IsUnweighted(f) ==> !IsUnweighted(WithFinal(f, s, w))
  {
    var g := WithFinal(f, s, w);
    if NonTrivial(w) {
      assert NonTrivial(g.states[s].finalWeight);
    }
    if IsUnweighted(g) && !NonTrivial(f.states[s].finalWeight) {
      forall t | 0 <= t < |f.states|
        ensures !NonTrivial(f.states[t].finalWeight) &&
             forall i :: 0 <= i < |f.states[t].trs| ==> Trivial(f.states[t].trs[i].weight)
      {
        assert f.states[t].trs == g.states[t].trs;
        assert forall i :: 0 <= i < |g.states[t].trs| ==> Trivial(g.states[t].trs[i].weight);
      }
    }
  }

  /** Where the bits after a final weight is set come from. */
  lemma SetFinalIn(props: set<Property>, was: Option<Weight>, now: Option<Weight>, p: Property)
    requires p in SetFinalProperties(props, was, now)
    ensures p == WEIGHTED ==> NonTrivial(now) || (WEIGHTED in props && !NonTrivial(was))
    ensures p == UNWEIGHTED ==> UNWEIGHTED in props && !NonTrivial(now)
    ensures p != WEIGHTED && p != UNWEIGHTED ==> p in props && p in SET_FINAL_PROPERTIES
  {
  }

  lemma SetFinalKeeps(f: Fst<Weight>, s: nat, w: Option<Weight>, props: set<Property>)
    requires WellFormed(f) && s < |f.states| && BitsTrue(f, props)
    ensures BitsTrue(WithFinal(f, s, w), SetFinalProperties(props, f.states[s].finalWeight, w))
  {
    hide IsAcceptor, Deterministic, OutputDeterministic, NoEpsilons, NoInputEpsilons, NoOutputEpsilons, ILabelSorted,
         OLabelSorted, IsUnweighted, CyclesUnweighted, AllCoAccessible, AllAccessible, IsString, TopSorted, Acyclic,
         InitialAcyclic, SET_FINAL_PROPERTIES, FinalFacts, SetFinalProperties, WithFinal;
    var g := WithFinal(f, s, w);
    SetFinalFacts(f, s, w);
    SetFinalWeights(f, s, w);
    forall p | p in SetFinalProperties(props, f.states[s].finalWeight, w) ensures Holds(g, p) {
      SetFinalIn(props, f.states[s].finalWeight, w, p);
      assert p in props ==> Holds(f, p);
      if p != WEIGHTED && p != UNWEIGHTED {
        FinalBit(f, g, p);
      }
    }
  }

  // ---- a new state

  ghost predicate StateFacts(f: Fst<Weight>, g: Fst<Weight>) {
    && Inherits(f, g) && Inherits(g, f) && InitialAcyclic(f) == InitialAcyclic(g) && IsUnweighted(f) == IsUnweighted(g)
    && FewerAccessible(f, g) && FewerCoAccessible(f, g) && (IsString(g) ==> IsString(f))
  }

  lemma StateBit(f: Fst<Weight>, g: Fst<Weight>, p: Property)
    requires StateFacts(f, g) && p in ADD_STATE_PROPERTIES && Holds(f, p)
    ensures Holds(g, p)
  {
    hide IsAcceptor, Deterministic, OutputDeterministic, NoEpsilons, NoInputEpsilons, NoOutputEpsilons, ILabelSorted,
         OLabelSorted, IsUnweighted, CyclesUnweighted, AllCoAccessible, AllAccessible, IsString, TopSorted, Acyclic,
         InitialAcyclic;
  }

  function WithState(f: Fst<Weight>): Fst<Weight> {
    f.(states := f.states + [State(None, [])])
  }

  lemma WithStateArcs(f: Fst<Weight>)
    requires WellFormed(f)
    ensures var g := WithState(f); WellFormed(g) && ArcsIn(f, g) && ArcsIn(g, f) && forall t: nat ::
        IsFinal(f, t) == IsFinal(g, t)
    ensures IsUnweighted(WithState(f)) == IsUnweighted(f) && !IsString(WithState(f))
  {
    var g := WithState(f);
    assert g.states[|f.states|] == State(None, []);
    assert forall s :: 0 <= s < |f.states| ==> g.states[s] == f.states[s];
  }

  lemma AddStateFacts(f: Fst<Weight>)
    requires WellFormed(f)
    ensures StateFacts(f, WithState(f))
  {
    hide IsAcceptor, Deterministic, OutputDeterministic, NoEpsilons, NoInputEpsilons, NoOutputEpsilons, ILabelSorted,
         OLabelSorted, IsUnweighted, CyclesUnweighted, AllCoAccessible, AllAccessible, IsString, TopSorted, Acyclic,
         InitialAcyclic, IsPath, Reach, Inherits, FewerAccessible, FewerCoAccessible;
    var g := WithState(f);
    WithStateArcs(f);
    FewerInherits(f, g);
    FewerInherits(g, f);
    OldStates(f, g);
  }

  /** The old states reach, and are reached from, the same states as before. */
  lemma OldStates(f: Fst<Weight>, g: Fst<Weight>)
    requires WellFormed(f) && ArcsIn(g, f) && |f.states| <= |g.states| && f.start == g.start && WellFormed(g)
    requires forall t: nat :: IsFinal(g, t) ==> IsFinal(f, t)
    ensures FewerAccessible(f, g) && FewerCoAccessible(f, g)
  {
    hide IsPath;
    if AllAccessible(g) {
      forall s: nat | s < |f.states| ensures Accessible(f, s) {
        assert Accessible(g, s);
        ReachIn(g, f, f.start.value, s);
      }
    }
    if AllCoAccessible(g) {
      forall s: nat | s < |f.states| ensures CoReach(f, s) {
        assert CoReach(g, s);
        var t: nat :| Reach(g, s, t) && IsFinal(g, t);
        ReachIn(g, f, s, t);
      }
    }
  }

  lemma AddStateKeeps(f: Fst<Weight>, props: set<Property>)
    requires WellFormed(f) && BitsTrue(f, props)
    ensures BitsTrue(WithState(f), AddStateProperties(props)) && WellFormed(WithState(f))
  {
    hide IsAcceptor, Deterministic, OutputDeterministic, NoEpsilons, NoInputEpsilons, NoOutputEpsilons, ILabelSorted,
         OLabelSorted, IsUnweighted, CyclesUnweighted, AllCoAccessible, AllAccessible, IsString, TopSorted, Acyclic,
         InitialAcyclic, ADD_STATE_PROPERTIES, StateFacts;
    AddStateFacts(f);
    WithStateArcs(f);
    forall p | p in AddStateProperties(props) ensures Holds(WithState(f), p) {
      StateBit(f, WithState(f), p);
    }
  }

  // ---- fewer arcs

  ghost predicate FewerFacts(f: Fst<Weight>, g: Fst<Weight>) {
    && Inherits(f, g) && (InitialAcyclic(f) ==> InitialAcyclic(g)) && (IsUnweighted(f) ==> IsUnweighted(g))
    && FewerAccessible(f, g) && FewerCoAccessible(f, g)
  }

  lemma FewerBit(f: Fst<Weight>, g: Fst<Weight>, p: Property)
    requires FewerFacts(f, g) && p in DELETE_ARCS_PROPERTIES && Holds(f, p)
    ensures Holds(g, p)
  {
    hide IsAcceptor, Deterministic, OutputDeterministic, NoEpsilons, NoInputEpsilons, NoOutputEpsilons, ILabelSorted,
         OLabelSorted, IsUnweighted, CyclesUnweighted, AllCoAccessible, AllAccessible, IsString, TopSorted, Acyclic,
         InitialAcyclic;
  }

  function WithoutTrs(f: Fst<Weight>, s: nat): Fst<Weight>
    requires s < |f.states|
  {
    f.(states := f.states[s := f.states[s].(trs := [])])
  }

  lemma DeleteTrsKeeps(f: Fst<Weight>, s: nat, props: set<Property>)
    requires WellFormed(f) && s < |f.states| && BitsTrue(f, props)
    ensures BitsTrue(WithoutTrs(f, s), props * DELETE_ARCS_PROPERTIES) && WellFormed(WithoutTrs(f, s))
  {
    hide IsAcceptor, Deterministic, OutputDeterministic, NoEpsilons, NoInputEpsilons, NoOutputEpsilons, ILabelSorted,
         OLabelSorted, IsUnweighted, CyclesUnweighted, AllCoAccessible, AllAccessible, IsString, TopSorted, Acyclic,
         InitialAcyclic, IsPath, Reach, DELETE_ARCS_PROPERTIES, FewerAccessible, FewerCoAccessible, Inherits;
    var g := WithoutTrs(f, s);
    FewerInherits(f, g);
    OldStates(f, g);
    WithoutWeights(f, s);
    forall p | p in props * DELETE_ARCS_PROPERTIES ensures Holds(g, p) {
      FewerBit(f, g, p);
    }
  }

  lemma WithoutWeights(f: Fst<Weight>, s: nat)
    requires s < |f.states|
    ensures IsUnweighted(f) ==> IsUnweighted(WithoutTrs(f, s))
  {
  }

  // ---- one more arc

  function WithTr(f: Fst<Weight>, s: nat, tr: Tr<Weight>): Fst<Weight>
    requires s < |f.states|
  {
    f.(states := f.states[s := f.states[s].(trs := f.states[s].trs + [tr])])
  }

  lemma WithTrArcs(f: Fst<Weight>, s: nat, tr: Tr<Weight>)
    requires WellFormed(f) && s < |f.states| && tr.nextstate < |f.states|
    ensures var g := WithTr(f, s, tr); WellFormed(g) && ArcsIn(f, g) && forall t: nat :: IsFinal(f, t) == IsFinal(g, t)
    ensures var g := WithTr(f, s, tr); IsEdge(g, Edge(s, |f.states[s].trs|)) && Arc(g, Edge(s, |f.states[s].trs|)) == tr
    ensures forall e :: IsEdge(WithTr(f, s, tr), e) && e != Edge(s, |f.states[s].trs|) ==>
        IsEdge(f, e) && Arc(WithTr(f, s, tr), e) == Arc(f, e)
  {
  }

  /** What the new arc adds and refutes. */
  ghost predicate ArcFacts(f: Fst<Weight>, g: Fst<Weight>, s: nat, tr: Tr<Weight>, prev: Option<Tr<Weight>>) {
    && Inherits(g, f) && (InitialAcyclic(g) ==> InitialAcyclic(f)) && (IsUnweighted(g) ==> IsUnweighted(f))
    && (AllAccessible(f) ==> AllAccessible(g)) && (AllCoAccessible(f) ==> AllCoAccessible(g))
    && (if tr.ilabel != tr.olabel then !IsAcceptor(g) else IsAcceptor(f) ==> IsAcceptor(g))
    && (if tr.ilabel == EPS_LABEL then !NoInputEpsilons(g) else NoInputEpsilons(f) ==> NoInputEpsilons(g))
    && (if tr.ilabel == EPS_LABEL && tr.olabel == EPS_LABEL then !NoEpsilons(g) else NoEpsilons(f) ==> NoEpsilons(g))
    && (if tr.olabel == EPS_LABEL then !NoOutputEpsilons(g) else NoOutputEpsilons(f) ==> NoOutputEpsilons(g))
    && (if prev.Some? && prev.value.ilabel > tr.ilabel then !ILabelSorted(g) else ILabelSorted(f) ==> ILabelSorted(g))
    && (if prev.Some? && prev.value.olabel > tr.olabel then !OLabelSorted(g) else OLabelSorted(f) ==> OLabelSorted(g))
    && (if !Trivial(tr.weight) then !IsUnweighted(g) else IsUnweighted(f) ==> IsUnweighted(g))
    && (if tr.nextstate <= s then !TopSorted(g) else TopSorted(f) ==> TopSorted(g))
  }

  lemma AddTrLabels(f: Fst<Weight>, s: nat, tr: Tr<Weight>)
    requires s < |f.states|
    ensures var g := WithTr(f, s, tr);
            && (if tr.ilabel != tr.olabel then !IsAcceptor(g) else IsAcceptor(f) ==> IsAcceptor(g))
            && (if tr.ilabel == EPS_LABEL then !NoInputEpsilons(g) else NoInputEpsilons(f) ==> NoInputEpsilons(g))
            && (if tr.ilabel == EPS_LABEL && tr.olabel == EPS_LABEL then !NoEpsilons(g)
                else NoEpsilons(f) ==> NoEpsilons(g))
            && (if tr.olabel == EPS_LABEL then !NoOutputEpsilons(g) else NoOutputEpsilons(f) ==> NoOutputEpsilons(g))
            && (if !Trivial(tr.weight) then !IsUnweighted(g) else IsUnweighted(f) ==> IsUnweighted(g))
            && (if tr.nextstate <= s then !TopSorted(g) else TopSorted(f) ==> TopSorted(g))
  {
    var g := WithTr(f, s, tr);
    assert g.states[s].trs[|f.states[s].trs|] == tr;
  }

  lemma AddTrOrder(f: Fst<Weight>, s: nat, tr: Tr<Weight>)
    requires s < |f.states|
    ensures var g, prev := WithTr(f, s, tr), LastTr(f.states[s].trs);
            && (if prev.Some? && prev.value.ilabel > tr.ilabel then !ILabelSorted(g)
                else ILabelSorted(f) ==> ILabelSorted(g))
            && (if prev.Some? && prev.value.olabel > tr.olabel then !OLabelSorted(g)
                else OLabelSorted(f) ==> OLabelSorted(g))
  {
    var g, n := WithTr(f, s, tr), |f.states[s].trs|;
    assert g.states[s].trs[n] == tr;
    assert n > 0 ==> g.states[s].trs[n - 1] == f.states[s].trs[n - 1];
    if ILabelSorted(g) {
      assert LabelSorted(g.states[s].trs);
    }
    if ILabelSorted(f) {
      assert LabelSorted(f.states[s].trs);
    }
  }

  lemma AddTrFacts(f: Fst<Weight>, s: nat, tr: Tr<Weight>)
    requires WellFormed(f) && s < |f.states| && tr.nextstate < |f.states|
    ensures ArcFacts(f, WithTr(f, s, tr), s, tr, LastTr(f.states[s].trs))
  {
    hide IsAcceptor, Deterministic, OutputDeterministic, NoEpsilons, NoInputEpsilons, NoOutputEpsilons, ILabelSorted,
         OLabelSorted, IsUnweighted, CyclesUnweighted, AllCoAccessible, AllAccessible, IsString, TopSorted, Acyclic,
         InitialAcyclic, IsPath, Reach, Inherits, Accessible, CoReach;
    var g := WithTr(f, s, tr);
    WithTrArcs(f, s, tr);
    FewerInherits(g, f);
    GrownAccess(f, g);
    AddTrLabels(f, s, tr);
    AddTrOrder(f, s, tr);
    LostWeights(f, s, tr);
  }

  lemma LostWeights(f: Fst<Weight>, s: nat, tr: Tr<Weight>)
    requires s < |f.states|
    ensures IsUnweighted(WithTr(f, s, tr)) ==> IsUnweighted(f)
  {
    var g := WithTr(f, s, tr);
    assert forall t, i :: 0 <= t < |f.states| && 0 <= i < |f.states[t].trs| ==>
        g.states[t].trs[i] == f.states[t].trs[i];
    assert forall t :: 0 <= t < |f.states| ==> g.states[t].finalWeight == f.states[t].finalWeight;
  }

  /** Where the bits after an arc is added come from. */
  predicate AddTrSource(props: set<Property>, s: nat, tr: Tr<Weight>, prev: Option<Tr<Weight>>, p: Property) {
    match p
    case ACCEPTOR => p in props && tr.ilabel == tr.olabel
    case NOT_ACCEPTOR => p in props || tr.ilabel != tr.olabel
    case NO_EPSILONS => p in props && !(tr.ilabel == EPS_LABEL && tr.olabel == EPS_LABEL)
    case EPSILONS => p in props || (tr.ilabel == EPS_LABEL && tr.olabel == EPS_LABEL)
    case NO_I_EPSILONS => p in props && tr.ilabel != EPS_LABEL
    case I_EPSILONS => p in props || tr.ilabel == EPS_LABEL
    case NO_O_EPSILONS => p in props && tr.olabel != EPS_LABEL
    case O_EPSILONS => p in props || tr.olabel == EPS_LABEL
    case I_LABEL_SORTED => p in props && !(prev.Some? && prev.value.ilabel > tr.ilabel)
    case NOT_I_LABEL_SORTED => p in props || (prev.Some? && prev.value.ilabel > tr.ilabel)
    case O_LABEL_SORTED => p in props && !(prev.Some? && prev.value.olabel > tr.olabel)
    case NOT_O_LABEL_SORTED => p in props || (prev.Some? && prev.value.olabel > tr.olabel)
    case WEIGHTED => p in props || !Trivial(tr.weight)
    case UNWEIGHTED => p in props && Trivial(tr.weight)
    case TOP_SORTED => p in props && tr.nextstate > s
    case NOT_TOP_SORTED => p in props || tr.nextstate <= s
    case ACYCLIC => TOP_SORTED in props && tr.nextstate > s
    case INITIAL_ACYCLIC => TOP_SORTED in props && tr.nextstate > s
    case NOT_I_DETERMINISTIC => p in props
    case NOT_O_DETERMINISTIC => p in props
    case CYCLIC => p in props
    case INITIAL_CYCLIC => p in props
    case ACCESSIBLE => p in props
    case COACCESSIBLE => p in props
    case WEIGHTED_CYCLES => p in props
    case _ => false
  }

  /** Where the bits come from once the labels of an arc are noted: */
  predicate LabelSource(props: set<Property>, ilabel: Label, olabel: Label, p: Property) {
    match p
    case ACCEPTOR => p in props && ilabel == olabel
    case NOT_ACCEPTOR => p in props || ilabel != olabel
    case NO_EPSILONS => p in props && !(ilabel == EPS_LABEL && olabel == EPS_LABEL)
    case EPSILONS => p in props || (ilabel == EPS_LABEL && olabel == EPS_LABEL)
    case NO_I_EPSILONS => p in props && ilabel != EPS_LABEL
    case I_EPSILONS => p in props || ilabel == EPS_LABEL
    case NO_O_EPSILONS => p in props && olabel != EPS_LABEL
    case O_EPSILONS => p in props || olabel == EPS_LABEL
    case _ => p in props
  }

  lemma NoteLabelsIn(props: set<Property>, ilabel: Label, olabel: Label, p: Property)
    ensures p in NoteLabels(props, ilabel, olabel) <==> LabelSource(props, ilabel, olabel, p)
  {
  }

  /** and once its place, weight and target are. */
  predicate ShapeSource(props: set<Property>, s: nat, tr: Tr<Weight>, prev: Option<Tr<Weight>>, p: Property) {
    match p
    case I_LABEL_SORTED => p in props && !(prev.Some? && prev.value.ilabel > tr.ilabel)
    case NOT_I_LABEL_SORTED => p in props || (prev.Some? && prev.value.ilabel > tr.ilabel)
    case O_LABEL_SORTED => p in props && !(prev.Some? && prev.value.olabel > tr.olabel)
    case NOT_O_LABEL_SORTED => p in props || (prev.Some? && prev.value.olabel > tr.olabel)
    case WEIGHTED => p in props || !Trivial(tr.weight)
    case UNWEIGHTED => p in props && Trivial(tr.weight)
    case TOP_SORTED => p in props && tr.nextstate > s
    case NOT_TOP_SORTED => p in props || tr.nextstate <= s
    case _ => p in props
  }

  lemma NoteShapeIn(props: set<Property>, s: nat, tr: Tr<Weight>, prev: Option<Tr<Weight>>, p: Property)
    ensures p in NoteShape(props, s, tr, prev) <==> ShapeSource(props, s, tr, prev, p)
  {
  }

  lemma AddTrIn(props: set<Property>, s: nat, tr: Tr<Weight>, prev: Option<Tr<Weight>>, p: Property)
    ensures p in AddTrProperties(props, s, tr, prev) <==> AddTrSource(props, s, tr, prev, p)
  {
    hide NoteLabels, NoteShape;
    var labels := NoteLabels(props, tr.ilabel, tr.olabel);
    NoteLabelsIn(props, tr.ilabel, tr.olabel, p);
    NoteLabelsIn(props, tr.ilabel, tr.olabel, TOP_SORTED);
    NoteShapeIn(labels, s, tr, prev, p);
    NoteShapeIn(labels, s, tr, prev, TOP_SORTED);
  }

  lemma AddTrBit(f: Fst<Weight>, g: Fst<Weight>, props: set<Property>, s: nat, tr: Tr<Weight>,
                 prev: Option<Tr<Weight>>, p: Property)
    requires ArcFacts(f, g, s, tr, prev) && AddTrSource(props, s, tr, prev, p) && (p in props ==> Holds(f, p))
    requires TOP_SORTED in props ==> TopSorted(f)
    ensures Holds(g, p)
  {
    hide IsAcceptor, Deterministic, OutputDeterministic, NoEpsilons, NoInputEpsilons, NoOutputEpsilons, ILabelSorted,
         OLabelSorted, IsUnweighted, CyclesUnweighted, AllCoAccessible, AllAccessible, IsString, TopSorted, Acyclic,
         InitialAcyclic;
    if TopSorted(g) {
      TopSortedAcyclic(g);
    }
  }

  lemma AddTrKeeps(f: Fst<Weight>, s: nat, tr: Tr<Weight>, props: set<Property>)
    requires WellFormed(f) && s < |f.states| && tr.nextstate < |f.states| && BitsTrue(f, props)
    ensures BitsTrue(WithTr(f, s, tr), AddTrProperties(props, s, tr, LastTr(f.states[s].trs)))
            && WellFormed(WithTr(f, s, tr))
  {
    hide IsAcceptor, Deterministic, OutputDeterministic, NoEpsilons, NoInputEpsilons, NoOutputEpsilons, ILabelSorted,
         OLabelSorted, IsUnweighted, CyclesUnweighted, AllCoAccessible, AllAccessible, IsString, TopSorted, Acyclic,
         InitialAcyclic, ArcFacts, AddTrProperties, AddTrSource, WithTr;
    var g, prev := WithTr(f, s, tr), LastTr(f.states[s].trs);
    WithTrArcs(f, s, tr);
    AddTrFacts(f, s, tr);
    assert TOP_SORTED in props ==> Holds(f, TOP_SORTED);
    forall p | p in AddTrProperties(props, s, tr, prev) ensures Holds(g, p) {
      AddTrIn(props, s, tr, prev, p);
      AddTrBit(f, g, props, s, tr, prev, p);
    }
  }

  // ---- all arcs of a state replaced

  function WithTrs(f: Fst<Weight>, s: nat, trs: seq<Tr<Weight>>): Fst<Weight>
    requires s < |f.states|
  {
    f.(states := f.states[s := f.states[s].(trs := trs)])
  }

  predicate Targets(f: Fst<Weight>, trs: seq<Tr<Weight>>) {
    forall i :: 0 <= i < |trs| ==> trs[i].nextstate < |f.states|
  }

  /** What the bits go on saying although the arcs that made it so are gone. */
  function Stale(props: set<Property>, trs: seq<Tr<Weight>>): set<Property> {
    if trs == [] then props - DELETE_ARCS_PROPERTIES else props * ADD_ARC_PROPERTIES
  }

  /** On a state without arcs the new ones are just added. */
  lemma {:induction false} SetTrsFresh(f: Fst<Weight>, s: nat, trs: seq<Tr<Weight>>, props: set<Property>)
    requires WellFormed(f) && s < |f.states| && f.states[s].trs == [] && Targets(f, trs) && BitsTrue(f, props)
    ensures BitsTrue(WithTrs(f, s, trs), AddedTrs(props, s, trs)) && WellFormed(WithTrs(f, s, trs))
    decreases |trs|
  {
    hide BitsTrue, AddTrProperties, WellFormed;
    var g := WithTrs(f, s, trs);
    if trs == [] {
      assert g == f;
    } else {
      var front, last := trs[..|trs|-1], trs[|trs|-1];
      SetTrsFresh(f, s, front, props);
      AddTrKeeps(WithTrs(f, s, front), s, last, AddedTrs(props, s, front));
      assert front + [last] == trs;
      assert WithTr(WithTrs(f, s, front), s, last) == g;
    }
  }

  /** Every bit there is in the end would be there without the old arcs, or is stale. */
  lemma {:induction false} AddedOrStale(props: set<Property>, s: nat, trs: seq<Tr<Weight>>, p: Property)
    requires p in AddedTrs(props, s, trs)
    ensures p in AddedTrs(props * DELETE_ARCS_PROPERTIES, s, trs) || p in Stale(props, trs)
    decreases |trs|
  {
    hide AddTrProperties;
    if trs != [] {
      var front, last := trs[..|trs|-1], trs[|trs|-1];
      var was, now := AddedTrs(props, s, front), AddedTrs(props * DELETE_ARCS_PROPERTIES, s, front);
      AddTrIn(was, s, last, LastTr(front), p);
      AddTrIn(now, s, last, LastTr(front), p);
      if p in was {
        AddedOrStale(props, s, front, p);
      }
      if TOP_SORTED in was {
        AddedOrStale(props, s, front, TOP_SORTED);
      }
      StaleKinds(props, front, last, p);
    }
  }

  lemma StaleKinds(props: set<Property>, front: seq<Tr<Weight>>, last: Tr<Weight>, p: Property)
    ensures TOP_SORTED !in Stale(props, front)
    ensures p in Stale(props, front) ==> p in Stale(props, front + [last]) || p !in ADD_ARC_PROPERTIES
  {
  }

  lemma KeptKinds(props: set<Property>, s: nat, tr: Tr<Weight>, prev: Option<Tr<Weight>>, p: Property)
    requires p in props && p in ADD_ARC_PROPERTIES
    ensures AddTrSource(props, s, tr, prev, p)
  {
  }

  /** No stale bit is ever dropped. */
  lemma {:induction false} StaleStays(props: set<Property>, s: nat, trs: seq<Tr<Weight>>, p: Property)
    requires p in Stale(props, trs)
    ensures p in AddedTrs(props, s, trs)
    decreases |trs|
  {
    hide AddTrProperties, AddTrSource, ADD_ARC_PROPERTIES, DELETE_ARCS_PROPERTIES;
    if trs != [] {
      var front, last := trs[..|trs|-1], trs[|trs|-1];
      if front != [] {
        StaleStays(props, s, front, p);
      }
      KeptKinds(AddedTrs(props, s, front), s, last, LastTr(front), p);
      AddTrIn(AddedTrs(props, s, front), s, last, LastTr(front), p);
    }
  }

  /** Replacing the arcs of a state keeps the bits true exactly when no stale one has become false. */
  lemma SetTrsExact(f: Fst<Weight>, s: nat, trs: seq<Tr<Weight>>, props: set<Property>)
    requires WellFormed(f) && s < |f.states| && Targets(f, trs) && BitsTrue(f, props)
    ensures BitsTrue(WithTrs(f, s, trs), AddedTrs(props, s, trs)) <==>
         forall p :: p in Stale(props, trs) ==> Holds(WithTrs(f, s, trs), p)
    ensures WellFormed(WithTrs(f, s, trs))
  {
    hide AddTrProperties, Holds, WellFormed, Stale;
    var g, f0, kept := WithTrs(f, s, trs), WithoutTrs(f, s), props * DELETE_ARCS_PROPERTIES;
    DeleteTrsKeeps(f, s, props);
    SetTrsFresh(f0, s, trs, kept);
    assert WithTrs(f0, s, trs) == g;
    forall p | p in Stale(props, trs) ensures p in AddedTrs(props, s, trs) {
      StaleStays(props, s, trs, p);
    }
    forall p | p in AddedTrs(props, s, trs) ensures p in AddedTrs(kept, s, trs) || p in Stale(props, trs) {
      AddedOrStale(props, s, trs, p);
    }
  }

  /** A cycle is noted, its only arc goes, and the note stays. */
  const ONE_LOOP: Fst<Weight> := Fst([State(None, [Tr(1, 1, ONE, 0)])], Some(0))

  lemma CycleGoesStale()
    ensures WellFormed(ONE_LOOP) && BitsTrue(ONE_LOOP, {CYCLIC})
    ensures CYCLIC in AddedTrs({CYCLIC}, 0, []) && !Holds(WithTrs(ONE_LOOP, 0, []), CYCLIC)
  {
    var e := Edge(0, 0);
    assert IsPath(ONE_LOOP, 0, [], 0) && IsPath(ONE_LOOP, 0, [e], 0);
    assert !Acyclic(ONE_LOOP);
    assert TopSorted(WithTrs(ONE_LOOP, 0, []));
    TopSortedAcyclic(WithTrs(ONE_LOOP, 0, []));
  }

  // ---- an arc overwritten

  function WithArc(f: Fst<Weight>, s: nat, i: nat, tr: Tr<Weight>): Fst<Weight>
    requires s < |f.states| && i < |f.states[s].trs|
  {
    f.(states := ReplaceTr(f.states, s, i, tr))
  }

  predicate SameLabels(a: Tr<Weight>, b: Tr<Weight>) {
    a.ilabel == b.ilabel && a.olabel == b.olabel
  }

  /** What becomes of the labels when `was` gives way to `now`. */
  ghost predicate LabelFacts(f: Fst<Weight>, g: Fst<Weight>, was: Tr<Weight>, now: Tr<Weight>) {
    && (if now.ilabel != now.olabel then !IsAcceptor(g) else IsAcceptor(f) ==> IsAcceptor(g))
    && (was.ilabel == was.olabel && IsAcceptor(g) ==> IsAcceptor(f))
    && (if now.ilabel == EPS_LABEL then !NoInputEpsilons(g) else NoInputEpsilons(f) ==> NoInputEpsilons(g))
    && (was.ilabel != EPS_LABEL && NoInputEpsilons(g) ==> NoInputEpsilons(f))
    && (if now.ilabel == EPS_LABEL && now.olabel == EPS_LABEL then !NoEpsilons(g) else NoEpsilons(f) ==> NoEpsilons(g))
    && (!(was.ilabel == EPS_LABEL && was.olabel == EPS_LABEL) && NoEpsilons(g) ==> NoEpsilons(f))
    && (if now.olabel == EPS_LABEL then !NoOutputEpsilons(g) else NoOutputEpsilons(f) ==> NoOutputEpsilons(g))
    && (was.olabel != EPS_LABEL && NoOutputEpsilons(g) ==> NoOutputEpsilons(f))
  }

  ghost predicate SameLabelFacts(f: Fst<Weight>, g: Fst<Weight>) {
    && IsAcceptor(f) == IsAcceptor(g) && NoInputEpsilons(f) == NoInputEpsilons(g)
    && NoEpsilons(f) == NoEpsilons(g) && NoOutputEpsilons(f) == NoOutputEpsilons(g)
  }

  ghost predicate WeightFacts(f: Fst<Weight>, g: Fst<Weight>, was: Tr<Weight>, now: Tr<Weight>) {
    && (if !Trivial(now.weight) then !IsUnweighted(g) else IsUnweighted(f) ==> IsUnweighted(g))
    && (Trivial(was.weight) && IsUnweighted(g) ==> IsUnweighted(f))
  }

  lemma OtherArcs(f: Fst<Weight>, s: nat, i: nat, tr: Tr<Weight>)
    requires s < |f.states| && i < |f.states[s].trs|
    ensures var g := WithArc(f, s, i, tr);
            && |g.states| == |f.states| && g.states[s].trs[i] == tr
            && (forall t :: 0 <= t < |f.states|
                 ==> |g.states[t].trs| == |f.states[t].trs| && g.states[t].finalWeight == f.states[t].finalWeight)
            && forall t, j :: 0 <= t < |f.states| && 0 <= j < |f.states[t].trs| && !(t == s && j == i) ==>
                g.states[t].trs[j] == f.states[t].trs[j]
  {
  }

  lemma WithArcLabels(f: Fst<Weight>, s: nat, i: nat, tr: Tr<Weight>)
    requires s < |f.states| && i < |f.states[s].trs|
    ensures LabelFacts(f, WithArc(f, s, i, tr), f.states[s].trs[i], tr)
  {
    hide WithArc;
    OtherArcs(f, s, i, tr);
  }

  lemma WithArcSame(f: Fst<Weight>, s: nat, i: nat, tr: Tr<Weight>)
    requires s < |f.states| && i < |f.states[s].trs|
    ensures SameLabels(f.states[s].trs[i], tr) ==> SameLabelFacts(f, WithArc(f, s, i, tr))
    ensures f.states[s].trs[i].weight == tr.weight ==> IsUnweighted(f) == IsUnweighted(WithArc(f, s, i, tr))
  {
    hide WithArc;
    OtherArcs(f, s, i, tr);
  }

  lemma WithArcWeights(f: Fst<Weight>, s: nat, i: nat, tr: Tr<Weight>)
    requires s < |f.states| && i < |f.states[s].trs|
    ensures WeightFacts(f, WithArc(f, s, i, tr), f.states[s].trs[i], tr)
  {
    hide WithArc;
    OtherArcs(f, s, i, tr);
  }

  predicate ForgetSource(props: set<Property>, ilabel: Label, olabel: Label, p: Property) {
    match p
    case NOT_ACCEPTOR => p in props && ilabel == olabel
    case EPSILONS => p in props && !(ilabel == EPS_LABEL && olabel == EPS_LABEL)
    case I_EPSILONS => p in props && ilabel != EPS_LABEL
    case O_EPSILONS => p in props && olabel != EPS_LABEL
    case _ => p in props
  }

  lemma ForgetLabelsIn(props: set<Property>, ilabel: Label, olabel: Label, p: Property)
    ensures p in ForgetLabels(props, ilabel, olabel) <==> ForgetSource(props, ilabel, olabel, p)
  {
  }

  lemma UpdateWeightsIn(props: set<Property>, was: Weight, now: Weight, p: Property)
    requires p in UpdateWeights(props, was, now)
    ensures p == WEIGHTED ==> (p in props && Trivial(was)) || !Trivial(now)
    ensures p == UNWEIGHTED ==> p in props && Trivial(now)
    ensures p != WEIGHTED && p != UNWEIGHTED ==> p in props
  {
  }

  const LABEL_BITS: set<Property> := {ACCEPTOR, NOT_ACCEPTOR, EPSILONS, NO_EPSILONS, I_EPSILONS, NO_I_EPSILONS,
                                      O_EPSILONS, NO_O_EPSILONS}

  lemma LabelBit(f: Fst<Weight>, g: Fst<Weight>, props: set<Property>, was: Tr<Weight>, now: Tr<Weight>, p: Property)
    requires LabelFacts(f, g, was, now) && p in LABEL_BITS && (p in props ==> Holds(f, p))
    requires p in NoteLabels(ForgetLabels(props, was.ilabel, was.olabel), now.ilabel, now.olabel)
    ensures Holds(g, p)
  {
    hide IsAcceptor, Deterministic, OutputDeterministic, NoEpsilons, NoInputEpsilons, NoOutputEpsilons, ILabelSorted,
         OLabelSorted, IsUnweighted, CyclesUnweighted, AllCoAccessible, AllAccessible, IsString, TopSorted, Acyclic,
         InitialAcyclic, NoteLabels, ForgetLabels;
    ForgetLabelsIn(props, was.ilabel, was.olabel, p);
    NoteLabelsIn(ForgetLabels(props, was.ilabel, was.olabel), now.ilabel, now.olabel, p);
  }

  lemma SameLabelBit(f: Fst<Weight>, g: Fst<Weight>, p: Property)
    requires SameLabelFacts(f, g) && p in LABEL_BITS && Holds(f, p)
    ensures Holds(g, p)
  {
    hide IsAcceptor, Deterministic, OutputDeterministic, NoEpsilons, NoInputEpsilons, NoOutputEpsilons, ILabelSorted,
         OLabelSorted, IsUnweighted, CyclesUnweighted, AllCoAccessible, AllAccessible, IsString, TopSorted, Acyclic,
         InitialAcyclic;
  }

  lemma RelevantIs(p: Property)
    requires p in RELEVANT_TO_SET_ARC
    ensures p in LABEL_BITS || p == WEIGHTED || p == UNWEIGHTED
  {
  }

  lemma OtherBits(props: set<Property>, was: Tr<Weight>, ilabel: Label, olabel: Label, p: Property)
    requires p in NoteLabels(ForgetLabels(props, was.ilabel, was.olabel), ilabel, olabel) && p !in LABEL_BITS
    ensures p in props
  {
    hide NoteLabels, ForgetLabels;
    ForgetLabelsIn(props, was.ilabel, was.olabel, p);
    NoteLabelsIn(ForgetLabels(props, was.ilabel, was.olabel), ilabel, olabel, p);
  }

  lemma SetLabelsKeeps(f: Fst<Weight>, s: nat, i: nat, ilabel: Label, olabel: Label, props: set<Property>)
    requires s < |f.states| && i < |f.states[s].trs| && BitsTrue(f, props)
    ensures BitsTrue(WithArc(f, s, i, f.states[s].trs[i].(ilabel := ilabel, olabel := olabel)),
                     SetLabelsProperties(props, f.states[s].trs[i], ilabel, olabel))
  {
    hide IsAcceptor, Deterministic, OutputDeterministic, NoEpsilons, NoInputEpsilons, NoOutputEpsilons, ILabelSorted,
         OLabelSorted, IsUnweighted, CyclesUnweighted, AllCoAccessible, AllAccessible, IsString, TopSorted, Acyclic,
         InitialAcyclic, WithArc, LabelFacts, SameLabelFacts, NoteLabels, ForgetLabels, RELEVANT_TO_SET_ARC, LABEL_BITS;
    var was := f.states[s].trs[i];
    var now := was.(ilabel := ilabel, olabel := olabel);
    WithArcLabels(f, s, i, now);
    WithArcSame(f, s, i, now);
    forall p | p in SetLabelsProperties(props, was, ilabel, olabel) ensures Holds(WithArc(f, s, i, now), p) {
      RelevantIs(p);
      if p in LABEL_BITS {
        LabelBit(f, WithArc(f, s, i, now), props, was, now, p);
      } else {
        OtherBits(props, was, ilabel, olabel, p);
        assert Holds(f, p);
      }
    }
  }

  lemma SetWeightKeeps(f: Fst<Weight>, s: nat, i: nat, weight: Weight, props: set<Property>)
    requires s < |f.states| && i < |f.states[s].trs| && BitsTrue(f, props)
    ensures BitsTrue(WithArc(f, s, i, f.states[s].trs[i].(weight := weight)),
                     SetWeightProperties(props, f.states[s].trs[i].weight, weight))
  {
    hide IsAcceptor, Deterministic, OutputDeterministic, NoEpsilons, NoInputEpsilons, NoOutputEpsilons, ILabelSorted,
         OLabelSorted, IsUnweighted, CyclesUnweighted, AllCoAccessible, AllAccessible, IsString, TopSorted, Acyclic,
         InitialAcyclic, WithArc, SameLabelFacts, UpdateWeights, RELEVANT_TO_SET_ARC, LABEL_BITS;
    var was := f.states[s].trs[i];
    var now := was.(weight := weight);
    WithArcSame(f, s, i, now);
    WithArcWeights(f, s, i, now);
    forall p | p in SetWeightProperties(props, was.weight, weight) ensures Holds(WithArc(f, s, i, now), p) {
      RelevantIs(p);
      UpdateWeightsIn(props, was.weight, weight, p);
      assert p in props ==> Holds(f, p);
      LabelBitsApart();
      if p in LABEL_BITS {
        SameLabelBit(f, WithArc(f, s, i, now), p);
      }
    }
  }

  lemma LabelBitsApart()
    ensures WEIGHTED !in LABEL_BITS && UNWEIGHTED !in LABEL_BITS
  {
  }

  lemma SetNextstateKeeps(f: Fst<Weight>, s: nat, i: nat, nextstate: nat, props: set<Property>)
    requires s < |f.states| && i < |f.states[s].trs| && BitsTrue(f, props)
    ensures BitsTrue(WithArc(f, s, i, f.states[s].trs[i].(nextstate := nextstate)), props * RELEVANT_TO_SET_ARC)
  {
    hide IsAcceptor, Deterministic, OutputDeterministic, NoEpsilons, NoInputEpsilons, NoOutputEpsilons, ILabelSorted,
         OLabelSorted, IsUnweighted, CyclesUnweighted, AllCoAccessible, AllAccessible, IsString, TopSorted, Acyclic,
         InitialAcyclic, WithArc, SameLabelFacts, RELEVANT_TO_SET_ARC, LABEL_BITS;
    var now := f.states[s].trs[i].(nextstate := nextstate);
    WithArcSame(f, s, i, now);
    forall p | p in props * RELEVANT_TO_SET_ARC ensures Holds(WithArc(f, s, i, now), p) {
      RelevantIs(p);
      assert Holds(f, p);
      if p in LABEL_BITS {
        SameLabelBit(f, WithArc(f, s, i, now), p);
      }
    }
  }

  lemma SetTrKeeps(f: Fst<Weight>, s: nat, i: nat, tr: Tr<Weight>, props: set<Property>)
    requires s < |f.states| && i < |f.states[s].trs| && BitsTrue(f, props)
    ensures BitsTrue(WithArc(f, s, i, tr), SetTrProperties(props, f.states[s].trs[i], tr))
  {
    hide IsAcceptor, Deterministic, OutputDeterministic, NoEpsilons, NoInputEpsilons, NoOutputEpsilons, ILabelSorted,
         OLabelSorted, IsUnweighted, CyclesUnweighted, AllCoAccessible, AllAccessible, IsString, TopSorted, Acyclic,
         InitialAcyclic, WithArc, LabelFacts, NoteLabels, ForgetLabels, UpdateWeights, RELEVANT_TO_SET_ARC, LABEL_BITS;
    var was := f.states[s].trs[i];
    WithArcLabels(f, s, i, tr);
    WithArcWeights(f, s, i, tr);
    var noted := NoteLabels(ForgetLabels(props, was.ilabel, was.olabel), tr.ilabel, tr.olabel);
    forall p | p in SetTrProperties(props, was, tr) ensures Holds(WithArc(f, s, i, tr), p) {
      RelevantIs(p);
      UpdateWeightsIn(noted, was.weight, tr.weight, p);
      LabelBitsApart();
      if p in LABEL_BITS {
        LabelBit(f, WithArc(f, s, i, tr), props, was, tr, p);
      } else if p in noted {
        OtherBits(props, was, tr.ilabel, tr.olabel, p);
        assert Holds(f, p);
      }
    }
  }

  // ---- states deleted

  ghost predicate TrimFacts(f: Fst<Weight>, g: Fst<Weight>) {
    Inherits(f, g) && (InitialAcyclic(f) ==> InitialAcyclic(g)) && (IsUnweighted(f) ==> IsUnweighted(g))
  }

  lemma TrimBit(f: Fst<Weight>, g: Fst<Weight>, p: Property)
    requires TrimFacts(f, g) && p in DELETE_STATES_PROPERTIES && Holds(f, p)
    ensures Holds(g, p)
  {
    hide IsAcceptor, Deterministic, OutputDeterministic, NoEpsilons, NoInputEpsilons, NoOutputEpsilons, ILabelSorted,
         OLabelSorted, IsUnweighted, CyclesUnweighted, AllCoAccessible, AllAccessible, IsString, TopSorted, Acyclic,
         InitialAcyclic;
  }

  lemma TrimmedArc(f: Fst<Weight>, dead: seq<bool>, g: Fst<Weight>, k: nat, i: nat) returns (s: nat, j: nat)
    requires WellFormed(f) && |dead| == |f.states| && IsTrimmed(f, dead, g) && k < |g.states| && i < |g.states[k].trs|
    ensures s < |f.states| && Rank(dead, s) == k && j < |f.states[s].trs| && Alive(f, dead, Edge(s, j))
    ensures g.states[k].trs[i] == Renumbered(dead, f.states[s].trs[j])
  {
    s := TrimmedArcs(f, dead, g, k);
    j := KeptFrom(dead, f.states[s].trs, i);
    KeptAt(dead, f.states[s].trs, j);
  }

  lemma TrimmedLabels(f: Fst<Weight>, dead: seq<bool>, g: Fst<Weight>)
    requires WellFormed(f) && |dead| == |f.states| && IsTrimmed(f, dead, g)
    ensures IsAcceptor(f) ==> IsAcceptor(g)
    ensures NoEpsilons(f) ==> NoEpsilons(g)
    ensures NoInputEpsilons(f) ==> NoInputEpsilons(g)
    ensures NoOutputEpsilons(f) ==> NoOutputEpsilons(g)
  {
    hide IsTrimmed, Alive, Rank;
    forall k, i | 0 <= k < |g.states| && 0 <= i < |g.states[k].trs|
      ensures exists s, j :: 0 <= s < |f.states| && 0 <= j < |f.states[s].trs|
                && f.states[s].trs[j].ilabel == g.states[k].trs[i].ilabel
                  && f.states[s].trs[j].olabel == g.states[k].trs[i].olabel
    {
      var s, j := TrimmedArc(f, dead, g, k, i);
      assert f.states[s].trs[j].ilabel == g.states[k].trs[i].ilabel;
    }
  }

  lemma TrimmedWeights(f: Fst<Weight>, dead: seq<bool>, g: Fst<Weight>)
    requires WellFormed(f) && |dead| == |f.states| && IsTrimmed(f, dead, g)
    ensures IsUnweighted(f) ==> IsUnweighted(g)
  {
    hide IsTrimmed, Alive, Rank;
    if IsUnweighted(f) {
      forall k | 0 <= k < |g.states|
        ensures !NonTrivial(g.states[k].finalWeight) &&
             forall i :: 0 <= i < |g.states[k].trs| ==> Trivial(g.states[k].trs[i].weight)
      {
        var s := TrimmedArcs(f, dead, g, k);
        forall i | 0 <= i < |g.states[k].trs| ensures Trivial(g.states[k].trs[i].weight) {
          var s', j := TrimmedArc(f, dead, g, k, i);
        }
      }
    }
  }

  lemma TrimmedPair(f: Fst<Weight>, dead: seq<bool>, g: Fst<Weight>, k: nat, i: nat, j: nat)
    returns (s: nat, i': nat, j': nat)
    requires WellFormed(f) && |dead| == |f.states| && IsTrimmed(f, dead, g) && k < |g.states|
             && i < j < |g.states[k].trs|
    ensures s < |f.states| && i' < j' < |f.states[s].trs|
    ensures SameLabels(g.states[k].trs[i], f.states[s].trs[i']) && SameLabels(g.states[k].trs[j], f.states[s].trs[j'])
  {
    s := TrimmedArcs(f, dead, g, k);
    i', j' := KeptOrder(dead, f.states[s].trs, i, j);
  }

  lemma TrimmedDistinct(f: Fst<Weight>, dead: seq<bool>, g: Fst<Weight>)
    requires WellFormed(f) && |dead| == |f.states| && IsTrimmed(f, dead, g)
    ensures Deterministic(f) ==> Deterministic(g)
    ensures OutputDeterministic(f) ==> OutputDeterministic(g)
  {
    hide IsTrimmed, Rank, WellFormed;
    forall k, i, j | 0 <= k < |g.states| && 0 <= i < j < |g.states[k].trs|
      ensures Deterministic(f) ==> g.states[k].trs[i].ilabel != g.states[k].trs[j].ilabel
      ensures OutputDeterministic(f) ==> g.states[k].trs[i].olabel != g.states[k].trs[j].olabel
    {
      var s, i', j' := TrimmedPair(f, dead, g, k, i, j);
    }
  }

  lemma TrimmedOrder(f: Fst<Weight>, dead: seq<bool>, g: Fst<Weight>)
    requires WellFormed(f) && |dead| == |f.states| && IsTrimmed(f, dead, g)
    ensures ILabelSorted(f) ==> ILabelSorted(g)
    ensures OLabelSorted(f) ==> OLabelSorted(g)
  {
    hide IsTrimmed, Rank, WellFormed;
    forall k, i, j | 0 <= k < |g.states| && 0 <= i < j < |g.states[k].trs|
      ensures ILabelSorted(f) ==> g.states[k].trs[i].ilabel <= g.states[k].trs[j].ilabel
      ensures OLabelSorted(f) ==> g.states[k].trs[i].olabel <= g.states[k].trs[j].olabel
    {
      var s, i', j' := TrimmedPair(f, dead, g, k, i, j);
      assert ILabelSorted(f) ==> LabelSorted(f.states[s].trs);
    }
  }

  lemma TrimmedTopSorted(f: Fst<Weight>, dead: seq<bool>, g: Fst<Weight>)
    requires WellFormed(f) && |dead| == |f.states| && IsTrimmed(f, dead, g)
    ensures TopSorted(f) ==> TopSorted(g)
  {
    forall k, i | TopSorted(f) && 0 <= k < |g.states| && 0 <= i < |g.states[k].trs|
      ensures k < g.states[k].trs[i].nextstate {
      var s, j := TrimmedArc(f, dead, g, k, i);
      RankMonotone(dead, s, f.states[s].trs[j].nextstate);
    }
  }

  /** Survivors have different ranks. */
  lemma RankApart(dead: seq<bool>, s: nat, t: nat)
    requires s < |dead| && t < |dead| && !dead[s] && !dead[t] && Rank(dead, s) == Rank(dead, t)
    ensures s == t
  {
    if s < t {
      RankMonotone(dead, s, t);
    } else if t < s {
      RankMonotone(dead, t, s);
    }
  }

  lemma TrimmedInitial(f: Fst<Weight>, dead: seq<bool>, g: Fst<Weight>)
    requires WellFormed(f) && |dead| == |f.states| && IsTrimmed(f, dead, g)
    ensures InitialAcyclic(f) ==> InitialAcyclic(g)
  {
    if InitialAcyclic(f) && g.start.Some? {
      var s, k := f.start.value, g.start.value;
      forall q | q != [] && IsPath(g, k, q, k) ensures false {
        var p, t := PathComesFrom(f, dead, g, s, q, k);
        RankApart(dead, s, t);
      }
    }
  }

  lemma TrimmedCycles(f: Fst<Weight>, dead: seq<bool>, g: Fst<Weight>)
    requires WellFormed(f) && |dead| == |f.states| && IsTrimmed(f, dead, g)
    ensures CyclesUnweighted(f) ==> CyclesUnweighted(g)
  {
    forall e | CyclesUnweighted(f) && IsEdge(g, e) && Reach(g, Arc(g, e).nextstate, e.src)
      ensures Trivial(Arc(g, e).weight) {
      var s, j := TrimmedArc(f, dead, g, e.src, e.pos);
      var d := Edge(s, j);
      var q := ReachPath(g, Arc(g, e).nextstate, e.src);
      var p, t := PathComesFrom(f, dead, g, Arc(f, d).nextstate, q, e.src);
      RankApart(dead, s, t);
      assert Reach(f, Arc(f, d).nextstate, d.src);
    }
  }

  lemma TrimmedFacts(f: Fst<Weight>, dead: seq<bool>, g: Fst<Weight>)
    requires WellFormed(f) && |dead| == |f.states| && IsTrimmed(f, dead, g)
    ensures TrimFacts(f, g)
  {
    hide IsAcceptor, Deterministic, OutputDeterministic, NoEpsilons, NoInputEpsilons, NoOutputEpsilons, ILabelSorted,
         OLabelSorted, IsUnweighted, CyclesUnweighted, AllCoAccessible, AllAccessible, IsString, TopSorted, Acyclic,
         InitialAcyclic, IsTrimmed, WellFormed, IsPath, Reach;
    TrimmedLabels(f, dead, g);
    TrimmedDistinct(f, dead, g);
    TrimmedOrder(f, dead, g);
    TrimmedWeights(f, dead, g);
    TrimmedTopSorted(f, dead, g);
    TrimmedInitial(f, dead, g);
    TrimmedCycles(f, dead, g);
    if Acyclic(f) {
      TrimmedAcyclic(f, dead, g);
    }
    assert IsAcceptor(f) ==> IsAcceptor(g);
    assert (Deterministic(f) ==> Deterministic(g)) && (OutputDeterministic(f) ==> OutputDeterministic(g));
    assert (NoEpsilons(f) ==> NoEpsilons(g)) && (NoInputEpsilons(f) ==> NoInputEpsilons(g))
           && (NoOutputEpsilons(f) ==> NoOutputEpsilons(g));
    assert (ILabelSorted(f) ==> ILabelSorted(g)) && (OLabelSorted(f) ==> OLabelSorted(g));
    assert (Acyclic(f) ==> Acyclic(g)) && (TopSorted(f) ==> TopSorted(g))
           && (CyclesUnweighted(f) ==> CyclesUnweighted(g));
  }

  lemma DelStatesKeeps(f: Fst<Weight>, dead: seq<bool>, g: Fst<Weight>, props: set<Property>)
    requires WellFormed(f) && |dead| == |f.states| && IsTrimmed(f, dead, g) && BitsTrue(f, props)
    ensures BitsTrue(g, props * DELETE_STATES_PROPERTIES)
  {
    hide IsAcceptor, Deterministic, OutputDeterministic, NoEpsilons, NoInputEpsilons, NoOutputEpsilons, ILabelSorted,
         OLabelSorted, IsUnweighted, CyclesUnweighted, AllCoAccessible, AllAccessible, IsString, TopSorted, Acyclic,
         InitialAcyclic, TrimFacts, DELETE_STATES_PROPERTIES;
    TrimmedFacts(f, dead, g);
    forall p | p in props * DELETE_STATES_PROPERTIES ensures Holds(g, p) {
      TrimBit(f, g, p);
    }
  }

  lemma TrimmedWellFormed(f: Fst<Weight>, dead: seq<bool>, g: Fst<Weight>)
    requires WellFormed(f) && |dead| == |f.states| && IsTrimmed(f, dead, g)
    ensures WellFormed(g)
  {
    forall k, i | 0 <= k < |g.states| && 0 <= i < |g.states[k].trs| ensures g.states[k].trs[i].nextstate < |g.states| {
      var s, j := TrimmedArc(f, dead, g, k, i);
    }
  }

  /** The empty machine has every property there is. */
  lemma EmptyTrue()
    ensures var f: Fst<Weight> := Fst([], None); BitsTrue(f, NULL_PROPERTIES) && WellFormed(f)
  {
    hide IsAcceptor, Deterministic, OutputDeterministic, NoEpsilons, NoInputEpsilons, NoOutputEpsilons, ILabelSorted,
         OLabelSorted, IsUnweighted, CyclesUnweighted, AllCoAccessible, AllAccessible, IsString, TopSorted, Acyclic,
         InitialAcyclic;
    EmptyFacts(Fst([], None));
  }

  lemma EmptyFacts(f: Fst<Weight>)
    requires f == Fst([], None)
    ensures IsAcceptor(f) && Deterministic(f) && OutputDeterministic(f) && NoEpsilons(f) && NoInputEpsilons(f)
            && NoOutputEpsilons(f)
    ensures ILabelSorted(f) && OLabelSorted(f) && IsUnweighted(f) && Acyclic(f) && InitialAcyclic(f) && TopSorted(f)
    ensures AllAccessible(f) && AllCoAccessible(f) && IsString(f) && CyclesUnweighted(f)
  {
    assert TopSorted(f);
    TopSortedAcyclic(f);
  }

  // ---- trimming

  /** True bits are what `connect` needs in order to trust them. */
  lemma TrimBitsDischarged(f: Fst<Weight>, props: set<Property>)
    requires BitsTrue(f, props)
    ensures TrimBitsTrue(f, props)
  {
    assert ACCESSIBLE in props ==> Holds(f, ACCESSIBLE);
    assert COACCESSIBLE in props ==> Holds(f, COACCESSIBLE);
  }

  lemma TrimmedAll(f: Fst<Weight>, g: Fst<Weight>)
    requires WellFormed(f) && IsTrimmed(f, Useless(f), g)
    ensures AllAccessible(g) && AllCoAccessible(g)
  {
    hide Accessible, CoReach, IsTrimmed, Useless;
    forall k: nat | k < |g.states| ensures Accessible(g, k) && CoReach(g, k) {
      var _ := TrimmedIsTrim(f, g, k);
    }
  }

  lemma ConnectedBits(f: Fst<Weight>, g: Fst<Weight>, props: set<Property>)
    requires WellFormed(f) && IsTrimmed(f, Useless(f), g) && BitsTrue(f, props)
    ensures BitsTrue(g, props * DELETE_STATES_PROPERTIES + {ACCESSIBLE, COACCESSIBLE}) && WellFormed(g)
  {
    hide IsTrimmed, DELETE_STATES_PROPERTIES, AllAccessible, AllCoAccessible;
    TrimmedWellFormed(f, Useless(f), g);
    DelStatesKeeps(f, Useless(f), g, props);
    TrimmedAll(f, g);
    assert Holds(g, ACCESSIBLE) && Holds(g, COACCESSIBLE);
  }

  /** `connect` keeps the bits true, also when it skips its search because of two of them. */
  method ConnectByBits(fst: VectorFst)
    requires WellFormed(fst.Value()) && BitsTrue(fst.Value(), fst.properties)
    modifies fst
    ensures IsTrimmed(old(fst.Value()), Useless(old(fst.Value())), fst.Value()) && WellFormed(fst.Value())
    ensures BitsTrue(fst.Value(), fst.properties) && {ACCESSIBLE, COACCESSIBLE} <= fst.properties
  {
    hide IsAcceptor, Deterministic, OutputDeterministic, NoEpsilons, NoInputEpsilons, NoOutputEpsilons, ILabelSorted,
         OLabelSorted, IsUnweighted, CyclesUnweighted, AllCoAccessible, AllAccessible, IsString, TopSorted, Acyclic,
         InitialAcyclic, IsTrimmed, Accessible, CoReach, TrimBitsTrue, DELETE_STATES_PROPERTIES;
    ghost var f, props := fst.Value(), fst.properties;
    TrimBitsDischarged(f, props);
    Connect(fst);
    ConnectedBits(f, fst.Value(), props);
  }

  // ------------------------------------------------ whole runs

  datatype Mutation =
    | SetStart(s: nat)
    | SetFinal(s: nat, finalWeight: Option<Weight>)
    | AddState
    | AddTr(s: nat, tr: Tr<Weight>)
    | DeleteTrs(s: nat)
    | SetLabels(s: nat, i: nat, ilabel: Label, olabel: Label)
    | SetWeight(s: nat, i: nat, weight: Weight)
    | SetNextstate(s: nat, i: nat, nextstate: nat)
    | SetTr(s: nat, i: nat, tr: Tr<Weight>)
    | SetTrs(s: nat, trs: seq<Tr<Weight>>)
    | DelStates(dstates: seq<nat>)
    | DelAllStates

  /** A machine with its property bits. */
  datatype Tagged = Tagged(fst: Fst<Weight>, bits: set<Property>)

  predicate HasArc(f: Fst<Weight>, s: nat, i: nat) {
    s < |f.states| && i < |f.states[s].trs|
  }

  function ArcAt(f: Fst<Weight>, s: nat, i: nat): Tr<Weight>
    requires HasArc(f, s, i)
  {
    f.states[s].trs[i]
  }

  /** The ids named exist. */
  ghost predicate Allowed(f: Fst<Weight>, m: Mutation) {
    match m
    case SetStart(s) => s < |f.states|
    case SetFinal(s, _) => s < |f.states|
    case AddState => true
    case AddTr(s, tr) => s < |f.states| && tr.nextstate < |f.states|
    case DeleteTrs(s) => s < |f.states|
    case SetLabels(s, i, _, _) => HasArc(f, s, i)
    case SetWeight(s, i, _) => HasArc(f, s, i)
    case SetNextstate(s, i, nextstate) => HasArc(f, s, i) && nextstate < |f.states|
    case SetTr(s, i, tr) => HasArc(f, s, i) && tr.nextstate < |f.states|
    case SetTrs(s, trs) => s < |f.states| && Targets(f, trs)
    case DelStates(dstates) => forall k :: 0 <= k < |dstates| ==> dstates[k] < |f.states|
    case DelAllStates => true
  }

  ghost function DeadIn(f: Fst<Weight>, dstates: seq<nat>): seq<bool> {
    seq(|f.states|, s requires 0 <= s < |f.states| => s in dstates)
  }

  /** Arc `i` of `s` becomes `tr` and the bits become `bits`. */
  predicate ArcStep(a: Tagged, s: nat, i: nat, tr: Tr<Weight>, bits: set<Property>, b: Tagged)
    requires HasArc(a.fst, s, i)
  {
    b == Tagged(WithArc(a.fst, s, i, tr), bits)
  }

  /** One mutation, with the update of the bits that goes with it. */
  ghost predicate Steps(a: Tagged, m: Mutation, b: Tagged)
    requires WellFormed(a.fst) && Allowed(a.fst, m)
  {
    var f, props := a.fst, a.bits;
    match m
    case SetStart(s) => b == Tagged(f.(start := Some(s)), SetStartProperties(props))
    case SetFinal(s, w) => b == Tagged(WithFinal(f, s, w), SetFinalProperties(props, f.states[s].finalWeight, w))
    case AddState => b == Tagged(WithState(f), AddStateProperties(props))
    case AddTr(s, tr) => b == Tagged(WithTr(f, s, tr), AddTrProperties(props, s, tr, LastTr(f.states[s].trs)))
    case DeleteTrs(s) => b == Tagged(WithoutTrs(f, s), props * DELETE_ARCS_PROPERTIES)
    case SetLabels(s, i, il, ol) =>
      var was := ArcAt(f, s, i);
      ArcStep(a, s, i, was.(ilabel := il, olabel := ol), SetLabelsProperties(props, was, il, ol), b)
    case SetWeight(s, i, w) =>
      var was := ArcAt(f, s, i);
      ArcStep(a, s, i, was.(weight := w), SetWeightProperties(props, was.weight, w), b)
    case SetNextstate(s, i, t) => ArcStep(a, s, i, ArcAt(f, s, i).(nextstate := t), props * RELEVANT_TO_SET_ARC, b)
    case SetTr(s, i, tr) => ArcStep(a, s, i, tr, SetTrProperties(props, ArcAt(f, s, i), tr), b)
    case SetTrs(s, trs) => b == Tagged(WithTrs(f, s, trs), AddedTrs(props, s, trs))
    case DelStates(dstates) => IsTrimmed(f, DeadIn(f, dstates), b.fst) && b.bits == props * DELETE_STATES_PROPERTIES
    case DelAllStates => b == Tagged(Fst([], None), NULL_PROPERTIES)
  }

  /** Every mutation of `VectorFst` is such a step. */
  method Perform(fst: VectorFst, m: Mutation)
    requires WellFormed(fst.Value()) && Allowed(fst.Value(), m)
    modifies fst
    ensures Steps(old(Tagged(fst.Value(), fst.properties)), m, Tagged(fst.Value(), fst.properties))
  {
    hide SetStartProperties, SetFinalProperties, AddStateProperties, AddTrProperties, SetLabelsProperties,
         SetWeightProperties, SetTrProperties, WellFormed, IsTrimmed, DELETE_ARCS_PROPERTIES, DELETE_STATES_PROPERTIES,
         RELEVANT_TO_SET_ARC;
    match m {
      case SetStart(s) => fst.SetStart(s);
      case SetFinal(s, w) => fst.SetFinal(s, w);
      case AddState => var _ := fst.AddState();
      case AddTr(s, tr) => fst.AddTr(s, tr);
      case DeleteTrs(s) => fst.DeleteTrs(s);
      case SetLabels(s, i, il, ol) => fst.SetLabels(s, i, il, ol);
      case SetWeight(s, i, w) => fst.SetWeight(s, i, w);
      case SetNextstate(s, i, t) => fst.SetNextstate(s, i, t);
      case SetTr(s, i, tr) => fst.SetTr(s, i, tr);
      case SetTrs(s, trs) => fst.SetTrs(s, trs);
      case DelStates(dstates) => fst.DelStates(dstates, DeadIn(fst.Value(), dstates));
      case DelAllStates => fst.DelAllStates();
    }
  }

  lemma ArcWellFormed(f: Fst<Weight>, s: nat, i: nat, tr: Tr<Weight>)
    requires WellFormed(f) && HasArc(f, s, i) && tr.nextstate < |f.states|
    ensures WellFormed(WithArc(f, s, i, tr))
  {
  }

  /** No bit outlives the arcs that made it true; only the wholesale replacement of arcs can let one. */
  ghost predicate NothingStale(a: Tagged, m: Mutation)
    requires Allowed(a.fst, m)
  {
    m.SetTrs? ==> forall p :: p in Stale(a.bits, m.trs) ==> Holds(WithTrs(a.fst, m.s, m.trs), p)
  }

  lemma StepKeeps(a: Tagged, m: Mutation, b: Tagged)
    requires WellFormed(a.fst) && BitsTrue(a.fst, a.bits) && Allowed(a.fst, m) && Steps(a, m, b)
    ensures WellFormed(b.fst) && (BitsTrue(b.fst, b.bits) <==> NothingStale(a, m))
  {
    hide SetStartProperties, SetFinalProperties, AddStateProperties, AddTrProperties, SetLabelsProperties,
         SetWeightProperties, SetTrProperties, IsTrimmed, DELETE_ARCS_PROPERTIES, DELETE_STATES_PROPERTIES,
         RELEVANT_TO_SET_ARC, BitsTrue, WithTr, WithoutTrs, WithArc, WithState;
    var f, props := a.fst, a.bits;
    match m {
      case SetStart(s) => SetStartKeeps(f, s, props);
      case SetFinal(s, w) => SetFinalKeeps(f, s, w, props);
      case AddState => AddStateKeeps(f, props);
      case AddTr(s, tr) => AddTrKeeps(f, s, tr, props);
      case DeleteTrs(s) => DeleteTrsKeeps(f, s, props);
      case SetLabels(s, i, il, ol) =>
        SetLabelsKeeps(f, s, i, il, ol, props);
        ArcWellFormed(f, s, i, f.states[s].trs[i].(ilabel := il, olabel := ol));
      case SetWeight(s, i, w) =>
        SetWeightKeeps(f, s, i, w, props);
        ArcWellFormed(f, s, i, f.states[s].trs[i].(weight := w));
      case SetNextstate(s, i, t) =>
        SetNextstateKeeps(f, s, i, t, props);
        ArcWellFormed(f, s, i, f.states[s].trs[i].(nextstate := t));
      case SetTr(s, i, tr) =>
        SetTrKeeps(f, s, i, tr, props);
        ArcWellFormed(f, s, i, tr);
      case SetTrs(s, trs) => SetTrsExact(f, s, trs, props);
      case DelStates(dstates) =>
        DelStatesKeeps(f, DeadIn(f, dstates), b.fst, props);
        TrimmedWellFormed(f, DeadIn(f, dstates), b.fst);
      case DelAllStates => EmptyTrue();
    }
  }

  /** `run` lists the machines before, between and after the mutations `ms`. */
  ghost predicate IsRun(run: seq<Tagged>, ms: seq<Mutation>) {
    && |run| == |ms| + 1
    && forall k :: 0 <= k < |ms| ==>
         WellFormed(run[k].fst) && Allowed(run[k].fst, ms[k]) && Steps(run[k], ms[k], run[k+1])
  }

  ghost predicate TrueAt(run: seq<Tagged>, j: nat) {
    j < |run| ==> BitsTrue(run[j].fst, run[j].bits)
  }

  ghost predicate CleanAt(run: seq<Tagged>, ms: seq<Mutation>, j: nat) {
    j < |run| && j < |ms| && Allowed(run[j].fst, ms[j]) ==> NothingStale(run[j], ms[j])
  }

  /** Along any sequence of mutations of a new machine every set bit is true at every moment,
      exactly when no replacement of arcs on the way leaves a stale bit. */
  lemma {:induction false} RunsKeepBitsTrue(run: seq<Tagged>, ms: seq<Mutation>, k: nat)
    requires IsRun(run, ms) && k < |run| && run[0] == Tagged(Fst([], None), NULL_PROPERTIES)
    ensures (forall j :: 0 <= j <= k ==> TrueAt(run, j)) <==> (forall j :: 0 <= j < k ==> CleanAt(run, ms, j))
    ensures (forall j :: 0 <= j < k ==> CleanAt(run, ms, j)) ==> WellFormed(run[k].fst)
    decreases k
  {
    hide BitsTrue, Steps, Allowed, NothingStale, WellFormed;
    if k == 0 {
      EmptyTrue();
    } else {
      var j: nat := k - 1;
      RunsKeepBitsTrue(run, ms, j);
      assert WellFormed(run[j].fst) && Allowed(run[j].fst, ms[j]) && Steps(run[j], ms[j], run[j+1]);
      if forall i :: 0 <= i <= j ==> TrueAt(run, i) {
        assert TrueAt(run, j);
        StepKeeps(run[j], ms[j], run[k]);
        assert TrueAt(run, k) <==> CleanAt(run, ms, j);
      }
    }
  }

  // ------------------------------------------------ mutators that keep the bits true

  /** Targets exist and, if `sound`, the bits are true. */
  ghost predicate Marks(fst: VectorFst, sound: bool)
    reads fst
  {
    WellFormed(fst.Value()) && (sound ==> BitsTrue(fst.Value(), fst.properties))
  }

  method AppendTr(fst: VectorFst, s: nat, tr: Tr<Weight>, ghost sound: bool)
    requires Marks(fst, sound) && s < |fst.states| && tr.nextstate < |fst.states|
    modifies fst
    ensures Marks(fst, sound) && fst.start == old(fst.start)
    ensures old(ACCESSIBLE !in fst.properties) ==> ACCESSIBLE !in fst.properties
    ensures fst.states == old(fst.states)[s := old(fst.states)[s].(trs := old(fst.states)[s].trs + [tr])]
  {
    hide BitsTrue, AddTrProperties;
    if ACCESSIBLE !in fst.properties {
      AddTrStaysUnmarked(fst.properties, s, tr, LastTr(fst.states[s].trs));
    }
    WithTrArcs(fst.Value(), s, tr);
    if sound {
      AddTrKeeps(fst.Value(), s, tr, fst.properties);
    }
    fst.AddTr(s, tr);
  }

  method ClearTrs(fst: VectorFst, s: nat, ghost sound: bool)
    requires Marks(fst, sound) && s < |fst.states|
    modifies fst
    ensures Marks(fst, sound) && fst.start == old(fst.start) && ACCESSIBLE !in fst.properties
    ensures fst.states == old(fst.states)[s := old(fst.states)[s].(trs := [])]
  {
    hide BitsTrue, DELETE_ARCS_PROPERTIES;
    FewerTargets(fst.Value(), s);
    DeleteUnmarks(fst.properties);
    if sound {
      DeleteTrsKeeps(fst.Value(), s, fst.properties);
    }
    fst.DeleteTrs(s);
  }

  lemma FewerTargets(f: Fst<Weight>, s: nat)
    requires WellFormed(f) && s < |f.states|
    ensures WellFormed(WithoutTrs(f, s))
  {
  }

  method ClearFinal(fst: VectorFst, s: nat, ghost sound: bool)
    requires Marks(fst, sound) && s < |fst.states|
    modifies fst
    ensures Marks(fst, sound) && fst.start == old(fst.start)
    ensures old(ACCESSIBLE !in fst.properties) ==> ACCESSIBLE !in fst.properties
    ensures fst.states == old(fst.states)[s := old(fst.states)[s].(finalWeight := None)]
  {
    hide BitsTrue, SetFinalProperties;
    if ACCESSIBLE !in fst.properties {
      SetFinalStaysUnmarked(fst.properties, fst.states[s].finalWeight, None);
    }
    if sound {
      SetFinalKeeps(fst.Value(), s, None, fst.properties);
    }
    fst.SetFinal(s, None);
  }
}
