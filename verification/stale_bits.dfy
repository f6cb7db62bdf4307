/** When a bit outlives the arcs that made it true: the condition in terms of the machine without these arcs and the
    new ones. */
module StaleBits {
  import opened Fsts
  import opened Acceptors
  import opened Properties
  import opened PropertyBits
  import opened VectorFsts
  import opened Weights

  // ------------------------------------------------ paths through the new arcs

  /** Some new arc leads, by old arcs from there on, to `y`. */
  ghost predicate LeadsTo(f: Fst<Weight>, trs: seq<Tr<Weight>>, y: nat) {
    exists i :: 0 <= i < |trs| && Reach(f, trs[i].nextstate, y)
  }

  ghost predicate Replaced(f: Fst<Weight>, s: nat, trs: seq<Tr<Weight>>, g: Fst<Weight>) {
    s < |f.states| && WellFormed(f) && f.states[s].trs == [] && Targets(f, trs) && g == WithTrs(f, s, trs)
      && WellFormed(g)
  }

  lemma ReplacedFacts(f: Fst<Weight>, s: nat, trs: seq<Tr<Weight>>, g: Fst<Weight>)
    requires Replaced(f, s, trs, g)
    ensures |g.states| == |f.states| && g.start == f.start && g.states[s].trs == trs
    ensures forall t: nat :: IsFinal(g, t) == IsFinal(f, t)
    ensures ArcsIn(f, g)
    ensures forall e :: IsEdge(g, e) ==>
         if e.src == s then e.pos < |trs| && Arc(g, e) == trs[e.pos] else IsEdge(f, e) && Arc(f, e) == Arc(g, e)
    ensures forall i :: 0 <= i < |trs| ==> IsEdge(g, Edge(s, i)) && Arc(g, Edge(s, i)) == trs[i]
  {
  }

  /** A path either keeps to the old arcs, or reaches `s` by them and goes on from the last new arc. */
  lemma {:induction false} PathAround(f: Fst<Weight>, s: nat, trs: seq<Tr<Weight>>, g: Fst<Weight>, x: nat,
                                      p: seq<Edge>, y: nat)
    requires Replaced(f, s, trs, g) && IsPath(g, x, p, y) && x < |f.states|
    ensures Reach(f, x, y) || (Reach(f, x, s) && LeadsTo(f, trs, y))
    decreases |p|
  {
    ReplacedFacts(f, s, trs, g);
    ReachRefl(f, x);
    if p != [] {
      var e := p[0];
      var z := Arc(g, e).nextstate;
      hide Replaced, IsPath, LeadsTo;
      NextState(g, e);
      PathAround(f, s, trs, g, z, p[1..], y);
      if x != s {
        OldArc(f, e, y);
        OldArc(f, e, s);
      } else if Reach(f, z, y) {
        assert LeadsTo(f, trs, y) by {
          NewArc(f, trs, e.pos, y);
        }
      }
    }
  }

  lemma NextState(g: Fst<Weight>, e: Edge)
    requires WellFormed(g) && IsEdge(g, e)
    ensures Arc(g, e).nextstate < |g.states|
  {
  }

  lemma NewArc(f: Fst<Weight>, trs: seq<Tr<Weight>>, i: nat, y: nat)
    requires i < |trs| && Reach(f, trs[i].nextstate, y)
    ensures LeadsTo(f, trs, y)
  {
  }

  lemma OldArc(f: Fst<Weight>, e: Edge, y: nat)
    requires WellFormed(f) && IsEdge(f, e) && e.src < |f.states|
    ensures Reach(f, Arc(f, e).nextstate, y) ==> Reach(f, e.src, y)
  {
    if Reach(f, Arc(f, e).nextstate, y) {
      ReachEdge(f, e.src, e.pos);
      ReachTrans(f, e.src, Arc(f, e).nextstate, y);
    }
  }

  lemma ReachAround(f: Fst<Weight>, s: nat, trs: seq<Tr<Weight>>, g: Fst<Weight>, x: nat, y: nat)
    requires Replaced(f, s, trs, g) && x < |f.states| && y < |f.states|
    ensures Reach(g, x, y) <==> Reach(f, x, y) || (Reach(f, x, s) && LeadsTo(f, trs, y))
  {
    ReplacedFacts(f, s, trs, g);
    if Reach(g, x, y) {
      var p := ReachPath(g, x, y);
      PathAround(f, s, trs, g, x, p, y);
    }
    hide Reach, ArcsIn;
    if Reach(f, x, y) {
      ReachIn(f, g, x, y);
    }
    if Reach(f, x, s) && LeadsTo(f, trs, y) {
      var i :| 0 <= i < |trs| && Reach(f, trs[i].nextstate, y);
      ReachIn(f, g, x, s);
      ReachIn(f, g, trs[i].nextstate, y);
      ReachEdge(g, s, i);
      ReachTrans(g, x, s, trs[i].nextstate);
      ReachTrans(g, x, trs[i].nextstate, y);
    }
  }

  // ------------------------------------------------ cycles as arcs that lead back

  ghost predicate LeadsBack(f: Fst<Weight>, e: Edge) {
    IsEdge(f, e) && Reach(f, Arc(f, e).nextstate, e.src)
  }

  lemma CycleArc(f: Fst<Weight>)
    requires WellFormed(f)
    ensures !Acyclic(f) <==> exists e :: LeadsBack(f, e)
    ensures !InitialAcyclic(f) <==> f.start.Some? && exists e :: LeadsBack(f, e) && e.src == f.start.value
  {
    forall s: nat, p: seq<Edge> | p != [] && IsPath(f, s, p, s) ensures LeadsBack(f, p[0]) && p[0].src == s {
      assert IsPath(f, Arc(f, p[0]).nextstate, p[1..], s);
    }
    forall e | LeadsBack(f, e) ensures exists p :: p != [] && IsPath(f, e.src, p, e.src) {
      var p := ReachPath(f, Arc(f, e).nextstate, e.src);
      assert ([e] + p)[1..] == p;
      assert IsPath(f, e.src, [e] + p, e.src);
    }
  }

  /** A cycle is old, or leads from a new arc back to `s`. */
  lemma BackAround(f: Fst<Weight>, s: nat, trs: seq<Tr<Weight>>, g: Fst<Weight>, e: Edge)
    requires Replaced(f, s, trs, g) && IsEdge(g, e)
    ensures Arc(g, e).nextstate < |f.states|
    ensures e.src == s ==> (LeadsBack(g, e) <==> Reach(f, Arc(g, e).nextstate, s))
    ensures e.src != s ==> (LeadsBack(g, e)
         <==> LeadsBack(f, e) || (Reach(f, Arc(g, e).nextstate, s) && LeadsTo(f, trs, e.src)))
  {
    ReplacedFacts(f, s, trs, g);
    NextState(g, e);
    ReachAround(f, s, trs, g, Arc(g, e).nextstate, e.src);
  }

  // ------------------------------------------------ bit by bit

  /** What makes bit `p` true once `trs` are the arcs of `s`: old arcs of other states, or the new ones.
      Here `f` is the machine without the old arcs of `s`. */
  ghost predicate HasWitness(f: Fst<Weight>, s: nat, trs: seq<Tr<Weight>>, p: Property) {
    match p
    case NOT_ACCEPTOR => !IsAcceptor(f) || exists i :: 0 <= i < |trs| && trs[i].ilabel != trs[i].olabel
    case NOT_I_DETERMINISTIC => !Deterministic(f) || exists i, j :: 0 <= i < j < |trs| && trs[i].ilabel == trs[j].ilabel
    case NOT_O_DETERMINISTIC => !OutputDeterministic(f) ||
         exists i, j :: 0 <= i < j < |trs| && trs[i].olabel == trs[j].olabel
    case EPSILONS => !NoEpsilons(f) ||
         exists i :: 0 <= i < |trs| && trs[i].ilabel == EPS_LABEL && trs[i].olabel == EPS_LABEL
    case I_EPSILONS => !NoInputEpsilons(f) || exists i :: 0 <= i < |trs| && trs[i].ilabel == EPS_LABEL
    case O_EPSILONS => !NoOutputEpsilons(f) || exists i :: 0 <= i < |trs| && trs[i].olabel == EPS_LABEL
    case NOT_I_LABEL_SORTED => !ILabelSorted(f) || exists i, j :: 0 <= i < j < |trs| && trs[i].ilabel > trs[j].ilabel
    case NOT_O_LABEL_SORTED => !OLabelSorted(f) || exists i, j :: 0 <= i < j < |trs| && trs[i].olabel > trs[j].olabel
    case WEIGHTED => !IsUnweighted(f) || exists i :: 0 <= i < |trs| && !Trivial(trs[i].weight)
    case NOT_TOP_SORTED => !TopSorted(f) || exists i :: 0 <= i < |trs| && trs[i].nextstate <= s
    case CYCLIC => !Acyclic(f) || LeadsTo(f, trs, s)
    case INITIAL_CYCLIC =>
      !InitialAcyclic(f) || (f.start.Some? && Reach(f, f.start.value, s) && LeadsTo(f, trs, f.start.value))
    case WEIGHTED_CYCLES =>
      || !CyclesUnweighted(f)
      || (exists i :: 0 <= i < |trs| && HeavyNew(f, s, trs, i))
      || (exists e :: HeavyOld(f, s, trs, e))
    case ACCESSIBLE => forall v: nat :: v < |f.states| ==> StillAccessible(f, s, trs, v)
    case COACCESSIBLE => forall v: nat :: v < |f.states| ==> StillCoAccessible(f, s, trs, v)
    case _ => Holds(f, p)
  }

  /** A new arc that is neither zero nor one, and leads back. */
  ghost predicate HeavyNew(f: Fst<Weight>, s: nat, trs: seq<Tr<Weight>>, i: nat)
    requires i < |trs|
  {
    !Trivial(trs[i].weight) && Reach(f, trs[i].nextstate, s)
  }

  /** An old arc that is neither zero nor one, on a cycle through `s`. */
  ghost predicate HeavyOld(f: Fst<Weight>, s: nat, trs: seq<Tr<Weight>>, e: Edge) {
    IsEdge(f, e) && !Trivial(Arc(f, e).weight) && Reach(f, Arc(f, e).nextstate, s) && LeadsTo(f, trs, e.src)
  }

  ghost predicate StillAccessible(f: Fst<Weight>, s: nat, trs: seq<Tr<Weight>>, v: nat) {
    f.start.Some? && (Reach(f, f.start.value, v) || (Reach(f, f.start.value, s) && LeadsTo(f, trs, v)))
  }

  ghost predicate StillCoAccessible(f: Fst<Weight>, s: nat, trs: seq<Tr<Weight>>, v: nat) {
    CoReach(f, v) || (Reach(f, v, s) && exists u: nat :: LeadsTo(f, trs, u) && IsFinal(f, u))
  }

  /** Only the arcs of `s` differ, and `f` has none there. */
  ghost predicate OnlyAt(f: Fst<Weight>, s: nat, trs: seq<Tr<Weight>>, g: Fst<Weight>) {
    && |g.states| == |f.states| && s < |f.states| && f.states[s].trs == [] && g.states[s].trs == trs
    && (forall t :: 0 <= t < |f.states| ==> g.states[t].finalWeight == f.states[t].finalWeight)
    && (forall t :: 0 <= t < |f.states| && t != s ==> g.states[t].trs == f.states[t].trs)
  }

  lemma ReplacedOnly(f: Fst<Weight>, s: nat, trs: seq<Tr<Weight>>, g: Fst<Weight>)
    requires Replaced(f, s, trs, g)
    ensures OnlyAt(f, s, trs, g)
  {
  }

  lemma LabelsWitnessed(f: Fst<Weight>, s: nat, trs: seq<Tr<Weight>>, g: Fst<Weight>)
    requires OnlyAt(f, s, trs, g)
    ensures Holds(g, NOT_ACCEPTOR) <==> HasWitness(f, s, trs, NOT_ACCEPTOR)
    ensures Holds(g, I_EPSILONS) <==> HasWitness(f, s, trs, I_EPSILONS)
    ensures Holds(g, O_EPSILONS) <==> HasWitness(f, s, trs, O_EPSILONS)
  {
  }

  lemma ArcsWitnessed(f: Fst<Weight>, s: nat, trs: seq<Tr<Weight>>, g: Fst<Weight>)
    requires OnlyAt(f, s, trs, g)
    ensures Holds(g, EPSILONS) <==> HasWitness(f, s, trs, EPSILONS)
    ensures Holds(g, WEIGHTED) <==> HasWitness(f, s, trs, WEIGHTED)
    ensures Holds(g, NOT_TOP_SORTED) <==> HasWitness(f, s, trs, NOT_TOP_SORTED)
  {
    hide Trivial;
  }

  lemma PairsWitnessed(f: Fst<Weight>, s: nat, trs: seq<Tr<Weight>>, g: Fst<Weight>)
    requires OnlyAt(f, s, trs, g)
    ensures Holds(g, NOT_I_DETERMINISTIC) <==> HasWitness(f, s, trs, NOT_I_DETERMINISTIC)
    ensures Holds(g, NOT_O_DETERMINISTIC) <==> HasWitness(f, s, trs, NOT_O_DETERMINISTIC)
  {
  }

  lemma OrderWitnessed(f: Fst<Weight>, s: nat, trs: seq<Tr<Weight>>, g: Fst<Weight>)
    requires OnlyAt(f, s, trs, g)
    ensures Holds(g, NOT_I_LABEL_SORTED) <==> HasWitness(f, s, trs, NOT_I_LABEL_SORTED)
    ensures Holds(g, NOT_O_LABEL_SORTED) <==> HasWitness(f, s, trs, NOT_O_LABEL_SORTED)
  {
  }

  lemma CycleWitnessed(f: Fst<Weight>, s: nat, trs: seq<Tr<Weight>>, g: Fst<Weight>)
    requires Replaced(f, s, trs, g)
    ensures Holds(g, CYCLIC) <==> HasWitness(f, s, trs, CYCLIC)
  {
    hide Acyclic, InitialAcyclic, Reach, LeadsBack, LeadsTo;
    CycleArc(f);
    CycleArc(g);
    if e :| LeadsBack(g, e) {
      BackFrom(f, s, trs, g, e);
    }
    if e :| LeadsBack(f, e) {
      StillBack(f, s, trs, g, e);
    }
    if LeadsTo(f, trs, s) {
      var e := NewBack(f, s, trs, g);
    }
  }

  lemma BackFrom(f: Fst<Weight>, s: nat, trs: seq<Tr<Weight>>, g: Fst<Weight>, e: Edge)
    requires Replaced(f, s, trs, g) && LeadsBack(g, e)
    ensures LeadsBack(f, e) || LeadsTo(f, trs, s)
  {
    ReplacedFacts(f, s, trs, g);
    hide Reach, LeadsBack, LeadsTo, ArcsIn;
    BackAround(f, s, trs, g, e);
    BackEdge(g, e);
    if e.src == s {
      NewArc(f, trs, e.pos, s);
    } else if !LeadsBack(f, e) {
      RoundTrip(f, trs, e, s);
    }
  }

  lemma NewBack(f: Fst<Weight>, s: nat, trs: seq<Tr<Weight>>, g: Fst<Weight>) returns (e: Edge)
    requires Replaced(f, s, trs, g) && LeadsTo(f, trs, s)
    ensures LeadsBack(g, e)
  {
    ReplacedFacts(f, s, trs, g);
    hide Reach, LeadsBack, ArcsIn;
    var i :| 0 <= i < |trs| && Reach(f, trs[i].nextstate, s);
    e := Edge(s, i);
    BackAround(f, s, trs, g, e);
  }

  lemma BackEdge(f: Fst<Weight>, e: Edge)
    requires LeadsBack(f, e)
    ensures IsEdge(f, e) && Reach(f, Arc(f, e).nextstate, e.src)
  {
  }

  lemma StillBack(f: Fst<Weight>, s: nat, trs: seq<Tr<Weight>>, g: Fst<Weight>, e: Edge)
    requires Replaced(f, s, trs, g) && LeadsBack(f, e)
    ensures LeadsBack(g, e) && Arc(g, e) == Arc(f, e) && e.src != s
  {
    ReplacedFacts(f, s, trs, g);
    BackAround(f, s, trs, g, e);
  }

  /** From a new arc to an old one and on to `s`. */
  lemma RoundTrip(f: Fst<Weight>, trs: seq<Tr<Weight>>, e: Edge, s: nat)
    requires WellFormed(f) && IsEdge(f, e) && LeadsTo(f, trs, e.src) && Reach(f, Arc(f, e).nextstate, s)
    ensures LeadsTo(f, trs, s)
  {
    var i :| 0 <= i < |trs| && Reach(f, trs[i].nextstate, e.src);
    ReachEdge(f, e.src, e.pos);
    ReachTrans(f, e.src, Arc(f, e).nextstate, s);
    ReachTrans(f, trs[i].nextstate, e.src, s);
  }

  lemma InitialWitnessed(f: Fst<Weight>, s: nat, trs: seq<Tr<Weight>>, g: Fst<Weight>)
    requires Replaced(f, s, trs, g)
    ensures Holds(g, INITIAL_CYCLIC) <==> HasWitness(f, s, trs, INITIAL_CYCLIC)
  {
    ReplacedFacts(f, s, trs, g);
    CycleArc(f);
    CycleArc(g);
    if f.start.Some? {
      var v := f.start.value;
      hide Acyclic, InitialAcyclic, Reach, LeadsBack;
      if e :| LeadsBack(g, e) && e.src == v {
        BackAround(f, s, trs, g, e);
        BackEdge(g, e);
        if e.src == s {
          NewArc(f, trs, e.pos, v);
          ReachRefl(f, v);
        } else if !LeadsBack(f, e) {
          OldArc(f, e, s);
        }
      }
      if e :| LeadsBack(f, e) && e.src == v {
        StillBack(f, s, trs, g, e);
      }
      if Reach(f, v, s) && LeadsTo(f, trs, v) {
        StartLoop(f, s, trs, g, v);
      }
    }
  }

  lemma StartLoop(f: Fst<Weight>, s: nat, trs: seq<Tr<Weight>>, g: Fst<Weight>, v: nat)
    requires Replaced(f, s, trs, g) && v < |f.states| && Reach(f, v, s) && LeadsTo(f, trs, v)
    ensures exists e :: LeadsBack(g, e) && e.src == v
  {
    ReplacedFacts(f, s, trs, g);
    if v == s {
      var i :| 0 <= i < |trs| && Reach(f, trs[i].nextstate, v);
      BackAround(f, s, trs, g, Edge(s, i));
    } else {
      var p := ReachPath(f, v, s);
      var e := p[0];
      assert IsPath(f, Arc(f, e).nextstate, p[1..], s);
      BackAround(f, s, trs, g, e);
    }
  }

  lemma HeavyWitnessed(f: Fst<Weight>, s: nat, trs: seq<Tr<Weight>>, g: Fst<Weight>)
    requires Replaced(f, s, trs, g)
    ensures Holds(g, WEIGHTED_CYCLES) <==> HasWitness(f, s, trs, WEIGHTED_CYCLES)
  {
    HeavyArc(f);
    HeavyArc(g);
    hide CyclesUnweighted, LeadsBack, Replaced, HeavyNew, HeavyOld, Trivial;
    if e :| LeadsBack(g, e) && IsEdge(g, e) && !Trivial(Arc(g, e).weight) {
      HeavyFrom(f, s, trs, g, e);
    }
    if e :| LeadsBack(f, e) && IsEdge(f, e) && !Trivial(Arc(f, e).weight) {
      StillBack(f, s, trs, g, e);
      BackEdge(g, e);
    }
    if i :| 0 <= i < |trs| && HeavyNew(f, s, trs, i) {
      HeavyBack(f, s, trs, g, i);
    }
    if e :| HeavyOld(f, s, trs, e) {
      HeavyStill(f, s, trs, g, e);
    }
  }

  lemma HeavyFrom(f: Fst<Weight>, s: nat, trs: seq<Tr<Weight>>, g: Fst<Weight>, e: Edge)
    requires Replaced(f, s, trs, g) && LeadsBack(g, e) && IsEdge(g, e) && !Trivial(Arc(g, e).weight)
    ensures e.src == s ==> e.pos < |trs| && HeavyNew(f, s, trs, e.pos)
    ensures e.src != s && !LeadsBack(f, e) ==> HeavyOld(f, s, trs, e)
    ensures e.src != s ==> IsEdge(f, e) && !Trivial(Arc(f, e).weight)
  {
    ReplacedFacts(f, s, trs, g);
    hide Reach, LeadsBack, Replaced, ArcsIn;
    BackAround(f, s, trs, g, e);
  }

  lemma HeavyBack(f: Fst<Weight>, s: nat, trs: seq<Tr<Weight>>, g: Fst<Weight>, i: nat)
    requires Replaced(f, s, trs, g) && i < |trs| && HeavyNew(f, s, trs, i)
    ensures LeadsBack(g, Edge(s, i)) && IsEdge(g, Edge(s, i)) && !Trivial(Arc(g, Edge(s, i)).weight)
  {
    ReplacedFacts(f, s, trs, g);
    hide Reach, LeadsBack, Replaced, ArcsIn;
    BackAround(f, s, trs, g, Edge(s, i));
  }

  lemma HeavyStill(f: Fst<Weight>, s: nat, trs: seq<Tr<Weight>>, g: Fst<Weight>, e: Edge)
    requires Replaced(f, s, trs, g) && HeavyOld(f, s, trs, e)
    ensures LeadsBack(g, e) && IsEdge(g, e) && !Trivial(Arc(g, e).weight)
  {
    ReplacedFacts(f, s, trs, g);
    assert e.src != s;
    hide Reach, LeadsBack, Replaced;
    BackAround(f, s, trs, g, e);
  }

  lemma HeavyArc(f: Fst<Weight>)
    ensures !CyclesUnweighted(f) <==> exists e :: LeadsBack(f, e) && IsEdge(f, e) && !Trivial(Arc(f, e).weight)
  {
  }

  lemma AccessWitnessed(f: Fst<Weight>, s: nat, trs: seq<Tr<Weight>>, g: Fst<Weight>)
    requires Replaced(f, s, trs, g)
    ensures Holds(g, ACCESSIBLE) <==> HasWitness(f, s, trs, ACCESSIBLE)
  {
    ReplacedFacts(f, s, trs, g);
    forall v: nat | v < |f.states| ensures Accessible(g, v) <==> StillAccessible(f, s, trs, v) {
      if f.start.Some? {
        ReachAround(f, s, trs, g, f.start.value, v);
      }
    }
    hide Accessible, StillAccessible, Replaced;
  }

  lemma CoAccessWitnessed(f: Fst<Weight>, s: nat, trs: seq<Tr<Weight>>, g: Fst<Weight>)
    requires Replaced(f, s, trs, g)
    ensures Holds(g, COACCESSIBLE) <==> HasWitness(f, s, trs, COACCESSIBLE)
  {
    ReplacedFacts(f, s, trs, g);
    forall v: nat | v < |f.states| ensures CoReach(g, v) <==> StillCoAccessible(f, s, trs, v) {
      CoReachAround(f, s, trs, g, v);
    }
    hide CoReach, StillCoAccessible, Replaced;
  }

  lemma CoReachAround(f: Fst<Weight>, s: nat, trs: seq<Tr<Weight>>, g: Fst<Weight>, v: nat)
    requires Replaced(f, s, trs, g) && v < |f.states|
    ensures CoReach(g, v) <==> StillCoAccessible(f, s, trs, v)
  {
    ReplacedFacts(f, s, trs, g);
    hide Reach, LeadsTo, Replaced;
    forall u: nat | IsFinal(f, u) ensures Reach(g, v, u) <==> Reach(f, v, u) || (Reach(f, v, s) && LeadsTo(f, trs, u)) {
      ReachAround(f, s, trs, g, v, u);
    }
  }

  // ------------------------------------------------ the theorem

  lemma WitnessedExactly(f: Fst<Weight>, s: nat, trs: seq<Tr<Weight>>, g: Fst<Weight>, p: Property)
    requires Replaced(f, s, trs, g) && (trs == [] || p in ADD_ARC_PROPERTIES)
    ensures Holds(g, p) <==> HasWitness(f, s, trs, p)
  {
    hide Holds, HasWitness, Replaced, OnlyAt, ADD_ARC_PROPERTIES;
    ReplacedOnly(f, s, trs, g);
    LabelsWitnessed(f, s, trs, g);
    ArcsWitnessed(f, s, trs, g);
    PairsWitnessed(f, s, trs, g);
    OrderWitnessed(f, s, trs, g);
    CycleWitnessed(f, s, trs, g);
    InitialWitnessed(f, s, trs, g);
    HeavyWitnessed(f, s, trs, g);
    AccessWitnessed(f, s, trs, g);
    CoAccessWitnessed(f, s, trs, g);
    AddArcKinds(p);
    if p !in ADD_ARC_PROPERTIES {
      SameMachine(f, s, trs, g);
      OtherWitnessed(f, s, p);
    }
  }

  lemma AddArcKinds(p: Property)
    ensures p in ADD_ARC_PROPERTIES ==>
              p == NOT_ACCEPTOR || p == NOT_I_DETERMINISTIC || p == NOT_O_DETERMINISTIC || p == EPSILONS
                || p == I_EPSILONS
              || p == O_EPSILONS || p == NOT_I_LABEL_SORTED || p == NOT_O_LABEL_SORTED || p == WEIGHTED || p == CYCLIC
              || p == INITIAL_CYCLIC || p == NOT_TOP_SORTED || p == ACCESSIBLE || p == COACCESSIBLE
                || p == WEIGHTED_CYCLES
  {
  }

  lemma OtherWitnessed(f: Fst<Weight>, s: nat, p: Property)
    requires p !in ADD_ARC_PROPERTIES
    ensures HasWitness(f, s, [], p) <==> Holds(f, p)
  {
    hide Holds;
  }

  lemma SameMachine(f: Fst<Weight>, s: nat, trs: seq<Tr<Weight>>, g: Fst<Weight>)
    requires Replaced(f, s, trs, g) && trs == []
    ensures g == f
  {
  }

  /** Replacing the arcs of a state keeps the bits true exactly when each stale one has a witness among the arcs
      of the other states and the new arcs. */
  lemma SetTrsWitnessed(f: Fst<Weight>, s: nat, trs: seq<Tr<Weight>>, props: set<Property>)
    requires WellFormed(f) && s < |f.states| && Targets(f, trs) && BitsTrue(f, props)
    ensures BitsTrue(WithTrs(f, s, trs), AddedTrs(props, s, trs))
       <==> forall p :: p in Stale(props, trs) ==> HasWitness(WithoutTrs(f, s), s, trs, p)
  {
    hide AddTrProperties, Holds, HasWitness, BitsTrue, AddedTrs;
    var f0, g := WithoutTrs(f, s), WithTrs(f, s, trs);
    SetTrsExact(f, s, trs, props);
    assert WithTrs(f0, s, trs) == g && Replaced(f0, s, trs, g);
    forall p | p in Stale(props, trs) ensures Holds(g, p) <==> HasWitness(f0, s, trs, p) {
      WitnessedExactly(f0, s, trs, g, p);
    }
  }
}
