/** `reweight`: potentials move weight along the paths without changing what a path weighs. */
module Reweights {
  import opened Fsts
  import opened Properties
  import opened PropertyBits
  import opened ShortestDistances
  import opened Trims
  import opened VectorFsts
  import opened Weights

  datatype ReweightType = ReweightToInitial | ReweightToFinal

  function Divide(a: Weight, b: Weight): Weight
    requires b.Fin?
  {
    if a.Fin? then Fin(a.v - b.v) else Inf
  }

  // ------------------------------------------------ the new weights

  /** Arc weights move only between states whose potentials are both not zero. */
  function NewWeight(pot: seq<Weight>, ty: ReweightType, s: nat, tr: Tr<Weight>): Weight {
    var a, b := At(pot, s), At(pot, tr.nextstate);
    if a == ZERO || b == ZERO then tr.weight
    else match ty
      case ReweightToInitial => Divide(Times(tr.weight, b), a)
      case ReweightToFinal => Divide(Times(a, tr.weight), b)
  }

  function NewFinal(pot: seq<Weight>, ty: ReweightType, s: nat, w: Weight): Weight {
    match ty
    case ReweightToInitial => if At(pot, s) == ZERO then w else Divide(w, At(pot, s))
    case ReweightToFinal => Times(w, At(pot, s))
  }

  function NewTr(pot: seq<Weight>, ty: ReweightType, s: nat, tr: Tr<Weight>): Tr<Weight> {
    tr.(weight := NewWeight(pot, ty, s, tr))
  }

  function NewTrs(pot: seq<Weight>, ty: ReweightType, s: nat, trs: seq<Tr<Weight>>): (r: seq<Tr<Weight>>)
    ensures |r| == |trs| && forall i :: 0 <= i < |trs| ==> r[i] == NewTr(pot, ty, s, trs[i])
  {
    seq(|trs|, i requires 0 <= i < |trs| => NewTr(pot, ty, s, trs[i]))
  }

  function NewState(pot: seq<Weight>, ty: ReweightType, s: nat, st: State<Weight>): State<Weight> {
    State(match st.finalWeight case Some(w) => Some(NewFinal(pot, ty, s, w)) case None => None,
          NewTrs(pot, ty, s, st.trs))
  }

  function Shift(f: Fst<Weight>, pot: seq<Weight>, ty: ReweightType): (g: Fst<Weight>)
    ensures |g.states| == |f.states| && g.start == f.start &&
         forall s :: 0 <= s < |f.states| ==> g.states[s] == NewState(pot, ty, s, f.states[s])
  {
    Fst(seq(|f.states|, s requires 0 <= s < |f.states| => NewState(pot, ty, s, f.states[s])), f.start)
  }

  /** All that leaves the state `s`, multiplied by `w` in front. */
  function ScaleState(st: State<Weight>, w: Weight): State<Weight> {
    State(match st.finalWeight case Some(v) => Some(Times(w, v)) case None => None, ScaleTrs(st.trs, w))
  }

  function ScaleTrs(trs: seq<Tr<Weight>>, w: Weight): (r: seq<Tr<Weight>>)
    ensures |r| == |trs| && forall i :: 0 <= i < |trs| ==> r[i] == trs[i].(weight := Times(w, trs[i].weight))
  {
    seq(|trs|, i requires 0 <= i < |trs| => trs[i].(weight := Times(w, trs[i].weight)))
  }

  function Scale(f: Fst<Weight>, s: nat, w: Weight): Fst<Weight>
    requires s < |f.states|
  {
    f.(states := f.states[s := ScaleState(f.states[s], w)])
  }

  /** A new start state with one arc, of weight `w`, to the old one. */
  function NewStart(f: Fst<Weight>, s: nat, w: Weight): Fst<Weight> {
    Fst(f.states + [State(None, [Tr(EPS_LABEL, EPS_LABEL, w, s)])], Some(|f.states|))
  }

  function StartFactor(ty: ReweightType, v: Weight): Weight
    requires v.Fin?
  {
    match ty case ReweightToInitial => v case ReweightToFinal => Divide(ONE, v)
  }

  /** The whole effect of `reweight`. */
  function Reweighted(f: Fst<Weight>, pot: seq<Weight>, ty: ReweightType, initialAcyclic: bool): Fst<Weight>
    requires f.start.Some? ==> f.start.value < |f.states|
  {
    var g := Shift(f, pot, ty);
    if f.start.None? then g
    else
      var s := f.start.value;
      var v := At(pot, s);
      if v == ONE || v == ZERO then g
      else if initialAcyclic then Scale(g, s, StartFactor(ty, v))
      else NewStart(g, s, StartFactor(ty, v))
  }

  // ------------------------------------------------ telescoping

  /** Only weights differ. */
  ghost predicate SameShape(f: Fst<Weight>, g: Fst<Weight>) {
    && |g.states| == |f.states| && g.start == f.start
    && (forall s :: 0 <= s < |f.states| ==>
        |g.states[s].trs| == |f.states[s].trs| && (f.states[s].finalWeight.Some? <==> g.states[s].finalWeight.Some?))
    && forall s, i :: 0 <= s < |f.states| && 0 <= i < |f.states[s].trs| ==>
         g.states[s].trs[i] == f.states[s].trs[i].(weight := g.states[s].trs[i].weight)
  }

  lemma {:induction false} SamePath(f: Fst<Weight>, g: Fst<Weight>, s: nat, p: seq<Edge>, t: nat)
    requires SameShape(f, g)
    ensures IsPath(f, s, p, t) <==> IsPath(g, s, p, t)
    decreases |p|
  {
    if p != [] && IsEdge(f, p[0]) {
      SamePath(f, g, Arc(f, p[0]).nextstate, p[1..], t);
    }
  }

  lemma SameSuccesses(f: Fst<Weight>, g: Fst<Weight>, p: seq<Edge>, t: nat)
    requires SameShape(f, g)
    ensures Successful(f, p, t) <==> Successful(g, p, t)
  {
    if f.start.Some? {
      SamePath(f, g, f.start.value, p, t);
    }
  }

  lemma ShiftShape(f: Fst<Weight>, pot: seq<Weight>, ty: ReweightType)
    ensures SameShape(f, Shift(f, pot, ty))
  {
  }

  /** Every state on the path has a potential. */
  ghost predicate FiniteAlong(pot: seq<Weight>, p: seq<Edge>, t: nat) {
    At(pot, t).Fin? && forall k :: 0 <= k < |p| ==> At(pot, p[k].src).Fin?
  }

  /** The potential as a factor; where there is none, one. */
  function Level(pot: seq<Weight>, s: nat): Weight {
    if At(pot, s).Fin? then At(pot, s) else ONE
  }

  /** An arc that leaves the states with a potential counts that of its source, one that enters them counts
      that of its target against it. */
  function Jump(pot: seq<Weight>, s: nat, t: nat): int {
    var a, b := At(pot, s), At(pot, t);
    if a.Fin? && b.Inf? then a.v else if a.Inf? && b.Fin? then -b.v else 0
  }

  ghost function Jumps(f: Fst<Weight>, pot: seq<Weight>, s: nat, p: seq<Edge>, t: nat): int
    requires IsPath(f, s, p, t)
    decreases |p|
  {
    if p == [] then 0
    else Jump(pot, s, Arc(f, p[0]).nextstate) + Jumps(f, pot, Arc(f, p[0]).nextstate, p[1..], t)
  }

  /** What reweighting does to one arc, whatever the potentials. */
  predicate ArcLaw(pot: seq<Weight>, ty: ReweightType, s: nat, t: nat, was: Weight, now: Weight) {
    var a, b := At(pot, s), At(pot, t);
    if a == ZERO || b == ZERO then now == was
    else match ty
      case ReweightToInitial => Times(a, now) == Times(was, b)
      case ReweightToFinal => Times(now, b) == Times(a, was)
  }

  predicate FinalLaw(pot: seq<Weight>, ty: ReweightType, s: nat, was: Weight, now: Weight) {
    match ty
    case ReweightToInitial => if At(pot, s) == ZERO then now == was else Times(At(pot, s), now) == was
    case ReweightToFinal => if At(pot, s) == ZERO then now == ZERO else now == Times(was, At(pot, s))
  }

  lemma NewWeightLaw(pot: seq<Weight>, ty: ReweightType, s: nat, tr: Tr<Weight>)
    ensures ArcLaw(pot, ty, s, tr.nextstate, tr.weight, NewWeight(pot, ty, s, tr))
  {
  }

  lemma NewFinalLaw(pot: seq<Weight>, ty: ReweightType, s: nat, w: Weight)
    ensures FinalLaw(pot, ty, s, w, NewFinal(pot, ty, s, w))
  {
  }

  /** The law of one arc in terms of levels and jumps. */
  lemma ArcLevels(pot: seq<Weight>, ty: ReweightType, s: nat, t: nat, was: Weight, now: Weight)
    requires ArcLaw(pot, ty, s, t, was, now)
    ensures match ty
            case ReweightToInitial =>
               Times(Level(pot, s), now) == Times(Times(was, Level(pot, t)), Fin(Jump(pot, s, t)))
            case ReweightToFinal => Times(now, Level(pot, t)) == Times(Times(Level(pot, s), was), Fin(-Jump(pot, s, t)))
  {
  }

  /** Along a path the potentials cancel, but for those at its ends and where it leaves or enters the states that
      have one. */
  lemma {:induction false} Telescopes(f: Fst<Weight>, pot: seq<Weight>, ty: ReweightType, s: nat, p: seq<Edge>, t: nat)
    requires IsPath(f, s, p, t)
    ensures IsPath(Shift(f, pot, ty), s, p, t)
    ensures var c, j := Cost(Shift(f, pot, ty), s, p, t), Jumps(f, pot, s, p, t);
            match ty
            case ReweightToInitial => Times(Level(pot, s), c) == Times(Times(Cost(f, s, p, t), Level(pot, t)), Fin(j))
            case ReweightToFinal => Times(c, Level(pot, t)) == Times(Times(Level(pot, s), Cost(f, s, p, t)), Fin(-j))
    decreases |p|
  {
    hide Shift, NewTr, ArcLaw, Level, Jump;
    var g := Shift(f, pot, ty);
    ShiftShape(f, pot, ty);
    SamePath(f, g, s, p, t);
    LevelFinite(pot, s);
    LevelFinite(pot, t);
    if p != [] {
      var n := Arc(f, p[0]).nextstate;
      LevelFinite(pot, n);
      Telescopes(f, pot, ty, n, p[1..], t);
      ShiftedArc(f, pot, ty, p[0]);
      ArcLevels(pot, ty, s, n, Arc(f, p[0]).weight, Arc(g, p[0]).weight);
      LevelsMeet(ty, Level(pot, s), Arc(g, p[0]).weight, Arc(f, p[0]).weight, Level(pot, n), Cost(g, n, p[1..], t),
                 Cost(f, n, p[1..], t), Level(pot, t), Jump(pot, s, n), Jumps(f, pot, n, p[1..], t));
    }
  }

  lemma LevelFinite(pot: seq<Weight>, s: nat)
    ensures Level(pot, s).Fin?
  {
  }

  lemma ShiftedArc(f: Fst<Weight>, pot: seq<Weight>, ty: ReweightType, e: Edge)
    requires IsEdge(f, e)
    ensures IsEdge(Shift(f, pot, ty), e)
    ensures Arc(Shift(f, pot, ty), e) == Arc(f, e).(weight := Arc(Shift(f, pot, ty), e).weight)
    ensures ArcLaw(pot, ty, e.src, Arc(f, e).nextstate, Arc(f, e).weight, Arc(Shift(f, pot, ty), e).weight)
  {
    hide ArcLaw;
    NewWeightLaw(pot, ty, e.src, Arc(f, e));
    assert Arc(Shift(f, pot, ty), e) == NewTr(pot, ty, e.src, Arc(f, e));
  }

  lemma LevelsMeet(ty: ReweightType, a: Weight, now: Weight, was: Weight, b: Weight, rest: Weight, rest0: Weight,
                   c: Weight, j: int, k: int)
    requires a.Fin? && b.Fin? && c.Fin?
    requires match ty
             case ReweightToInitial => Times(a, now) == Times(Times(was, b), Fin(j))
                                       && Times(b, rest) == Times(Times(rest0, c), Fin(k))
             case ReweightToFinal => Times(now, b) == Times(Times(a, was), Fin(-j))
                                     && Times(rest, c) == Times(Times(b, rest0), Fin(-k))
    ensures match ty
            case ReweightToInitial => Times(a, Times(now, rest)) == Times(Times(Times(was, rest0), c), Fin(j + k))
            case ReweightToFinal => Times(Times(now, rest), c) == Times(Times(a, Times(was, rest0)), Fin(-(j + k)))
  {
  }

  /** The potentials are there wherever a finite weight passes. */
  ghost predicate Covers(f: Fst<Weight>, pot: seq<Weight>) {
    forall p, t :: Successful(f, p, t) && Total(f, p, t) != ZERO ==> FiniteAlong(pot, p, t)
  }

  /** What the start potential still has to make up for. */
  function StartDebt(f: Fst<Weight>, pot: seq<Weight>, ty: ReweightType): Weight {
    if f.start.Some? && At(pot, f.start.value).Fin? then StartFactor(ty, At(pot, f.start.value)) else ONE
  }

  /** What a successful path weighs afterwards, whatever the potentials. */
  ghost function Carried(f: Fst<Weight>, pot: seq<Weight>, ty: ReweightType, p: seq<Edge>, t: nat): Weight
    requires Successful(f, p, t)
  {
    var j := Jumps(f, pot, f.start.value, p, t);
    match ty
    case ReweightToInitial => Times(Fin(j), Total(f, p, t))
    case ReweightToFinal => if At(pot, t) == ZERO then ZERO else Times(Fin(-j), Total(f, p, t))
  }

  lemma ShiftedTotal(f: Fst<Weight>, pot: seq<Weight>, ty: ReweightType, p: seq<Edge>, t: nat)
    requires Successful(f, p, t)
    ensures Successful(Shift(f, pot, ty), p, t)
    ensures Times(StartDebt(f, pot, ty), Total(Shift(f, pot, ty), p, t)) == Carried(f, pot, ty, p, t)
  {
    hide ArcLaw, Cost, Jumps, FinalLaw, NewFinal, SameShape, IsPath;
    var g, s := Shift(f, pot, ty), f.start.value;
    ShiftShape(f, pot, ty);
    SameSuccesses(f, g, p, t);
    Telescopes(f, pot, ty, s, p, t);
    NewFinalLaw(pot, ty, t, f.states[t].finalWeight.value);
    EndsMeet(pot, ty, s, t, Cost(g, s, p, t), Cost(f, s, p, t), FinalWeight(g, t), FinalWeight(f, t),
             Jumps(f, pot, s, p, t));
  }

  lemma EndsMeet(pot: seq<Weight>, ty: ReweightType, s: nat, t: nat, now: Weight, was: Weight, end: Weight,
                 end0: Weight, j: int)
    requires FinalLaw(pot, ty, t, end0, end)
    requires match ty
             case ReweightToInitial => Times(Level(pot, s), now) == Times(Times(was, Level(pot, t)), Fin(j))
             case ReweightToFinal => Times(now, Level(pot, t)) == Times(Times(Level(pot, s), was), Fin(-j))
    ensures Times(if At(pot, s).Fin? then StartFactor(ty, At(pot, s)) else ONE, Times(now, end)) ==
            match ty
            case ReweightToInitial => Times(Fin(j), Times(was, end0))
            case ReweightToFinal => if At(pot, t) == ZERO then ZERO else Times(Fin(-j), Times(was, end0))
  {
  }

  /** Where the potentials are on the whole path there is no jump. */
  lemma {:induction false} NoJumps(f: Fst<Weight>, pot: seq<Weight>, s: nat, p: seq<Edge>, t: nat)
    requires IsPath(f, s, p, t) && FiniteAlong(pot, p, t)
    ensures Jumps(f, pot, s, p, t) == 0 && At(pot, s).Fin?
    decreases |p|
  {
    if p != [] {
      forall k | 0 <= k < |p[1..]| ensures At(pot, p[1..][k].src).Fin? {
        var k' := k + 1;
        assert p[1..][k] == p[k'];
      }
      NoJumps(f, pot, Arc(f, p[0]).nextstate, p[1..], t);
    }
  }

  lemma CoveredMoved(f: Fst<Weight>, pot: seq<Weight>, ty: ReweightType, p: seq<Edge>, t: nat)
    requires Covers(f, pot) && Successful(f, p, t)
    ensures Carried(f, pot, ty, p, t) == Total(f, p, t)
  {
    if Total(f, p, t) != ZERO {
      NoJumps(f, pot, f.start.value, p, t);
    }
  }

  // ------------------------------------------------ the start state

  lemma ScaleShape(f: Fst<Weight>, s: nat, w: Weight)
    requires s < |f.states|
    ensures SameShape(f, Scale(f, s, w))
  {
  }

  /** A path that never comes by `s` is not touched. */
  lemma {:induction false} ScaleElsewhere(f: Fst<Weight>, s: nat, w: Weight, u: nat, p: seq<Edge>, t: nat)
    requires s < |f.states| && IsPath(f, u, p, t) && forall k :: 0 <= k < |p| ==> p[k].src != s
    ensures IsPath(Scale(f, s, w), u, p, t) && Cost(Scale(f, s, w), u, p, t) == Cost(f, u, p, t)
    decreases |p|
  {
    ScaleShape(f, s, w);
    SamePath(f, Scale(f, s, w), u, p, t);
    if p != [] {
      assert forall k :: 0 <= k < |p[1..]| ==> p[1..][k] == p[k+1];
      ScaleElsewhere(f, s, w, Arc(f, p[0]).nextstate, p[1..], t);
    }
  }

  /** Without a cycle through the start state no path returns there. */
  lemma NeverBack(f: Fst<Weight>, p: seq<Edge>, t: nat)
    requires WellFormed(f) && InitialAcyclic(f) && f.start.Some? && IsPath(f, f.start.value, p, t) && p != []
    ensures t != f.start.value && forall k :: 1 <= k < |p| ==> p[k].src != f.start.value
  {
    var s := f.start.value;
    forall k | 1 <= k < |p| ensures p[k].src != s {
      assert p == p[..k] + p[k..];
      var m := PathSplit(f, s, p[..k], p[k..], t);
      assert p[k..][0] == p[k];
    }
  }

  /** Then every successful path takes up the factor exactly once. */
  lemma ScaledTotal(f: Fst<Weight>, w: Weight, p: seq<Edge>, t: nat)
    requires WellFormed(f) && InitialAcyclic(f) && Successful(f, p, t) && f.start.value < |f.states|
    ensures Successful(Scale(f, f.start.value, w), p, t)
    ensures Total(Scale(f, f.start.value, w), p, t) == Times(w, Total(f, p, t))
  {
    var s := f.start.value;
    var g := Scale(f, s, w);
    ScaleShape(f, s, w);
    SameSuccesses(f, g, p, t);
    if p != [] {
      NeverBack(f, p, t);
      assert forall k :: 0 <= k < |p[1..]| ==> p[1..][k] == p[k+1];
      ScaleElsewhere(f, s, w, Arc(f, p[0]).nextstate, p[1..], t);
      assert FinalWeight(g, t) == FinalWeight(f, t);
      assert Arc(g, p[0]).weight == Times(w, Arc(f, p[0]).weight);
    }
  }

  lemma NewStartArcs(f: Fst<Weight>, s: nat, w: Weight)
    requires WellFormed(f) && s < |f.states|
    ensures WellFormed(NewStart(f, s, w)) && ArcsIn(f, NewStart(f, s, w))
    ensures var e := Edge(|f.states|, 0);
        IsEdge(NewStart(f, s, w), e) && Arc(NewStart(f, s, w), e) == Tr(EPS_LABEL, EPS_LABEL, w, s)
    ensures forall e :: IsEdge(NewStart(f, s, w), e) && e.src < |f.states| ==> IsEdge(f, e)
    ensures forall t: nat :: IsFinal(NewStart(f, s, w), t) == IsFinal(f, t)
             && FinalWeight(NewStart(f, s, w), t) == FinalWeight(f, t)
  {
  }

  lemma {:induction false} CostIn(f: Fst<Weight>, g: Fst<Weight>, s: nat, p: seq<Edge>, t: nat)
    requires ArcsIn(f, g) && IsPath(f, s, p, t) && IsPath(g, s, p, t)
    ensures Cost(g, s, p, t) == Cost(f, s, p, t)
    decreases |p|
  {
    if p != [] {
      CostIn(f, g, Arc(f, p[0]).nextstate, p[1..], t);
    }
  }

  lemma {:induction false} OldPath(f: Fst<Weight>, s: nat, w: Weight, u: nat, p: seq<Edge>, t: nat)
    requires WellFormed(f) && s < |f.states| && u < |f.states| && IsPath(NewStart(f, s, w), u, p, t)
    ensures IsPath(f, u, p, t)
    decreases |p|
  {
    NewStartArcs(f, s, w);
    if p != [] {
      assert IsEdge(f, p[0]);
      OldPath(f, s, w, Arc(f, p[0]).nextstate, p[1..], t);
    }
  }

  /** With a new start state every successful path has the new arc in front. */
  lemma NewStartTotal(f: Fst<Weight>, s: nat, w: Weight, p: seq<Edge>, t: nat)
    requires WellFormed(f) && f.start == Some(s) && s < |f.states| && Successful(f, p, t)
    ensures var g, q := NewStart(f, s, w), [Edge(|f.states|, 0)] + p;
            Successful(g, q, t) && Total(g, q, t) == Times(w, Total(f, p, t))
  {
    var g, e := NewStart(f, s, w), Edge(|f.states|, 0);
    NewStartArcs(f, s, w);
    PathIn(f, g, s, p, t);
    CostIn(f, g, s, p, t);
    assert ([e] + p)[1..] == p;
  }

  lemma NewStartOnly(f: Fst<Weight>, s: nat, w: Weight, q: seq<Edge>, t: nat)
    requires WellFormed(f) && f.start == Some(s) && s < |f.states| && Successful(NewStart(f, s, w), q, t)
    ensures q != [] && q == [Edge(|f.states|, 0)] + q[1..] && Successful(f, q[1..], t)
  {
    NewStartArcs(f, s, w);
    OldPath(f, s, w, s, q[1..], t);
  }

  // ------------------------------------------------ every path keeps its weight

  /** The path of `g` that `p` has become: the same arcs, after the arc of a new start state if there is one. */
  function Lifted(f: Fst<Weight>, g: Fst<Weight>, p: seq<Edge>): seq<Edge> {
    if g.start == f.start then p else [Edge(|f.states|, 0)] + p
  }

  /** Each successful path of `f` has become one of `g`, times `w`, with the labels of its arcs; and `g` has
      no other. */
  ghost predicate PathsTimes(f: Fst<Weight>, g: Fst<Weight>, w: Weight) {
    && (forall p, t :: Successful(f, p, t) ==> PathTimes(f, g, w, p, t))
    && (forall q, t :: Successful(g, q, t) ==> LiftedFrom(f, g, q, t))
    && (forall e :: IsEdge(f, e) ==> IsEdge(g, e) && Arc(g, e) == Arc(f, e).(weight := Arc(g, e).weight))
    && (g.start != f.start ==> IsEdge(g, Edge(|f.states|, 0)) && Arc(g, Edge(|f.states|, 0)).ilabel == Arc(g,
             Edge(|f.states|, 0)).olabel == EPS_LABEL)
  }

  ghost predicate PathTimes(f: Fst<Weight>, g: Fst<Weight>, w: Weight, p: seq<Edge>, t: nat)
    requires Successful(f, p, t)
  {
    Successful(g, Lifted(f, g, p), t) && Total(g, Lifted(f, g, p), t) == Times(w, Total(f, p, t))
  }

  ghost predicate LiftedFrom(f: Fst<Weight>, g: Fst<Weight>, q: seq<Edge>, t: nat) {
    exists p :: Successful(f, p, t) && q == Lifted(f, g, p)
  }

  lemma ShapeWellFormed(f: Fst<Weight>, g: Fst<Weight>)
    requires SameShape(f, g) && WellFormed(f)
    ensures WellFormed(g)
  {
  }

  lemma ShapeInitial(f: Fst<Weight>, g: Fst<Weight>)
    requires SameShape(f, g) && InitialAcyclic(f)
    ensures InitialAcyclic(g)
  {
    if g.start.Some? {
      forall p | p != [] ensures !IsPath(g, g.start.value, p, g.start.value) {
        SamePath(f, g, g.start.value, p, g.start.value);
      }
    }
  }

  lemma ShapeEdges(f: Fst<Weight>, g: Fst<Weight>)
    requires SameShape(f, g)
    ensures forall e :: IsEdge(f, e) ==> IsEdge(g, e) && Arc(g, e) == Arc(f, e).(weight := Arc(g, e).weight)
  {
  }

  /** Machines of one shape, their totals related path by path. */
  lemma ShapeTimes(f: Fst<Weight>, g: Fst<Weight>, w: Weight)
    requires SameShape(f, g) &&
         forall p, t :: Successful(f, p, t) ==> Successful(g, p, t) && Total(g, p, t) == Times(w, Total(f, p, t))
    ensures PathsTimes(f, g, w)
  {
    hide SameShape, Successful, Total;
    ShapeEdges(f, g);
    ShapeStart(f, g);
    forall q, t: nat | Successful(g, q, t) ensures LiftedFrom(f, g, q, t) {
      SameSuccesses(f, g, q, t);
      assert q == Lifted(f, g, q);
    }
  }

  lemma ShapeStart(f: Fst<Weight>, g: Fst<Weight>)
    requires SameShape(f, g)
    ensures g.start == f.start && |g.states| == |f.states|
  {
  }

  /** A new start state in front of a machine of the same shape. */
  lemma NewStartTimes(f: Fst<Weight>, g: Fst<Weight>, s: nat, w: Weight)
    requires WellFormed(f) && f.start == Some(s) && SameShape(f, g) && WellFormed(g)
    requires forall p, t :: Successful(f, p, t) ==> Successful(g, p, t) && Times(w, Total(g, p, t)) == Total(f, p, t)
    ensures PathsTimes(f, NewStart(g, s, w), ONE)
  {
    var h := NewStart(g, s, w);
    NewStartArcs(g, s, w);
    ShapeEdges(f, g);
    ShapeStart(f, g);
    hide SameShape, IsPath, Cost;
    forall p, t: nat | Successful(f, p, t) ensures PathTimes(f, h, ONE, p, t) {
      NewStartTotal(g, s, w, p, t);
    }
    forall q, t: nat | Successful(h, q, t) ensures LiftedFrom(f, h, q, t) {
      NewStartOnly(g, s, w, q, t);
      SameSuccesses(f, g, q[1..], t);
      assert q == Lifted(f, h, q[1..]);
    }
    forall e | IsEdge(f, e) ensures IsEdge(h, e) && Arc(h, e) == Arc(f, e).(weight := Arc(h, e).weight) {
      assert Arc(h, e) == Arc(g, e);
    }
  }

  /** The theorem: potentials that cover every finite path leave the weight of every successful path as it was. */
  lemma ReweightedPaths(f: Fst<Weight>, pot: seq<Weight>, ty: ReweightType, initialAcyclic: bool)
    requires WellFormed(f) && Covers(f, pot) && (initialAcyclic <==> InitialAcyclic(f))
    ensures PathsTimes(f, Reweighted(f, pot, ty, initialAcyclic), ONE)
  {
    hide Covers, Successful, Total, PathsTimes, InitialAcyclic, SameShape, Scale, NewStart, Carried;
    var g := Shift(f, pot, ty);
    ShiftShape(f, pot, ty);
    forall p, t: nat | Successful(f, p, t)
      ensures Successful(g, p, t) && Times(StartDebt(f, pot, ty), Total(g, p, t)) == Total(f, p, t)
    {
      ShiftedTotal(f, pot, ty, p, t);
      CoveredMoved(f, pot, ty, p, t);
    }
    if f.start.None? || At(pot, f.start.value) == ONE || At(pot, f.start.value) == ZERO {
      ShapeTimes(f, g, ONE);
    } else {
      var s, w := f.start.value, StartDebt(f, pot, ty);
      ShapeWellFormed(f, g);
      if initialAcyclic {
        ScaledShift(f, g, s, w);
      } else {
        NewStartTimes(f, g, s, w);
      }
    }
  }

  /** With any potentials: the weight of a path afterwards. */
  lemma ReweightedTotal(f: Fst<Weight>, pot: seq<Weight>, ty: ReweightType, initialAcyclic: bool, p: seq<Edge>, t: nat)
    requires WellFormed(f) && Successful(f, p, t) && (initialAcyclic <==> InitialAcyclic(f))
    ensures var g := Reweighted(f, pot, ty, initialAcyclic);
            Successful(g, Lifted(f, g, p), t) && Total(g, Lifted(f, g, p), t) == Carried(f, pot, ty, p, t)
  {
    hide Successful, Total, InitialAcyclic, SameShape, Scale, Carried, WellFormed;
    var g := Shift(f, pot, ty);
    ShiftShape(f, pot, ty);
    ShiftedTotal(f, pot, ty, p, t);
    StartBelow(f, p, t);
    var s, w := f.start.value, StartDebt(f, pot, ty);
    ShapeWellFormed(f, g);
    if At(pot, s) != ONE && At(pot, s) != ZERO {
      if initialAcyclic {
        ShapeInitial(f, g);
        ScaledTotal(g, w, p, t);
        ScaleStart(g, s, w);
      } else {
        NewStartTotal(g, s, w, p, t);
      }
    } else {
      OneTimes(Total(g, p, t));
    }
  }

  lemma OneTimes(w: Weight)
    ensures Times(ONE, w) == w
  {
  }

  lemma ScaleStart(g: Fst<Weight>, s: nat, w: Weight)
    requires s < |g.states|
    ensures Scale(g, s, w).start == g.start
  {
  }

  lemma StartBelow(f: Fst<Weight>, p: seq<Edge>, t: nat)
    requires WellFormed(f) && Successful(f, p, t)
    ensures f.start.Some? && f.start.value < |f.states|
  {
  }

  // ------------------------------------------------ every arc and every final weight

  /** What an arc of the start state, or its final weight, is multiplied with besides. */
  function Extra(f: Fst<Weight>, pot: seq<Weight>, ty: ReweightType, initialAcyclic: bool, s: nat): (x: Weight)
    ensures x.Fin?
  {
    if f.start == Some(s) && initialAcyclic && At(pot, s).Fin? then StartFactor(ty, At(pot, s)) else ONE
  }

  predicate NeedsStart(f: Fst<Weight>, pot: seq<Weight>, initialAcyclic: bool) {
    f.start.Some? && !initialAcyclic && At(pot, f.start.value) != ONE && At(pot, f.start.value) != ZERO
  }

  /** Labels, targets and order of the arcs are as before; each weight follows its law, apart from the extra factor;
      a new start state comes last and has one silent arc. */
  ghost predicate Reshaped(f: Fst<Weight>, pot: seq<Weight>, ty: ReweightType, initialAcyclic: bool, g: Fst<Weight>) {
    && |g.states| == |f.states| + (if NeedsStart(f, pot, initialAcyclic) then 1 else 0)
    && (if NeedsStart(f, pot, initialAcyclic) then
          && g.start == Some(|f.states|)
          && g.states[|f.states|] ==
             State(None, [Tr(EPS_LABEL, EPS_LABEL, StartFactor(ty, At(pot, f.start.value)), f.start.value)])
        else g.start == f.start)
    && forall s: nat :: s < |f.states| ==> StateLaw(f, pot, ty, initialAcyclic, g, s)
  }

  ghost predicate StateLaw(f: Fst<Weight>, pot: seq<Weight>, ty: ReweightType, initialAcyclic: bool, g: Fst<Weight>,
                           s: nat)
    requires s < |f.states| <= |g.states|
  {
    var was, now, x := f.states[s], g.states[s], Extra(f, pot, ty, initialAcyclic, s);
    && |now.trs| == |was.trs|
    && (forall i :: 0 <= i < |was.trs| ==>
          && now.trs[i] == was.trs[i].(weight := now.trs[i].weight)
          && ArcLaw(pot, ty, s, was.trs[i].nextstate, was.trs[i].weight, Divide(now.trs[i].weight, x)))
    && (now.finalWeight.Some? <==> was.finalWeight.Some?)
    && (was.finalWeight.Some? ==> FinalLaw(pot, ty, s, was.finalWeight.value, Divide(now.finalWeight.value, x)))
  }

  lemma ShiftLaw(f: Fst<Weight>, pot: seq<Weight>, ty: ReweightType, s: nat)
    requires s < |f.states|
    ensures var was, now := f.states[s], Shift(f, pot, ty).states[s];
            && |now.trs| == |was.trs|
            && (forall i :: 0 <= i < |was.trs| ==>
                  && now.trs[i] == was.trs[i].(weight := now.trs[i].weight)
                  && ArcLaw(pot, ty, s, was.trs[i].nextstate, was.trs[i].weight, now.trs[i].weight))
            && (now.finalWeight.Some? <==> was.finalWeight.Some?)
            && (was.finalWeight.Some? ==> FinalLaw(pot, ty, s, was.finalWeight.value, now.finalWeight.value))
  {
    hide ArcLaw, FinalLaw, NewWeight, NewFinal;
    forall i | 0 <= i < |f.states[s].trs|
      ensures ArcLaw(pot, ty, s, f.states[s].trs[i].nextstate, f.states[s].trs[i].weight,
                     NewWeight(pot, ty, s, f.states[s].trs[i]))
    {
      NewWeightLaw(pot, ty, s, f.states[s].trs[i]);
    }
    if f.states[s].finalWeight.Some? {
      NewFinalLaw(pot, ty, s, f.states[s].finalWeight.value);
    }
  }

  lemma DivideBack(x: Weight, w: Weight)
    requires x.Fin?
    ensures Divide(Times(x, w), x) == w && Divide(w, ONE) == w
  {
  }

  /** The machine after reweighting, pinned arc by arc for all potentials. */
  lemma ReweightedLaws(f: Fst<Weight>, pot: seq<Weight>, ty: ReweightType, initialAcyclic: bool)
    requires WellFormed(f)
    ensures Reshaped(f, pot, ty, initialAcyclic, Reweighted(f, pot, ty, initialAcyclic))
  {
    var g := Reweighted(f, pot, ty, initialAcyclic);
    hide ArcLaw, FinalLaw, Shift, NewState, StateLaw, WellFormed;
    StartFits(f);
    forall s: nat | s < |f.states| ensures StateLaw(f, pot, ty, initialAcyclic, g, s) {
      ReweightedState(f, pot, ty, initialAcyclic, s);
    }
  }

  lemma StartFits(f: Fst<Weight>)
    requires WellFormed(f)
    ensures f.start.Some? ==> f.start.value < |f.states|
  {
  }

  lemma ReweightedState(f: Fst<Weight>, pot: seq<Weight>, ty: ReweightType, initialAcyclic: bool, s: nat)
    requires s < |f.states| && (f.start.Some? ==> f.start.value < |f.states|)
    ensures |f.states| <= |Reweighted(f, pot, ty, initialAcyclic).states|
    ensures StateLaw(f, pot, ty, initialAcyclic, Reweighted(f, pot, ty, initialAcyclic), s)
  {
    hide ArcLaw, FinalLaw, Shift, NewState;
    ShiftLaw(f, pot, ty, s);
    var st, x := Shift(f, pot, ty).states[s], Extra(f, pot, ty, initialAcyclic, s);
    forall i | 0 <= i < |st.trs|
      ensures Divide(Times(x, st.trs[i].weight), x) == st.trs[i].weight
      ensures Divide(st.trs[i].weight, ONE) == st.trs[i].weight {
      DivideBack(x, st.trs[i].weight);
    }
    if st.finalWeight.Some? {
      DivideBack(x, st.finalWeight.value);
    }
  }

  lemma ScaledShift(f: Fst<Weight>, g: Fst<Weight>, s: nat, w: Weight)
    requires WellFormed(f) && WellFormed(g) && SameShape(f, g) && InitialAcyclic(f) && f.start == Some(s)
    requires forall p, t :: Successful(f, p, t) ==> Successful(g, p, t) && Times(w, Total(g, p, t)) == Total(f, p, t)
    ensures s < |g.states| && PathsTimes(f, Scale(g, s, w), ONE)
  {
    ShapeStart(f, g);
    ShapeInitial(f, g);
    ScaleShape(g, s, w);
    ShapeTrans(f, g, Scale(g, s, w));
    hide SameShape, Successful, Total, Scale;
    forall p, t: nat | Successful(f, p, t)
      ensures Successful(Scale(g, s, w), p, t) && Total(Scale(g, s, w), p, t) == Times(ONE, Total(f, p, t)) {
      ScaledTotal(g, w, p, t);
    }
    ShapeTimes(f, Scale(g, s, w), ONE);
  }

  lemma ShapeTrans(f: Fst<Weight>, g: Fst<Weight>, h: Fst<Weight>)
    requires SameShape(f, g) && SameShape(g, h)
    ensures SameShape(f, h)
  {
  }

  // ------------------------------------------------ the loops

  const WEIGHT_INVARIANT_PROPERTIES: set<Property> :=
    LABEL_PROPERTIES + {CYCLIC, ACYCLIC, INITIAL_CYCLIC, INITIAL_ACYCLIC, TOP_SORTED, NOT_TOP_SORTED, ACCESSIBLE,
                        NOT_ACCESSIBLE,
                        COACCESSIBLE, NOT_COACCESSIBLE, STRING, NOT_STRING}

  function ReweightProperties(inprops: set<Property>): set<Property> {
    inprops * WEIGHT_INVARIANT_PROPERTIES - {COACCESSIBLE}
  }

  /** A machine whose bits are true. */
  ghost predicate BitsSound(fst: VectorFst)
    reads fst
  {
    WellFormed(fst.Value()) && BitsTrue(fst.Value(), fst.properties)
  }

  /** `set_weight_unchecked` on one arc. */
  method PutWeight(fst: VectorFst, s: nat, i: nat, w: Weight)
    requires BitsSound(fst) && HasArc(fst.Value(), s, i)
    modifies fst
    ensures BitsSound(fst) && fst.start == old(fst.start)
            && fst.states == old(ReplaceTr(fst.states, s, i, fst.states[s].trs[i].(weight := w)))
  {
    hide BitsTrue, SetWeightProperties;
    SetWeightKeeps(fst.Value(), s, i, w, fst.properties);
    ArcWellFormed(fst.Value(), s, i, fst.states[s].trs[i].(weight := w));
    fst.SetWeight(s, i, w);
  }

  method PutFinal(fst: VectorFst, s: nat, w: Weight)
    requires BitsSound(fst) && s < |fst.states|
    modifies fst
    ensures BitsSound(fst) && fst.start == old(fst.start)
            && fst.states == old(fst.states)[s := old(fst.states)[s].(finalWeight := Some(w))]
  {
    hide BitsTrue, SetFinalProperties;
    SetFinalKeeps(fst.Value(), s, Some(w), fst.properties);
    fst.SetFinal(s, Some(w));
  }

  /** The first `i` arcs of a state have become those of `all`. */
  predicate Mixed(was: State<Weight>, now: State<Weight>, all: seq<Tr<Weight>>, i: nat) {
    && i <= |all| == |was.trs| == |now.trs| && now.finalWeight == was.finalWeight
    && forall j :: 0 <= j < |all| ==> now.trs[j] == if j < i then all[j] else was.trs[j]
  }

  lemma MixedStep(was: State<Weight>, now: State<Weight>, all: seq<Tr<Weight>>, i: nat)
    requires Mixed(was, now, all, i) && i < |all|
    ensures now.trs[i] == was.trs[i] && Mixed(was, now.(trs := now.trs[i := all[i]]), all, i + 1)
    ensures all[i] == was.trs[i] ==> Mixed(was, now, all, i + 1)
  {
  }

  lemma MixedDone(was: State<Weight>, now: State<Weight>, all: seq<Tr<Weight>>)
    requires Mixed(was, now, all, |all|)
    ensures now == was.(trs := all)
  {
    assert now.trs == all;
  }

  method ReweightTrs(fst: VectorFst, s: nat, pot: seq<Weight>, ty: ReweightType)
    requires BitsSound(fst) && s < |fst.states| && At(pot, s) != ZERO
    modifies fst
    ensures BitsSound(fst) && fst.start == old(fst.start)
    ensures fst.states == old(fst.states)[s := old(fst.states)[s].(trs := NewTrs(pot, ty, s, old(fst.states)[s].trs))]
  {
    hide BitsSound, Mixed;
    ghost var was := fst.states[s];
    ghost var all := NewTrs(pot, ty, s, was.trs);
    MixedNone(was, all);
    var n := |fst.states[s].trs|;
    for i := 0 to n
      invariant BitsSound(fst) && fst.start == old(fst.start) && |fst.states| == |old(fst.states)|
      invariant fst.states == old(fst.states)[s := fst.states[s]] && Mixed(was, fst.states[s], all, i)
                && |fst.states[s].trs| == n
    {
      MixedStep(was, fst.states[s], all, i);
      var tr := fst.states[s].trs[i];
      var v, u := At(pot, s), At(pot, tr.nextstate);
      if u != ZERO {
        var weight := match ty
          case ReweightToInitial => Divide(Times(tr.weight, u), v)
          case ReweightToFinal => Divide(Times(v, tr.weight), u);
        PutWeight(fst, s, i, weight);
      }
    }
    MixedDone(was, fst.states[s], all);
  }

  lemma MixedNone(was: State<Weight>, all: seq<Tr<Weight>>)
    requires |all| == |was.trs|
    ensures Mixed(was, was, all, 0)
  {
  }

  /** A state after the first loop. */
  function Halfway(pot: seq<Weight>, ty: ReweightType, s: nat, st: State<Weight>): State<Weight> {
    State(if s >= |pot| && ty == ReweightToFinal && st.finalWeight.Some? then Some(Times(ZERO, st.finalWeight.value))
          else st.finalWeight,
          NewTrs(pot, ty, s, st.trs))
  }

  lemma NothingNew(pot: seq<Weight>, ty: ReweightType, s: nat, trs: seq<Tr<Weight>>)
    requires At(pot, s) == ZERO
    ensures NewTrs(pot, ty, s, trs) == trs
  {
  }

  method FirstLoop(fst: VectorFst, pot: seq<Weight>, ty: ReweightType)
    requires BitsSound(fst)
    modifies fst
    ensures BitsSound(fst) && fst.start == old(fst.start) && |fst.states| == |old(fst.states)|
    ensures forall r :: 0 <= r < |fst.states| ==> fst.states[r] == Halfway(pot, ty, r, old(fst.states)[r])
  {
    hide BitsSound, NewTrs;
    for s := 0 to |fst.states|
      invariant BitsSound(fst) && fst.start == old(fst.start) && |fst.states| == |old(fst.states)|
      invariant forall r :: 0 <= r < |fst.states| ==> fst.states[r] == if r < s
                then Halfway(pot, ty, r, old(fst.states)[r]) else old(fst.states)[r]
    {
      if s >= |pot| {
        NothingNew(pot, ty, s, fst.states[s].trs);
        if ty == ReweightToFinal && fst.states[s].finalWeight.Some? {
          PutFinal(fst, s, Times(ZERO, fst.states[s].finalWeight.value));
        }
      } else if pot[s] == ZERO {
        NothingNew(pot, ty, s, fst.states[s].trs);
      } else {
        ReweightTrs(fst, s, pot, ty);
      }
    }
  }

  lemma HalfwayFinal(pot: seq<Weight>, ty: ReweightType, s: nat, st: State<Weight>)
    ensures var h := Halfway(pot, ty, s, st);
            NewState(pot, ty, s, st) == if h.finalWeight.None? then h
                                        else h.(finalWeight := Some(NewFinal(pot, ty, s, h.finalWeight.value)))
  {
  }

  method SecondLoop(fst: VectorFst, pot: seq<Weight>, ty: ReweightType, ghost states0: seq<State<Weight>>)
    requires BitsSound(fst) && |fst.states| == |states0| &&
         forall r :: 0 <= r < |fst.states| ==> fst.states[r] == Halfway(pot, ty, r, states0[r])
    modifies fst
    ensures BitsSound(fst) && fst.start == old(fst.start) && |fst.states| == |states0|
    ensures forall r :: 0 <= r < |fst.states| ==> fst.states[r] == NewState(pot, ty, r, states0[r])
  {
    hide BitsSound, Halfway, NewState, NewFinal;
    for s := 0 to |fst.states|
      invariant BitsSound(fst) && fst.start == old(fst.start) && |fst.states| == |states0|
      invariant forall r :: 0 <= r < |fst.states| ==>
                  fst.states[r] == if r < s then NewState(pot, ty, r, states0[r]) else Halfway(pot, ty, r, states0[r])
    {
      HalfwayFinal(pot, ty, s, states0[s]);
      if fst.states[s].finalWeight.Some? {
        FinalPass(fst, s, pot, ty);
      }
    }
  }

  method FinalPass(fst: VectorFst, s: nat, pot: seq<Weight>, ty: ReweightType)
    requires BitsSound(fst) && s < |fst.states| && fst.states[s].finalWeight.Some?
    modifies fst
    ensures BitsSound(fst) && fst.start == old(fst.start)
    ensures fst.states == old(fst.states)[s := old(fst.states)[s].(finalWeight := Some(NewFinal(pot, ty, s,
        old(fst.states)[s].finalWeight.value)))]
  {
    hide BitsSound;
    var w, v := fst.states[s].finalWeight.value, At(pot, s);
    match ty {
      case ReweightToFinal => PutFinal(fst, s, Times(w, v));
      case ReweightToInitial =>
        if v != ZERO {
          PutFinal(fst, s, Divide(w, v));
        }
    }
  }

  /** Multiplies what leaves `s` by `w` in front. */
  method ScaleInPlace(fst: VectorFst, s: nat, w: Weight)
    requires BitsSound(fst) && s < |fst.states|
    modifies fst
    ensures BitsSound(fst) && fst.Value() == Scale(old(fst.Value()), s, w)
  {
    hide BitsSound, Mixed;
    ghost var was := fst.states[s];
    ghost var all := ScaleTrs(was.trs, w);
    MixedNone(was, all);
    var n := |fst.states[s].trs|;
    for i := 0 to n
      invariant BitsSound(fst) && fst.start == old(fst.start) && |fst.states| == |old(fst.states)|
      invariant fst.states == old(fst.states)[s := fst.states[s]] && Mixed(was, fst.states[s], all, i)
                && |fst.states[s].trs| == n
    {
      MixedStep(was, fst.states[s], all, i);
      PutWeight(fst, s, i, Times(w, fst.states[s].trs[i].weight));
    }
    MixedDone(was, fst.states[s], all);
    if fst.states[s].finalWeight.Some? {
      PutFinal(fst, s, Times(w, fst.states[s].finalWeight.value));
    }
  }

  method AddStart(fst: VectorFst, s: nat, w: Weight)
    requires BitsSound(fst) && s < |fst.states|
    modifies fst
    ensures BitsSound(fst) && fst.Value() == NewStart(old(fst.Value()), s, w)
  {
    hide BitsTrue, AddStateProperties, AddTrProperties, SetStartProperties;
    AddStateKeeps(fst.Value(), fst.properties);
    var n := fst.AddState();
    assert fst.Value() == WithState(old(fst.Value()));
    var tr := Tr(EPS_LABEL, EPS_LABEL, w, s);
    AddTrKeeps(fst.Value(), n, tr, fst.properties);
    ghost var g := fst.Value();
    fst.AddTr(n, tr);
    assert fst.Value() == WithTr(g, n, tr) && [] + [tr] == [tr];
    SetStartKeeps(fst.Value(), n, fst.properties);
    fst.SetStart(n);
    NewStartArcs(old(fst.Value()), s, w);
    assert fst.states == old(fst.states) + [State(None, [tr])];
  }

  /** Reweights in place; whether a cycle passes through the start state is an input. */
  method Reweight(fst: VectorFst, potentials: seq<Weight>, ty: ReweightType, initialAcyclic: bool)
    requires BitsSound(fst) && (initialAcyclic <==> InitialAcyclic(fst.Value()))
    modifies fst
    ensures BitsSound(fst) && fst.Value() == Reweighted(old(fst.Value()), potentials, ty, initialAcyclic)
    ensures WellFormed(old(fst.Value()))
    ensures Reshaped(old(fst.Value()), potentials, ty, initialAcyclic, fst.Value())
  {
    hide BitsTrue, InitialAcyclic, NewState, Scale, NewStart, ReweightProperties, Reshaped;
    ghost var f := fst.Value();
    ReweightedLaws(f, potentials, ty, initialAcyclic);
    if |fst.states| == 0 {
      return;
    }
    FirstLoop(fst, potentials, ty);
    SecondLoop(fst, potentials, ty, f.states);
    assert fst.Value() == Shift(f, potentials, ty);
    if fst.start.Some? {
      var start := fst.start.value;
      var v := At(potentials, start);
      if v != ONE && v != ZERO {
        if initialAcyclic {
          ScaleInPlace(fst, start, StartFactor(ty, v));
        } else {
          AddStart(fst, start, StartFactor(ty, v));
        }
      }
    }
    FewerBits(fst.Value(), fst.properties, ReweightProperties(fst.properties));
    fst.properties := ReweightProperties(fst.properties);
  }

  lemma FewerBits(f: Fst<Weight>, props: set<Property>, less: set<Property>)
    requires BitsTrue(f, props) && less == ReweightProperties(props)
    ensures BitsTrue(f, less)
  {
    hide Holds, WEIGHT_INVARIANT_PROPERTIES;
  }
}
