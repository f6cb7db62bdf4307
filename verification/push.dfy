/** `push_weights`: exact distances as potentials, and the total weight removed on request. */
module Pushes {
  import opened Fsts
  import opened Prunes
  import opened Properties
  import opened PropertyBits
  import opened Relaxations
  import opened Reverses
  import opened Reweights
  import opened ShortestDistances
  import opened VectorFsts
  import opened Weights

  // ------------------------------------------------ the sum of what leaves a state

  function SumTrs(trs: seq<Tr<Weight>>): Weight {
    if trs == [] then ZERO else Plus(SumTrs(trs[..|trs|-1]), trs[|trs|-1].weight)
  }

  function FinalOf(st: State<Weight>): Weight {
    match st.finalWeight case Some(w) => w case None => ZERO
  }

  /** The outgoing arcs and the final weight together. */
  function OutSum(st: State<Weight>): Weight {
    Plus(SumTrs(st.trs), FinalOf(st))
  }

  lemma {:induction false} SumBounds(trs: seq<Tr<Weight>>)
    ensures forall i :: 0 <= i < |trs| ==> Leq(SumTrs(trs), trs[i].weight)
    ensures SumTrs(trs) != ZERO ==> exists i :: 0 <= i < |trs| && trs[i].weight == SumTrs(trs)
  {
    if trs != [] {
      var m := |trs| - 1;
      SumBounds(trs[..m]);
      forall i | 0 <= i < |trs| ensures Leq(SumTrs(trs), trs[i].weight) {
        assert i < m ==> trs[i] == trs[..m][i];
      }
      if SumTrs(trs) != ZERO {
        if SumTrs(trs[..m]) == SumTrs(trs) {
          var i :| 0 <= i < |trs[..m]| && trs[..m][i].weight == SumTrs(trs[..m]);
          assert trs[i].weight == SumTrs(trs);
        } else {
          assert trs[m].weight == SumTrs(trs);
        }
      }
    }
  }

  /** The sum is the least of the weights. */
  lemma OutSumIs(st: State<Weight>, w: Weight)
    requires Leq(w, FinalOf(st)) && forall i :: 0 <= i < |st.trs| ==> Leq(w, st.trs[i].weight)
    requires FinalOf(st) == w || exists i :: 0 <= i < |st.trs| && st.trs[i].weight == w
    ensures OutSum(st) == w
  {
    SumBounds(st.trs);
  }

  lemma {:induction false} ScaleSum(trs: seq<Tr<Weight>>, w: Weight)
    requires w.Fin?
    ensures SumTrs(ScaleTrs(trs, w)) == Times(w, SumTrs(trs))
    decreases |trs|
  {
    if trs != [] {
      var m := |trs| - 1;
      ScaleSum(trs[..m], w);
      assert ScaleTrs(trs, w)[..m] == ScaleTrs(trs[..m], w);
    }
  }

  // ------------------------------------------------ distances as potentials

  /** A completion of finite weight starts in `v`. */
  ghost predicate FiniteFrom(f: Fst<Weight>, v: nat) {
    exists p, t, w :: Completes(f, v, p, t, w) && w != ZERO
  }

  /** A path of finite cost leads from the start state to `v`. */
  ghost predicate FiniteTo(f: Fst<Weight>, v: nat) {
    f.start.Some? && exists p :: IsPath(f, f.start.value, p, v) && Cost(f, f.start.value, p, v) != ZERO
  }

  ghost predicate ToFinals(f: Fst<Weight>, dist: seq<Weight>) {
    forall v: nat :: v < |f.states| ==> IsCompletionDistance(f, v, At(dist, v))
  }

  ghost predicate FromStart(f: Fst<Weight>, dist: seq<Weight>) {
    && (f.start.None? ==> dist == [])
    && (f.start.Some? ==> forall v: nat :: v < |f.states| ==> IsDistance(f, f.start.value, v, At(dist, v)))
  }

  lemma FiniteFromIs(f: Fst<Weight>, v: nat, d: Weight)
    requires IsCompletionDistance(f, v, d)
    ensures FiniteFrom(f, v) <==> d != ZERO
  {
  }

  lemma FiniteToIs(f: Fst<Weight>, v: nat, d: Weight)
    requires f.start.Some? && IsDistance(f, f.start.value, v, d)
    ensures FiniteTo(f, v) <==> d != ZERO
  {
    if d != ZERO {
      assert Witnessed(f, f.start.value, v, d);
    }
  }

  /** The two halves of a successful path of finite weight are finite. */
  lemma HalvesFinite(f: Fst<Weight>, p: seq<Edge>, t: nat, k: nat) returns (m: nat)
    requires WellFormed(f) && Successful(f, p, t) && Total(f, p, t) != ZERO && k <= |p|
    ensures m == (if k < |p| then p[k].src else t) && m < |f.states| && FiniteFrom(f, m) && FiniteTo(f, m)
  {
    var s, a, b := f.start.value, p[..k], p[k..];
    assert p == a + b;
    m := PathSplit(f, s, a, b, t);
    CostConcat(f, s, a, m, b, t);
    assert Completes(f, m, b, t, Times(Cost(f, m, b, t), FinalWeight(f, t)));
    assert k < |p| ==> b[0] == p[k];
    hide Cost;
    assert IsPath(f, s, a, m);
    StateBelow(f, m, b, t);
  }

  lemma {:induction false} StateBelow(f: Fst<Weight>, s: nat, p: seq<Edge>, t: nat)
    requires IsPath(f, s, p, t)
    ensures s < |f.states|
  {
  }

  lemma BackCovers(f: Fst<Weight>, dist: seq<Weight>)
    requires WellFormed(f) && ToFinals(f, dist)
    ensures Covers(f, dist)
  {
    forall p: seq<Edge>, t: nat | Successful(f, p, t) && Total(f, p, t) != ZERO ensures FiniteAlong(dist, p, t) {
      var m := HalvesFinite(f, p, t, |p|);
      FiniteFromIs(f, t, At(dist, t));
      forall k | 0 <= k < |p| ensures At(dist, p[k].src).Fin? {
        var m := HalvesFinite(f, p, t, k);
        FiniteFromIs(f, m, At(dist, m));
      }
    }
  }

  lemma ForthCovers(f: Fst<Weight>, dist: seq<Weight>)
    requires WellFormed(f) && FromStart(f, dist)
    ensures Covers(f, dist)
  {
    forall p: seq<Edge>, t: nat | Successful(f, p, t) && Total(f, p, t) != ZERO ensures FiniteAlong(dist, p, t) {
      var m := HalvesFinite(f, p, t, |p|);
      FiniteToIs(f, t, At(dist, t));
      forall k | 0 <= k < |p| ensures At(dist, p[k].src).Fin? {
        var m := HalvesFinite(f, p, t, k);
        FiniteToIs(f, m, At(dist, m));
      }
    }
  }

  // ------------------------------------------------ towards the initial state

  /** A distance to the final states is at most one arc and the distance of its target. */
  lemma ArcAbove(f: Fst<Weight>, dist: seq<Weight>, s: nat, i: nat)
    requires WellFormed(f) && ToFinals(f, dist) && s < |f.states| && i < |f.states[s].trs|
    ensures var tr := f.states[s].trs[i]; Leq(At(dist, s), Times(tr.weight, At(dist, tr.nextstate)))
  {
    var tr := f.states[s].trs[i];
    assert IsCompletionDistance(f, s, At(dist, s)) && IsCompletionDistance(f, tr.nextstate, At(dist, tr.nextstate));
    if At(dist, tr.nextstate) != ZERO {
      var p, t: nat :| Completes(f, tr.nextstate, p, t, At(dist, tr.nextstate));
      var q := [Edge(s, i)] + p;
      assert q[1..] == p;
      assert Completes(f, s, q, t, Times(tr.weight, At(dist, tr.nextstate)));
    }
  }

  lemma FinalAbove(f: Fst<Weight>, dist: seq<Weight>, s: nat)
    requires ToFinals(f, dist) && s < |f.states|
    ensures Leq(At(dist, s), FinalWeight(f, s))
  {
    assert IsCompletionDistance(f, s, At(dist, s));
    if IsFinal(f, s) {
      assert IsPath(f, s, [], s);
      assert Completes(f, s, [], s, Times(ONE, FinalWeight(f, s)));
    }
  }

  /** And it is reached: by the final weight or by some arc. */
  lemma BestWay(f: Fst<Weight>, dist: seq<Weight>, s: nat) returns (i: nat)
    requires WellFormed(f) && ToFinals(f, dist) && s < |f.states| && At(dist, s) != ZERO
    ensures i <= |f.states[s].trs|
    ensures if i == |f.states[s].trs| then FinalWeight(f, s) == At(dist, s)
            else var tr := f.states[s].trs[i];
                At(dist, tr.nextstate) != ZERO && Times(tr.weight, At(dist, tr.nextstate)) == At(dist, s)
  {
    assert IsCompletionDistance(f, s, At(dist, s));
    var p: seq<Edge>, t: nat :| Completes(f, s, p, t, At(dist, s));
    if p == [] {
      i := |f.states[s].trs|;
    } else {
      i := p[0].pos;
      var tr := f.states[s].trs[i];
      assert IsCompletionDistance(f, tr.nextstate, At(dist, tr.nextstate));
      assert Completes(f, tr.nextstate, p[1..], t, Times(Cost(f, tr.nextstate, p[1..], t), FinalWeight(f, t)));
      ArcAbove(f, dist, s, i);
    }
  }

  /** Once pushed, what leaves a state sums to one. */
  lemma PushedSum(f: Fst<Weight>, dist: seq<Weight>, s: nat)
    requires WellFormed(f) && NonNegativeArcs(f) && ToFinals(f, dist) && s < |f.states| && At(dist, s) != ZERO
    ensures OutSum(Shift(f, dist, ReweightToInitial).states[s]) == ONE
  {
    var st := Shift(f, dist, ReweightToInitial).states[s];
    assert st == NewState(dist, ReweightToInitial, s, f.states[s]);
    forall i | 0 <= i < |st.trs| ensures Leq(ONE, st.trs[i].weight) {
      ArcAbove(f, dist, s, i);
      assert NonNegative(f.states[s].trs[i].weight);
    }
    FinalAbove(f, dist, s);
    var i := BestWay(f, dist, s);
    assert i < |st.trs| ==> st.trs[i].weight == ONE;
    OutSumIs(st, ONE);
  }

  // ------------------------------------------------ towards the final states

  lemma ArcBeyond(f: Fst<Weight>, dist: seq<Weight>, e: Edge)
    requires WellFormed(f) && f.start.Some? && FromStart(f, dist) && IsEdge(f, e)
    ensures Leq(At(dist, Arc(f, e).nextstate), Times(At(dist, e.src), Arc(f, e).weight))
  {
    var s, t := f.start.value, Arc(f, e).nextstate;
    assert IsDistance(f, s, e.src, At(dist, e.src)) && IsDistance(f, s, t, At(dist, t));
    if At(dist, e.src) != ZERO {
      assert Witnessed(f, s, e.src, At(dist, e.src));
      var p :| IsPath(f, s, p, e.src) && Cost(f, s, p, e.src) == At(dist, e.src);
      CostSnoc(f, s, p, e.src, e.pos);
    }
  }

  /** The last arc of a best path to `t`. */
  lemma BestArrival(f: Fst<Weight>, dist: seq<Weight>, t: nat) returns (e: Edge)
    requires WellFormed(f) && f.start.Some? && FromStart(f, dist) && t < |f.states| && At(dist, t) != ZERO
             && f.start != Some(t)
    ensures IsEdge(f, e) && Arc(f, e).nextstate == t && At(dist, e.src) != ZERO
            && Times(At(dist, e.src), Arc(f, e).weight) == At(dist, t)
  {
    var s := f.start.value;
    assert IsDistance(f, s, t, At(dist, t)) && Witnessed(f, s, t, At(dist, t));
    var p :| IsPath(f, s, p, t) && Cost(f, s, p, t) == At(dist, t);
    var k: nat := |p| - 1;
    e := p[k];
    assert p == p[..k] + [e];
    var m := PathSplit(f, s, p[..k], [e], t);
    CostConcat(f, s, p[..k], m, [e], t);
    assert IsDistance(f, s, m, At(dist, m));
    ArcBeyond(f, dist, e);
  }

  lemma StartAtOne(f: Fst<Weight>, dist: seq<Weight>)
    requires WellFormed(f) && f.start.Some? && NonNegativeArcs(f) && FromStart(f, dist)
    ensures At(dist, f.start.value) == ONE
  {
    var s := f.start.value;
    assert IsDistance(f, s, s, At(dist, s)) && IsPath(f, s, [], s);
    assert Witnessed(f, s, s, At(dist, s));
    var p :| IsPath(f, s, p, s) && Cost(f, s, p, s) == At(dist, s);
    CostNonNegative(f, s, p, s);
  }

  lemma NewArcWeight(f: Fst<Weight>, dist: seq<Weight>, g: Fst<Weight>, e: Edge)
    requires WellFormed(f) && f.start.Some? && NonNegativeArcs(f) && FromStart(f, dist) && IsEdge(f, e) && IsEdge(g, e)
    requires Arc(g, e) == NewTr(dist, ReweightToFinal, e.src, Arc(f, e))
    ensures Leq(ONE, Arc(g, e).weight)
  {
    ArcBeyond(f, dist, e);
    assert NonNegative(Arc(f, e).weight);
  }

  /** On the reversed machine what leaves a copy sums to one. */
  lemma ArrivalSum(f: Fst<Weight>, dist: seq<Weight>, g: Fst<Weight>, r: Fst<Weight>, t: nat)
    requires WellFormed(f) && NonNegativeArcs(f) && FromStart(f, dist) && f.start.Some? && t < |f.states|
             && At(dist, t) != ZERO
    requires SameShape(f, g) && WellFormed(g) && IsReverse(g, r)
    requires forall e :: IsEdge(f, e) ==> IsEdge(g, e) && Arc(g, e) == NewTr(dist, ReweightToFinal, e.src, Arc(f, e))
    ensures OutSum(r.states[t+1]) == ONE
  {
    var st := r.states[t+1];
    forall j | 0 <= j < |st.trs| ensures Leq(ONE, st.trs[j].weight) {
      var e := ArcReversed(g, r, t, j);
      assert IsEdge(f, e);
      NewArcWeight(f, dist, g, e);
    }
    if f.start != Some(t) {
      var e := BestArrival(f, dist, t);
      var j := ReversedArc(g, r, e);
      assert st.trs[j].weight == ONE;
    }
    OutSumIs(st, ONE);
  }

  // ------------------------------------------------ the total weight

  /** The sum over the final states of the distance followed by the final weight. */
  function SumFinals(f: Fst<Weight>, dist: seq<Weight>, n: nat): Weight {
    if n == 0 then ZERO else Plus(SumFinals(f, dist, n - 1), Times(At(dist, n - 1), FinalWeight(f, n - 1)))
  }

  lemma {:induction false} SumFinalsBounds(f: Fst<Weight>, dist: seq<Weight>, n: nat)
    ensures forall s: nat :: s < n ==> Leq(SumFinals(f, dist, n), Times(At(dist, s), FinalWeight(f, s)))
    ensures SumFinals(f, dist, n) != ZERO ==>
         exists s: nat :: s < n && Times(At(dist, s), FinalWeight(f, s)) == SumFinals(f, dist, n)
  {
    if n > 0 {
      SumFinalsBounds(f, dist, n - 1);
      var m: nat := n - 1;
      assert SumFinals(f, dist, n) != ZERO ==>
        SumFinals(f, dist, n) == SumFinals(f, dist, m)
          || Times(At(dist, m), FinalWeight(f, m)) == SumFinals(f, dist, n);
    }
  }

  lemma SumIsBest(f: Fst<Weight>, dist: seq<Weight>)
    requires WellFormed(f) && FromStart(f, dist)
    ensures IsBest(f, SumFinals(f, dist, |dist|))
  {
    var b := SumFinals(f, dist, |dist|);
    SumFinalsBounds(f, dist, |dist|);
    forall p, t: nat | Successful(f, p, t) ensures Leq(b, Total(f, p, t)) {
      DistanceBound(f, f.start.value, t, At(dist, t), p);
      LeqTimes(At(dist, t), Cost(f, f.start.value, p, t), FinalWeight(f, t));
      assert t < |dist| ==> Leq(b, Times(At(dist, t), FinalWeight(f, t)));
    }
    if b != ZERO {
      var t: nat :| t < |dist| && Times(At(dist, t), FinalWeight(f, t)) == b;
      assert IsDistance(f, f.start.value, t, At(dist, t)) && Witnessed(f, f.start.value, t, At(dist, t));
      var p :| IsPath(f, f.start.value, p, t) && Cost(f, f.start.value, p, t) == At(dist, t);
      assert Successful(f, p, t);
    }
  }

  method ComputeTotalWeight(f: Fst<Weight>, dist: seq<Weight>, reverse: bool) returns (sum: Weight)
    requires WellFormed(f) && if reverse then ToFinals(f, dist) else FromStart(f, dist)
    ensures IsBest(f, sum)
    ensures reverse ==> sum == if f.start.Some? then At(dist, f.start.value) else ZERO
  {
    hide IsBest, IsDistance, IsCompletionDistance;
    if reverse {
      if f.start.Some? {
        StartIsBest(f, At(dist, f.start.value));
      } else {
        WithoutStart(f);
      }
      return if f.start.Some? then At(dist, f.start.value) else ZERO;
    }
    sum := ZERO;
    for s := 0 to |dist|
      invariant sum == SumFinals(f, dist, s)
    {
      sum := Plus(sum, Times(dist[s], FinalWeight(f, s)));
    }
    SumIsBest(f, dist);
  }

  // ------------------------------------------------ removing it

  function DivideFinals(f: Fst<Weight>, w: Weight): (g: Fst<Weight>)
    requires w.Fin?
    ensures |g.states| == |f.states| && g.start == f.start
    ensures forall s :: 0 <= s < |f.states| ==> g.states[s] == DivideFinal(f.states[s], w)
  {
    Fst(seq(|f.states|, s requires 0 <= s < |f.states| => DivideFinal(f.states[s], w)), f.start)
  }

  function DivideFinal(st: State<Weight>, w: Weight): State<Weight>
    requires w.Fin?
  {
    st.(finalWeight := match st.finalWeight case Some(v) => Some(Divide(v, w)) case None => None)
  }

  function Removed(f: Fst<Weight>, w: Weight, atFinal: bool): Fst<Weight>
    requires f.start.Some? ==> f.start.value < |f.states|
  {
    if w == ONE || w == ZERO then f
    else if atFinal then DivideFinals(f, w)
    else if f.start.Some? then Scale(f, f.start.value, Divide(ONE, w))
    else f
  }

  /** What removing the finite weight `w` does to every arc and final weight; an infinite one is not removed. */
  ghost predicate Unloaded(f: Fst<Weight>, w: Weight, atFinal: bool, g: Fst<Weight>) {
    && |g.states| == |f.states| && g.start == f.start
    && forall s: nat :: s < |f.states| ==> UnloadedState(f, w, atFinal, g, s)
  }

  ghost predicate UnloadedState(f: Fst<Weight>, w: Weight, atFinal: bool, g: Fst<Weight>, s: nat)
    requires s < |f.states| == |g.states|
  {
    var was, now, atStart := f.states[s], g.states[s], w.Fin? && !atFinal && f.start == Some(s);
    && |now.trs| == |was.trs|
    && (forall i :: 0 <= i < |was.trs| ==>
          && now.trs[i] == was.trs[i].(weight := now.trs[i].weight)
          && was.trs[i].weight == if atStart then Times(w, now.trs[i].weight) else now.trs[i].weight)
    && (now.finalWeight.Some? <==> was.finalWeight.Some?)
    && (was.finalWeight.Some? ==>
          was.finalWeight.value ==
          if atStart || (w.Fin? && atFinal) then Times(w, now.finalWeight.value) else now.finalWeight.value)
  }

  lemma RemovedLaw(f: Fst<Weight>, w: Weight, atFinal: bool)
    requires f.start.Some? ==> f.start.value < |f.states|
    ensures Unloaded(f, w, atFinal, Removed(f, w, atFinal))
  {
    var g := Removed(f, w, atFinal);
    forall s: nat | s < |f.states| ensures UnloadedState(f, w, atFinal, g, s) {
    }
  }

  /** Reweighted by the distances to the end pushed to, and then relieved of the best weight if asked for: every arc
      and every final weight, dead ends included. */
  ghost predicate PushLaws(f: Fst<Weight>, ty: ReweightType, initialAcyclic: bool, best: Weight, remove: bool,
                         dist: seq<Weight>, mid: Fst<Weight>, g: Fst<Weight>) {
    && (if ty == ReweightToInitial then ToFinals(f, dist) else FromStart(f, dist))
    && Reshaped(f, dist, ty, initialAcyclic, mid)
    && Unloaded(mid, if remove then best else ONE, ty == ReweightToFinal, g)
  }

  lemma NothingRemoved(f: Fst<Weight>, atFinal: bool)
    ensures Unloaded(f, ONE, atFinal, f)
  {
  }

  method RemoveWeight(fst: VectorFst, weight: Weight, atFinal: bool)
    requires BitsSound(fst)
    modifies fst
    ensures BitsSound(fst) && WellFormed(old(fst.Value())) && fst.Value() == Removed(old(fst.Value()), weight, atFinal)
  {
    hide BitsTrue;
    if weight == ONE || weight == ZERO {
      return;
    }
    if atFinal {
      DivideAll(fst, weight);
    } else if fst.start.Some? {
      ScaleInPlace(fst, fst.start.value, Divide(ONE, weight));
    }
  }

  method DivideAll(fst: VectorFst, w: Weight)
    requires BitsSound(fst) && w.Fin?
    modifies fst
    ensures BitsSound(fst) && fst.Value() == DivideFinals(old(fst.Value()), w)
  {
    hide BitsSound;
    for s := 0 to |fst.states|
      invariant BitsSound(fst) && fst.start == old(fst.start) && |fst.states| == |old(fst.states)|
      invariant forall r :: 0 <= r < |fst.states| ==> fst.states[r] == if r < s then DivideFinal(old(fst.states)[r], w)
                else old(fst.states)[r]
    {
      if fst.states[s].finalWeight.Some? {
        PutFinal(fst, s, Divide(fst.states[s].finalWeight.value, w));
      }
    }
    assert fst.states == DivideFinals(old(fst.Value()), w).states;
  }

  lemma DivideShape(f: Fst<Weight>, w: Weight)
    requires w.Fin?
    ensures SameShape(f, DivideFinals(f, w))
  {
  }

  lemma DividedTotal(f: Fst<Weight>, w: Weight, p: seq<Edge>, t: nat)
    requires w.Fin? && Successful(f, p, t)
    ensures Successful(DivideFinals(f, w), p, t) && Total(DivideFinals(f, w), p, t) == Times(Divide(ONE, w),
        Total(f, p, t))
  {
    var g := DivideFinals(f, w);
    DivideShape(f, w);
    SameSuccesses(f, g, p, t);
    CostIn(f, g, f.start.value, p, t);
  }

  /** A further factor on every path. */
  lemma TimesAgain(f: Fst<Weight>, g: Fst<Weight>, h: Fst<Weight>, w: Weight)
    requires PathsTimes(f, g, ONE) && SameShape(g, h)
    requires forall q, t :: Successful(g, q, t) ==> Successful(h, q, t) && Total(h, q, t) == Times(w, Total(g, q, t))
    ensures PathsTimes(f, h, w)
  {
    ShapeStart(g, h);
    ShapeEdges(g, h);
    hide SameShape, Successful, Total;
    forall p, t: nat | Successful(f, p, t) ensures PathTimes(f, h, w, p, t) {
      assert PathTimes(f, g, ONE, p, t);
      assert Lifted(f, h, p) == Lifted(f, g, p);
    }
    forall q, t: nat | Successful(h, q, t) ensures LiftedFrom(f, h, q, t) {
      SameSuccesses(g, h, q, t);
      assert LiftedFrom(f, g, q, t);
    }
    forall e | IsEdge(f, e) ensures IsEdge(h, e) && Arc(h, e) == Arc(f, e).(weight := Arc(h, e).weight) {
      assert Arc(g, e) == Arc(f, e).(weight := Arc(g, e).weight);
    }
  }

  /** After a reweighting that had to act on the start state no path returns there. */
  lemma ReweightedInitial(f: Fst<Weight>, pot: seq<Weight>, ty: ReweightType, initialAcyclic: bool)
    requires WellFormed(f) && f.start.Some? && (initialAcyclic <==> InitialAcyclic(f))
    requires At(pot, f.start.value) != ONE && At(pot, f.start.value) != ZERO
    ensures var g := Reweighted(f, pot, ty, initialAcyclic);
        WellFormed(g) && InitialAcyclic(g) && g.start.Some? && g.start.value < |g.states|
  {
    hide InitialAcyclic, SameShape;
    var s, g, w := f.start.value, Shift(f, pot, ty), StartFactor(ty, At(pot, f.start.value));
    ShiftShape(f, pot, ty);
    ShapeWellFormed(f, g);
    if initialAcyclic {
      ScaleShape(g, s, w);
      ShapeTrans(f, g, Scale(g, s, w));
      ShapeInitial(f, Scale(g, s, w));
      ShapeWellFormed(f, Scale(g, s, w));
    } else {
      NewStartArcs(g, s, w);
      NewStartInitial(g, s, w);
    }
  }

  lemma NewStartInitial(f: Fst<Weight>, s: nat, w: Weight)
    requires WellFormed(f) && s < |f.states|
    ensures InitialAcyclic(NewStart(f, s, w))
  {
    var g, n := NewStart(f, s, w), |f.states|;
    NewStartArcs(f, s, w);
    forall p | p != [] && IsPath(g, n, p, n) ensures false {
      OldPath(f, s, w, s, p[1..], n);
      LandsBelow(f, s, p[1..], n);
    }
  }

  lemma {:induction false} LandsBelow(f: Fst<Weight>, s: nat, p: seq<Edge>, t: nat)
    requires IsPath(f, s, p, t)
    ensures t < |f.states|
    decreases |p|
  {
    if p != [] {
      LandsBelow(f, Arc(f, p[0]).nextstate, p[1..], t);
    }
  }

  // ------------------------------------------------ pushing

  /** Pushed towards the initial state: what leaves a state sums to one, and what leaves the start state to the
      weight that is left. */
  ghost predicate SumsOut(f: Fst<Weight>, g: Fst<Weight>, left: Weight) {
    && |f.states| <= |g.states|
    && (forall s: nat :: s < |f.states| && FiniteFrom(f, s) && g.start != Some(s) ==> OutSum(g.states[s]) == ONE)
    && (left != ZERO && g.start.Some? && g.start.value < |g.states| ==> OutSum(g.states[g.start.value]) == left)
  }

  /** Pushed towards the final states: the same on the reverse machine, whose state `t + 1` copies `t`. */
  ghost predicate SumsIn(f: Fst<Weight>, g: Fst<Weight>) {
    forall r, t: nat :: IsReverse(g, r) && t < |f.states| && FiniteTo(f, t) && |r.states| > t + 1
      ==> OutSum(r.states[t+1]) == ONE
  }

  /** What is left of the total, and what every path is multiplied with. */
  function Left(best: Weight, remove: bool): Weight {
    if remove && best != ZERO then ONE else best
  }

  function Factor(best: Weight, remove: bool): Weight {
    if remove && best != ZERO then Divide(ONE, best) else ONE
  }

  lemma ShiftedSums(f: Fst<Weight>, dist: seq<Weight>, initialAcyclic: bool)
    requires WellFormed(f) && NonNegativeArcs(f) && ToFinals(f, dist)
    ensures SumsOut(f, Reweighted(f, dist, ReweightToInitial, initialAcyclic), if f.start.Some?
                    then At(dist, f.start.value) else ZERO)
  {
    hide IsCompletionDistance, NewState;
    var g := Shift(f, dist, ReweightToInitial);
    forall s: nat | s < |f.states| ensures FiniteFrom(f, s) <==> At(dist, s) != ZERO {
      FiniteFromIs(f, s, At(dist, s));
    }
    hide FiniteFrom;
    forall s: nat | s < |f.states| && At(dist, s) != ZERO ensures OutSum(g.states[s]) == ONE {
      PushedSum(f, dist, s);
    }
    if f.start.Some? {
      var s, v := f.start.value, At(dist, f.start.value);
      if v != ONE && v != ZERO {
        ScaleSum(g.states[s].trs, v);
        NewStartSum(v, s);
      }
    }
  }

  lemma NewStartSum(v: Weight, s: nat)
    ensures OutSum(State(None, [Tr(EPS_LABEL, EPS_LABEL, v, s)])) == v
  {
    var trs := [Tr(EPS_LABEL, EPS_LABEL, v, s)];
    assert trs[..0] == [] && SumTrs(trs[..0]) == ZERO && SumTrs(trs) == v;
  }

  lemma RemovedSums(f: Fst<Weight>, g: Fst<Weight>, w: Weight)
    requires SumsOut(f, g, w) && w != ONE && w != ZERO && g.start.Some? && g.start.value < |g.states|
    ensures SumsOut(f, Scale(g, g.start.value, Divide(ONE, w)), ONE)
  {
    hide FiniteFrom;
    ScaleSum(g.states[g.start.value].trs, Divide(ONE, w));
  }

  lemma PushedBack(f: Fst<Weight>, dist: seq<Weight>, best: Weight, remove: bool, initialAcyclic: bool)
    requires WellFormed(f) && NonNegativeArcs(f) && ToFinals(f, dist) && (initialAcyclic <==> InitialAcyclic(f))
    requires best == if f.start.Some? then At(dist, f.start.value) else ZERO
    ensures var g := Reweighted(f, dist, ReweightToInitial, initialAcyclic);
            WellFormed(g) ==> var h := if remove then Removed(g, best, false) else g;
                              PathsTimes(f, h, Factor(best, remove)) && SumsOut(f, h, Left(best, remove))
  {
    hide ToFinals, NonNegativeArcs, InitialAcyclic, PathsTimes, SumsOut, Scale, Shift, Successful, Total, SameShape;
    var g := Reweighted(f, dist, ReweightToInitial, initialAcyclic);
    BackCovers(f, dist);
    ReweightedPaths(f, dist, ReweightToInitial, initialAcyclic);
    ShiftedSums(f, dist, initialAcyclic);
    if remove && best != ONE && best != ZERO {
      ReweightedInitial(f, dist, ReweightToInitial, initialAcyclic);
      var s, w := g.start.value, Divide(ONE, best);
      ScaleShape(g, s, w);
      forall q, t: nat | Successful(g, q, t)
        ensures Successful(Scale(g, s, w), q, t) && Total(Scale(g, s, w), q, t) == Times(w, Total(g, q, t)) {
        ScaledTotal(g, w, q, t);
      }
      TimesAgain(f, g, Scale(g, s, w), w);
      RemovedSums(f, g, best);
    }
  }

  lemma PushedForth(f: Fst<Weight>, dist: seq<Weight>, best: Weight, remove: bool, initialAcyclic: bool)
    requires WellFormed(f) && NonNegativeArcs(f) && FromStart(f, dist) && (initialAcyclic <==> InitialAcyclic(f))
    ensures var g := Reweighted(f, dist, ReweightToFinal, initialAcyclic);
            var h := if remove && best != ONE && best != ZERO then DivideFinals(g, best) else g;
            PathsTimes(f, h, Factor(best, remove)) && SumsIn(f, h)
  {
    hide FromStart, NonNegativeArcs, InitialAcyclic, PathsTimes, SumsIn, Successful, Total, SameShape, Shift,
         DivideFinals;
    var g := Reweighted(f, dist, ReweightToFinal, initialAcyclic);
    ForthCovers(f, dist);
    ReweightedPaths(f, dist, ReweightToFinal, initialAcyclic);
    if f.start.Some? {
      StartAtOne(f, dist);
    }
    assert g == Shift(f, dist, ReweightToFinal);
    ShiftShape(f, dist, ReweightToFinal);
    if remove && best != ONE && best != ZERO {
      var h := DivideFinals(g, best);
      DivideShape(g, best);
      forall q, t: nat | Successful(g, q, t)
        ensures Successful(h, q, t) && Total(h, q, t) == Times(Divide(ONE, best), Total(g, q, t)) {
        DividedTotal(g, best, q, t);
      }
      TimesAgain(f, g, h, Divide(ONE, best));
      ShapeTrans(f, g, h);
      DividedArcs(f, dist, best);
      ForthSums(f, dist, h);
    } else {
      ShiftedArcs(f, dist);
      ForthSums(f, dist, g);
    }
  }

  lemma ShiftedArcs(f: Fst<Weight>, dist: seq<Weight>)
    ensures var g := Shift(f, dist, ReweightToFinal);
            forall e :: IsEdge(f, e) ==> IsEdge(g, e) && Arc(g, e) == NewTr(dist, ReweightToFinal, e.src, Arc(f, e))
  {
  }

  lemma DividedArcs(f: Fst<Weight>, dist: seq<Weight>, w: Weight)
    requires w.Fin?
    ensures var g := DivideFinals(Shift(f, dist, ReweightToFinal), w);
            forall e :: IsEdge(f, e) ==> IsEdge(g, e) && Arc(g, e) == NewTr(dist, ReweightToFinal, e.src, Arc(f, e))
  {
    ShiftedArcs(f, dist);
  }

  lemma ForthSums(f: Fst<Weight>, dist: seq<Weight>, g: Fst<Weight>)
    requires WellFormed(f) && NonNegativeArcs(f) && FromStart(f, dist) && SameShape(f, g)
    requires forall e :: IsEdge(f, e) ==> IsEdge(g, e) && Arc(g, e) == NewTr(dist, ReweightToFinal, e.src, Arc(f, e))
    ensures SumsIn(f, g)
  {
    hide NonNegativeArcs, IsDistance, SameShape, IsReverse, NewTr;
    ShapeWellFormed(f, g);
    forall r, t: nat | IsReverse(g, r) && t < |f.states| && FiniteTo(f, t) && |r.states| > t + 1
      ensures OutSum(r.states[t+1]) == ONE {
      FiniteToIs(f, t, At(dist, t));
      ArrivalSum(f, dist, g, r, t);
    }
  }

  /** Pushes in place: every successful path is multiplied by one factor, which removes exactly the best weight or is
      one. */
  method PushWeights(fst: VectorFst, ty: ReweightType, remove: bool, initialAcyclic: bool)
    returns (ghost best: Weight, ghost dist: seq<Weight>, ghost mid: Fst<Weight>)
    requires BitsSound(fst) && NonNegativeArcs(fst.Value())
             && (ty == ReweightToInitial ==> NonNegativeFinals(fst.Value()))
    requires initialAcyclic <==> InitialAcyclic(fst.Value())
    modifies fst
    ensures BitsSound(fst) && IsBest(old(fst.Value()), best)
    ensures PathsTimes(old(fst.Value()), fst.Value(), Factor(best, remove))
    ensures ty == ReweightToInitial ==> SumsOut(old(fst.Value()), fst.Value(), Left(best, remove))
    ensures ty == ReweightToFinal ==> SumsIn(old(fst.Value()), fst.Value())
    ensures PushLaws(old(fst.Value()), ty, initialAcyclic, best, remove, dist, mid, fst.Value())
  {
    hide BitsTrue, NonNegativeArcs, NonNegativeFinals, InitialAcyclic, IsBest, PathsTimes, SumsOut, SumsIn, IsDistance,
         IsCompletionDistance, Reweighted, Scale, DivideFinals, Reshaped, Unloaded;
    ghost var f := fst.Value();
    var distance := ShortestDistance(fst.Value(), ty == ReweightToInitial);
    dist := distance;
    var total := ComputeTotalWeight(fst.Value(), distance, ty == ReweightToInitial);
    best := total;
    Reweight(fst, distance, ty, initialAcyclic);
    mid := fst.Value();
    NothingRemoved(mid, ty == ReweightToFinal);
    if remove {
      RemoveWeight(fst, total, ty == ReweightToFinal);
      RemovedLaw(mid, total, ty == ReweightToFinal);
    }
    if ty == ReweightToInitial {
      PushedBack(f, dist, total, remove, initialAcyclic);
    } else {
      PushedForth(f, dist, total, remove, initialAcyclic);
    }
  }
}
