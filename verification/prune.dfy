/** `prune`: what lies on no path within a threshold of the best one is removed. */
module Prunes {
  import opened Fsts
  import opened Properties
  import opened PropertyBits
  import opened Relaxations
  import opened Reverses
  import opened ShortestDistances
  import opened Trims
  import opened VectorFsts
  import opened Weights

  // ------------------------------------------------ cutting arcs and final weights

  /** For every arc and every state, whether the arc or the final weight goes. */
  datatype Cuts = Cuts(arcs: seq<seq<bool>>, finals: seq<bool>)

  /** `out` has those of the first `i` arcs that are not cut, in order. */
  ghost predicate FilteredTo(cut: seq<bool>, trs: seq<Tr<Weight>>, out: seq<Tr<Weight>>, i: nat)
    requires |cut| == |trs| && i <= |trs|
  {
    && |out| == Rank(cut, i)
    && forall j: nat :: j < i && !cut[j] ==> Rank(cut, j) < |out| && out[Rank(cut, j)] == trs[j]
  }

  ghost predicate Fits(f: Fst<Weight>, c: Cuts) {
    && |c.arcs| == |c.finals| == |f.states|
    && forall s :: 0 <= s < |f.states| ==> |c.arcs[s]| == |f.states[s].trs|
  }

  ghost predicate StateCut(f: Fst<Weight>, c: Cuts, s: nat, state: State<Weight>)
    requires Fits(f, c) && s < |f.states|
  {
    && FilteredTo(c.arcs[s], f.states[s].trs, state.trs, |f.states[s].trs|)
    && state.finalWeight == if c.finals[s] then None else f.states[s].finalWeight
  }

  /** `h` is `f` without what `c` cuts. */
  ghost predicate IsCut(f: Fst<Weight>, c: Cuts, h: Fst<Weight>) {
    && Fits(f, c) && |h.states| == |f.states| && h.start == f.start
    && forall s :: 0 <= s < |f.states| ==> StateCut(f, c, s, h.states[s])
  }

  ghost predicate Uncut(f: Fst<Weight>, c: Cuts, e: Edge)
    requires Fits(f, c)
  {
    IsEdge(f, e) && !c.arcs[e.src][e.pos]
  }

  /** Where an arc that stays is found afterwards. */
  ghost function CutEdge(f: Fst<Weight>, c: Cuts, e: Edge): Edge
    requires Fits(f, c) && Uncut(f, c, e)
  {
    Edge(e.src, Rank(c.arcs[e.src], e.pos))
  }

  ghost function CutPath(f: Fst<Weight>, c: Cuts, p: seq<Edge>): (q: seq<Edge>)
    requires Fits(f, c) && forall k :: 0 <= k < |p| ==> Uncut(f, c, p[k])
    ensures |q| == |p| && forall k :: 0 <= k < |p| ==> q[k] == CutEdge(f, c, p[k])
  {
    if p == [] then []
    else
      assert Uncut(f, c, p[0]);
      [CutEdge(f, c, p[0])] + CutPath(f, c, p[1..])
  }

  lemma CutArc(f: Fst<Weight>, c: Cuts, h: Fst<Weight>, e: Edge)
    requires IsCut(f, c, h) && Uncut(f, c, e)
    ensures IsEdge(h, CutEdge(f, c, e)) && Arc(h, CutEdge(f, c, e)) == Arc(f, e)
  {
    assert StateCut(f, c, e.src, h.states[e.src]);
  }

  lemma ArcUncut(f: Fst<Weight>, c: Cuts, h: Fst<Weight>, d: Edge) returns (e: Edge)
    requires IsCut(f, c, h) && IsEdge(h, d)
    ensures Uncut(f, c, e) && CutEdge(f, c, e) == d && Arc(h, d) == Arc(f, e) && e.src == d.src
  {
    assert StateCut(f, c, d.src, h.states[d.src]);
    var i := Unrank(c.arcs[d.src], d.pos, |c.arcs[d.src]|);
    e := Edge(d.src, i);
    CutArc(f, c, h, e);
  }

  lemma CutWellFormed(f: Fst<Weight>, c: Cuts, h: Fst<Weight>)
    requires WellFormed(f) && IsCut(f, c, h)
    ensures WellFormed(h)
  {
    forall s, i | 0 <= s < |h.states| && 0 <= i < |h.states[s].trs| ensures h.states[s].trs[i].nextstate < |h.states| {
      var e := ArcUncut(f, c, h, Edge(s, i));
    }
  }

  lemma CutEdgeInjective(f: Fst<Weight>, c: Cuts, d: Edge, e: Edge)
    requires Fits(f, c) && Uncut(f, c, d) && Uncut(f, c, e) && CutEdge(f, c, d) == CutEdge(f, c, e)
    ensures d == e
  {
    if d.pos < e.pos {
      RankMonotone(c.arcs[d.src], d.pos, e.pos);
    } else if e.pos < d.pos {
      RankMonotone(c.arcs[d.src], e.pos, d.pos);
    }
  }

  lemma CutPathInjective(f: Fst<Weight>, c: Cuts, p: seq<Edge>, p': seq<Edge>)
    requires Fits(f, c) && (forall k :: 0 <= k < |p| ==> Uncut(f, c, p[k])) &&
         forall k :: 0 <= k < |p'| ==> Uncut(f, c, p'[k])
    requires CutPath(f, c, p) == CutPath(f, c, p')
    ensures p == p'
  {
    hide Fits, Uncut, CutEdge;
    forall k | 0 <= k < |p| ensures p[k] == p'[k] {
      assert CutPath(f, c, p)[k] == CutPath(f, c, p')[k];
      CutEdgeInjective(f, c, p[k], p'[k]);
    }
  }

  /** A path whose arcs all stay is still there, at the same cost. */
  lemma {:induction false} PathKept(f: Fst<Weight>, c: Cuts, h: Fst<Weight>, s: nat, p: seq<Edge>, t: nat)
    requires IsCut(f, c, h) && IsPath(f, s, p, t) && forall k :: 0 <= k < |p| ==> Uncut(f, c, p[k])
    ensures IsPath(h, s, CutPath(f, c, p), t) && Cost(h, s, CutPath(f, c, p), t) == Cost(f, s, p, t)
    ensures SameTrace(f, p, h, CutPath(f, c, p))
    decreases |p|
  {
    if p != [] {
      CutArc(f, c, h, p[0]);
      PathKept(f, c, h, Arc(f, p[0]).nextstate, p[1..], t);
      hide IsCut, Uncut;
      var q, rest := CutPath(f, c, p), CutPath(f, c, p[1..]);
      assert q[1..] == rest;
      forall k | 0 <= k < |p| ensures SameArc(f, p[k], h, q[k]) {
        assert k > 0 ==> p[k] == p[1..][k-1] && q[k] == rest[k-1];
      }
    }
  }

  /** And no other path is. */
  lemma {:induction false} PathWasThere(f: Fst<Weight>, c: Cuts, h: Fst<Weight>, s: nat, q: seq<Edge>, t: nat)
    returns (p: seq<Edge>)
    requires IsCut(f, c, h) && IsPath(h, s, q, t)
    ensures IsPath(f, s, p, t) && (forall k :: 0 <= k < |p| ==> Uncut(f, c, p[k])) && CutPath(f, c, p) == q
    decreases |q|
  {
    if q == [] {
      p := [];
    } else {
      var e := ArcUncut(f, c, h, q[0]);
      var rest := PathWasThere(f, c, h, Arc(h, q[0]).nextstate, q[1..], t);
      p := [e] + rest;
      UncutCons(f, c, e, rest);
      assert p[1..] == rest && q == [q[0]] + q[1..];
    }
  }

  lemma UncutCons(f: Fst<Weight>, c: Cuts, e: Edge, p: seq<Edge>)
    requires Fits(f, c) && Uncut(f, c, e) && forall k :: 0 <= k < |p| ==> Uncut(f, c, p[k])
    ensures forall k :: 0 <= k < |[e] + p| ==> Uncut(f, c, ([e] + p)[k])
    ensures CutPath(f, c, [e] + p) == [CutEdge(f, c, e)] + CutPath(f, c, p)
  {
    hide Uncut, CutEdge;
    assert forall k :: 0 < k < |[e] + p| ==> ([e] + p)[k] == p[k-1];
  }

  // ------------------------------------------------ the cuts `prune` makes

  /** The weight of the best path through an arc. */
  function Through(f: Fst<Weight>, idist: seq<Weight>, fdist: seq<Weight>, e: Edge): Weight
    requires IsEdge(f, e)
  {
    Times(Times(At(idist, e.src), Arc(f, e).weight), At(fdist, Arc(f, e).nextstate))
  }

  /** The weight of the best path that ends in `s`. */
  function Ending(f: Fst<Weight>, idist: seq<Weight>, s: nat): Weight {
    Times(At(idist, s), FinalWeight(f, s))
  }

  ghost predicate Measured(f: Fst<Weight>, idist: seq<Weight>, fdist: seq<Weight>) {
    f.start.Some? && forall v: nat :: v < |f.states| ==>
      IsDistance(f, f.start.value, v, At(idist, v)) && IsCompletionDistance(f, v, At(fdist, v))
  }

  function CutsOf(f: Fst<Weight>, limit: Weight, idist: seq<Weight>, fdist: seq<Weight>): Cuts {
    Cuts(seq(|f.states|, s requires 0 <= s < |f.states| => CutArcs(f, limit, idist, fdist, s)),
         seq(|f.states|, s requires 0 <= s < |f.states| => CutFinal(f, limit, idist, s)))
  }

  function CutArcs(f: Fst<Weight>, limit: Weight, idist: seq<Weight>, fdist: seq<Weight>, s: nat): (cut: seq<bool>)
    requires s < |f.states|
    ensures |cut| == |f.states[s].trs| &&
         forall i :: 0 <= i < |cut| ==> cut[i] == NaturalLess(limit, Through(f, idist, fdist, Edge(s, i)))
  {
    seq(|f.states[s].trs|, i requires 0 <= i < |f.states[s].trs| => NaturalLess(limit,
        Through(f, idist, fdist, Edge(s, i))))
  }

  predicate CutFinal(f: Fst<Weight>, limit: Weight, idist: seq<Weight>, s: nat) {
    IsFinal(f, s) && NaturalLess(limit, Ending(f, idist, s))
  }

  lemma CutsFit(f: Fst<Weight>, limit: Weight, idist: seq<Weight>, fdist: seq<Weight>)
    ensures Fits(f, CutsOf(f, limit, idist, fdist))
    ensures forall e :: IsEdge(f, e) ==> (Uncut(f, CutsOf(f, limit, idist, fdist), e)
                                          <==> Leq(Through(f, idist, fdist, e), limit))
    ensures forall s: nat :: IsFinal(f, s) ==> (CutsOf(f, limit, idist, fdist).finals[s]
                                                <==> !Leq(Ending(f, idist, s), limit))
  {
    var c := CutsOf(f, limit, idist, fdist);
    forall e | IsEdge(f, e) ensures Uncut(f, c, e) <==> Leq(Through(f, idist, fdist, e), limit) {
      assert c.arcs[e.src] == CutArcs(f, limit, idist, fdist, e.src);
      NaturalLessIsStrict(limit, Through(f, idist, fdist, e));
    }
    forall s: nat | IsFinal(f, s) ensures c.finals[s] <==> !Leq(Ending(f, idist, s), limit) {
      NaturalLessIsStrict(limit, Ending(f, idist, s));
    }
  }

  /** No successful path is lighter than the best path through any of its arcs. */
  lemma ThroughBound(f: Fst<Weight>, idist: seq<Weight>, fdist: seq<Weight>, p: seq<Edge>, t: nat, k: nat)
    requires WellFormed(f) && Measured(f, idist, fdist) && Successful(f, p, t) && k < |p|
    ensures IsEdge(f, p[k]) && Leq(Through(f, idist, fdist, p[k]), Total(f, p, t))
  {
    var s, a, b := f.start.value, p[..k], p[k+1..];
    assert p == a + p[k..] && p[k..][0] == p[k] && p[k..][1..] == b;
    var m := PathSplit(f, s, a, p[k..], t);
    var e := p[k];
    var n := Arc(f, e).nextstate;
    CostConcat(f, s, a, m, p[k..], t);
    hide IsDistance, IsCompletionDistance, IsPath;
    var x, w, y := Cost(f, s, a, m), Arc(f, e).weight, Times(Cost(f, n, b, t), FinalWeight(f, t));
    DistanceBound(f, s, m, At(idist, m), a);
    CompletionBound(f, n, At(fdist, n), b, t);
    LeqTimes(At(idist, m), x, w);
    LeqTimes(Times(At(idist, m), w), Times(x, w), At(fdist, n));
    LeqTimes(At(fdist, n), y, Times(x, w));
  }

  lemma DistanceBound(f: Fst<Weight>, s: nat, t: nat, d: Weight, p: seq<Edge>)
    requires IsDistance(f, s, t, d) && IsPath(f, s, p, t)
    ensures Leq(d, Cost(f, s, p, t))
  {
  }

  lemma CompletionBound(f: Fst<Weight>, v: nat, d: Weight, p: seq<Edge>, t: nat)
    requires IsCompletionDistance(f, v, d) && IsPath(f, v, p, t) && IsFinal(f, t)
    ensures Leq(d, Times(Cost(f, v, p, t), FinalWeight(f, t)))
  {
    assert Completes(f, v, p, t, Times(Cost(f, v, p, t), FinalWeight(f, t)));
  }

  lemma EndingBound(f: Fst<Weight>, idist: seq<Weight>, fdist: seq<Weight>, p: seq<Edge>, t: nat)
    requires Measured(f, idist, fdist) && Successful(f, p, t)
    ensures Leq(Ending(f, idist, t), Total(f, p, t))
  {
    DistanceBound(f, f.start.value, t, At(idist, t), p);
    LeqTimes(At(idist, t), Cost(f, f.start.value, p, t), FinalWeight(f, t));
  }

  /** A finite weight through an arc is that of a successful path with the arc on it. */
  lemma ThroughWitness(f: Fst<Weight>, idist: seq<Weight>, fdist: seq<Weight>, e: Edge)
    returns (p: seq<Edge>, t: nat, k: nat)
    requires WellFormed(f) && Measured(f, idist, fdist) && IsEdge(f, e) && Through(f, idist, fdist, e).Fin?
    ensures Successful(f, p, t) && k < |p| && p[k] == e && Total(f, p, t) == Through(f, idist, fdist, e)
  {
    var s, m, n := f.start.value, e.src, Arc(f, e).nextstate;
    assert Witnessed(f, s, m, At(idist, m));
    var a :| IsPath(f, s, a, m) && Cost(f, s, a, m) == At(idist, m);
    var b;
    b, t :| Completes(f, n, b, t, At(fdist, n));
    CostSnoc(f, s, a, m, e.pos);
    CostConcat(f, s, a + [e], n, b, t);
    p, k := a + [e] + b, |a|;
  }

  lemma EndingWitness(f: Fst<Weight>, idist: seq<Weight>, fdist: seq<Weight>, t: nat) returns (p: seq<Edge>)
    requires Measured(f, idist, fdist) && IsFinal(f, t) && Ending(f, idist, t).Fin?
    ensures Successful(f, p, t) && Total(f, p, t) == Ending(f, idist, t)
  {
    assert Witnessed(f, f.start.value, t, At(idist, t));
    p :| IsPath(f, f.start.value, p, t) && Cost(f, f.start.value, p, t) == At(idist, t);
  }

  // ------------------------------------------------ what is on a path within the limit

  ghost predicate Within(f: Fst<Weight>, p: seq<Edge>, t: nat, limit: Weight) {
    Successful(f, p, t) && Leq(Total(f, p, t), limit)
  }

  ghost predicate ArcWithin(f: Fst<Weight>, e: Edge, limit: Weight) {
    exists p, t, k: nat :: Within(f, p, t, limit) && k < |p| && p[k] == e
  }

  ghost predicate EndWithin(f: Fst<Weight>, t: nat, limit: Weight) {
    exists p :: Within(f, p, t, limit)
  }

  /** Cuts every arc and every final weight that no successful path within the limit needs. */
  ghost function WithinCuts(f: Fst<Weight>, limit: Weight): Cuts {
    Cuts(seq(|f.states|, s requires 0 <= s < |f.states| =>
           seq(|f.states[s].trs|, i requires 0 <= i => !ArcWithin(f, Edge(s, i), limit))),
         seq(|f.states|, s requires 0 <= s < |f.states| => !EndWithin(f, s, limit)))
  }

  lemma WithinFits(f: Fst<Weight>, limit: Weight)
    ensures Fits(f, WithinCuts(f, limit))
    ensures forall e :: IsEdge(f, e) ==> (Uncut(f, WithinCuts(f, limit), e) <==> ArcWithin(f, e, limit))
    ensures forall t: nat :: t < |f.states| ==> (WithinCuts(f, limit).finals[t] <==> !EndWithin(f, t, limit))
  {
    hide ArcWithin, EndWithin;
    var c := WithinCuts(f, limit);
    forall e | IsEdge(f, e) ensures Uncut(f, c, e) <==> ArcWithin(f, e, limit) {
      assert Edge(e.src, e.pos) == e;
    }
  }

  /** `h` is `f` without what no path within the limit needs, and `g` what is left of `h` after trimming. */
  ghost predicate Pruned(f: Fst<Weight>, limit: Weight, h: Fst<Weight>, g: Fst<Weight>) {
    && WellFormed(f) && IsCut(f, WithinCuts(f, limit), h) && WellFormed(h) && IsTrimmed(h, Useless(h), g)
  }

  /** A path within the limit loses nothing. */
  lemma WithinUncut(f: Fst<Weight>, limit: Weight, h: Fst<Weight>, p: seq<Edge>, t: nat)
    requires WellFormed(f) && IsCut(f, WithinCuts(f, limit), h) && Within(f, p, t, limit)
    ensures forall k :: 0 <= k < |p| ==> Uncut(f, WithinCuts(f, limit), p[k])
    ensures var q := CutPath(f, WithinCuts(f, limit), p);
            Successful(h, q, t) && SameTrace(f, p, h, q) && h.states[t].finalWeight == f.states[t].finalWeight
  {
    var c := WithinCuts(f, limit);
    WithinFits(f, limit);
    PathEdgesAre(f, f.start.value, p, t);
    hide WithinCuts;
    forall k: nat | k < |p| ensures Uncut(f, c, p[k]) {
      assert ArcWithin(f, p[k], limit);
    }
    assert EndWithin(f, t, limit);
    assert StateCut(f, c, t, h.states[t]);
    PathKept(f, c, h, f.start.value, p, t);
  }

  lemma {:induction false} PathEdgesAre(f: Fst<Weight>, s: nat, p: seq<Edge>, t: nat)
    requires IsPath(f, s, p, t)
    ensures forall k :: 0 <= k < |p| ==> IsEdge(f, p[k])
    decreases |p|
  {
    if p != [] {
      PathEdgesAre(f, Arc(f, p[0]).nextstate, p[1..], t);
      assert forall k :: 0 < k < |p| ==> p[k] == p[1..][k-1];
    }
  }

  /** No arc of `p` is cut, nor deleted with a useless state. */
  ghost predicate Intact(f: Fst<Weight>, c: Cuts, h: Fst<Weight>, p: seq<Edge>) {
    && Fits(f, c) && WellFormed(h) && (forall k :: 0 <= k < |p| ==> Uncut(f, c, p[k]))
    && var q := CutPath(f, c, p); forall k :: 0 <= k < |q| ==> Alive(h, Useless(h), q[k])
  }

  /** Where an intact path is found in the end. */
  ghost function Place(f: Fst<Weight>, c: Cuts, h: Fst<Weight>, p: seq<Edge>): seq<Edge>
    requires Intact(f, c, h, p)
  {
    MapPath(h, Useless(h), CutPath(f, c, p))
  }

  /** The path `p` of `f` has become the path `q` of `g`. */
  ghost predicate Survivor(f: Fst<Weight>, limit: Weight, h: Fst<Weight>, g: Fst<Weight>, p: seq<Edge>, t: nat,
                           q: seq<Edge>, u: nat) {
    var c := WithinCuts(f, limit);
    Intact(f, c, h, p) && q == Place(f, c, h, p) && SameSuccess(f, p, t, g, q, u)
  }

  /** Every successful path within the limit is still there, ... */
  lemma WithinSurvives(f: Fst<Weight>, limit: Weight, h: Fst<Weight>, g: Fst<Weight>, p: seq<Edge>, t: nat)
    returns (q: seq<Edge>, u: nat)
    requires Pruned(f, limit, h, g) && Within(f, p, t, limit)
    ensures Survivor(f, limit, h, g, p, t, q, u) && u == Rank(Useless(h), t)
  {
    hide Pruned, WithinCuts, Alive, WellFormed, IsCut, IsTrimmed, Uncut, IsPath, Total;
    PrunedParts(f, limit, h, g);
    WithinUncut(f, limit, h, p, t);
    WithinFits(f, limit);
    var m := CutPath(f, WithinCuts(f, limit), p);
    SuccessSurvives(h, g, m, t);
    q, u := MapPath(h, Useless(h), m), Rank(Useless(h), t);
    TraceTrans(f, p, h, m, g, q);
  }

  /** ... different paths in different places, ... */
  lemma SurvivorsDiffer(f: Fst<Weight>, c: Cuts, h: Fst<Weight>, p: seq<Edge>, p': seq<Edge>)
    requires Intact(f, c, h, p) && Intact(f, c, h, p') && Place(f, c, h, p) == Place(f, c, h, p')
    ensures p == p'
  {
    hide Fits, Uncut, CutPath, MapPath, Alive;
    MapPathInjective(h, Useless(h), CutPath(f, c, p), CutPath(f, c, p'));
    CutPathInjective(f, c, p, p');
  }

  /** ... and nothing is there that was not. */
  lemma SurvivorWasThere(f: Fst<Weight>, limit: Weight, h: Fst<Weight>, g: Fst<Weight>, q: seq<Edge>, u: nat)
    returns (p: seq<Edge>, t: nat)
    requires Pruned(f, limit, h, g) && Successful(g, q, u)
    ensures Survivor(f, limit, h, g, p, t, q, u)
  {
    hide Pruned, WithinCuts, Alive, WellFormed, IsTrimmed, Uncut;
    PrunedParts(f, limit, h, g);
    var c := WithinCuts(f, limit);
    var a;
    a, t := SuccessComesFrom(h, g, q, u);
    SuccessSurvives(h, g, a, t);
    p := PathWasThere(f, c, h, f.start.value, a, t);
    PathKept(f, c, h, f.start.value, p, t);
    assert StateCut(f, c, t, h.states[t]);
    TraceTrans(f, p, h, a, g, q);
  }

  /** A surviving arc comes from an uncut one between useful states. */
  lemma ArcFrom(f: Fst<Weight>, c: Cuts, h: Fst<Weight>, g: Fst<Weight>, e: Edge) returns (d: Edge)
    requires IsCut(f, c, h) && WellFormed(h) && IsTrimmed(h, Useless(h), g) && IsEdge(g, e)
    ensures Uncut(f, c, d) && Alive(h, Useless(h), CutEdge(f, c, d)) && MapEdge(h, Useless(h), CutEdge(f, c, d)) == e
  {
    var dead := Useless(h);
    var s := Unrank(dead, e.src, |h.states|);
    var i := KeptFrom(dead, h.states[s].trs, e.pos);
    d := ArcUncut(f, c, h, Edge(s, i));
  }

  lemma {:induction false} MapPathAt(f: Fst<Weight>, dead: seq<bool>, p: seq<Edge>, k: nat)
    requires WellFormed(f) && |dead| == |f.states| && k < |p| && forall j :: 0 <= j < |p| ==> Alive(f, dead, p[j])
    ensures k < |MapPath(f, dead, p)| && MapPath(f, dead, p)[k] == MapEdge(f, dead, p[k])
    decreases k
  {
    assert Alive(f, dead, p[0]);
    if k > 0 {
      MapPathAt(f, dead, p[1..], k - 1);
    }
  }

  /** An arc is found again exactly when a successful path within the limit goes through it. */
  ghost predicate ArcFound(f: Fst<Weight>, limit: Weight, h: Fst<Weight>, e: Edge) {
    var c := WithinCuts(f, limit);
    Fits(f, c) && WellFormed(h) && Uncut(f, c, e) && Alive(h, Useless(h), CutEdge(f, c, e))
  }

  lemma ArcFoundExactly(f: Fst<Weight>, limit: Weight, h: Fst<Weight>, g: Fst<Weight>, e: Edge)
    requires Pruned(f, limit, h, g) && IsEdge(f, e)
    ensures ArcFound(f, limit, h, e) <==> ArcWithin(f, e, limit)
  {
    hide WithinCuts, Useless;
    WithinFits(f, limit);
    if ArcWithin(f, e, limit) {
      var p, t, k: nat :| Within(f, p, t, limit) && k < |p| && p[k] == e;
      var q, u := WithinSurvives(f, limit, h, g, p, t);
      assert CutPath(f, WithinCuts(f, limit), p)[k] == CutEdge(f, WithinCuts(f, limit), e);
    }
  }

  /** Where the `k`-th arc of a survivor comes from. */
  lemma SurvivorAt(f: Fst<Weight>, limit: Weight, h: Fst<Weight>, g: Fst<Weight>, p: seq<Edge>, t: nat, q: seq<Edge>,
                   u: nat, k: nat)
    requires Survivor(f, limit, h, g, p, t, q, u) && k < |p|
    ensures k < |q| && ArcFound(f, limit, h, p[k])
    ensures q[k] == MapEdge(h, Useless(h), CutEdge(f, WithinCuts(f, limit), p[k]))
  {
    hide WithinCuts, MapEdge, CutEdge, SameSuccess, Accessible, CoReach;
    MapPathAt(h, Useless(h), CutPath(f, WithinCuts(f, limit), p), k);
  }

  lemma SurvivorWithin(f: Fst<Weight>, limit: Weight, h: Fst<Weight>, g: Fst<Weight>, p: seq<Edge>, t: nat,
                       q: seq<Edge>, u: nat)
    requires Survivor(f, limit, h, g, p, t, q, u) && Within(f, p, t, limit)
    ensures Within(g, q, u, limit)
  {
    hide Intact, Place, WithinCuts;
    TraceTotal(f, p, t, g, q, u);
  }

  lemma PrunedParts(f: Fst<Weight>, limit: Weight, h: Fst<Weight>, g: Fst<Weight>)
    requires Pruned(f, limit, h, g)
    ensures WellFormed(f) && WellFormed(h) && IsCut(f, WithinCuts(f, limit), h) && IsTrimmed(h, Useless(h), g)
    ensures |h.states| == |f.states| && Fits(f, WithinCuts(f, limit))
  {
    hide WithinCuts;
  }

  /** Every surviving arc lies on a surviving path within the limit. */
  lemma ArcsWithin(f: Fst<Weight>, limit: Weight, h: Fst<Weight>, g: Fst<Weight>, e: Edge)
    requires Pruned(f, limit, h, g) && IsEdge(g, e)
    ensures ArcWithin(g, e, limit)
  {
    hide Pruned, Survivor, WithinCuts, IsCut, Alive, Useless, MapEdge, CutEdge, IsTrimmed, WellFormed, Within;
    PrunedParts(f, limit, h, g);
    var d := ArcFrom(f, WithinCuts(f, limit), h, g, e);
    WithinFits(f, limit);
    var p, t, k: nat :| Within(f, p, t, limit) && k < |p| && p[k] == d;
    var q, u := WithinSurvives(f, limit, h, g, p, t);
    SurvivorAt(f, limit, h, g, p, t, q, u, k);
    SurvivorWithin(f, limit, h, g, p, t, q, u);
  }

  lemma EndsWithin(f: Fst<Weight>, limit: Weight, h: Fst<Weight>, g: Fst<Weight>, u: nat)
    requires Pruned(f, limit, h, g) && IsFinal(g, u)
    ensures EndWithin(g, u, limit)
  {
    hide Pruned, Survivor, WithinCuts, Useless, Within;
    PrunedParts(f, limit, h, g);
    var t := EndFrom(f, limit, h, g, u);
    var p :| Within(f, p, t, limit);
    var q, v := WithinSurvives(f, limit, h, g, p, t);
    SurvivorWithin(f, limit, h, g, p, t, q, v);
  }

  lemma EndFrom(f: Fst<Weight>, limit: Weight, h: Fst<Weight>, g: Fst<Weight>, u: nat) returns (t: nat)
    requires Pruned(f, limit, h, g) && IsFinal(g, u)
    ensures EndWithin(f, t, limit) && |Useless(h)| == |h.states| && t < |h.states| && u == Rank(Useless(h), t)
  {
    hide WithinCuts, EndWithin, FilteredTo, KeptTrs;
    t := Unrank(Useless(h), u, |h.states|);
    WithinFits(f, limit);
    assert StateCut(f, WithinCuts(f, limit), t, h.states[t]);
  }

  // ------------------------------------------------ the cuts of the loop lead to the same machine

  /** `h` is what the loop leaves of `f`. */
  ghost predicate LoopCut(f: Fst<Weight>, limit: Weight, idist: seq<Weight>, fdist: seq<Weight>, h: Fst<Weight>) {
    WellFormed(f) && Measured(f, idist, fdist) && IsCut(f, CutsOf(f, limit, idist, fdist), h) && WellFormed(h)
  }

  /** What a path within the limit needs, the loop leaves. */
  lemma WithinStays(f: Fst<Weight>, limit: Weight, idist: seq<Weight>, fdist: seq<Weight>)
    requires WellFormed(f) && Measured(f, idist, fdist)
    ensures Fits(f, CutsOf(f, limit, idist, fdist))
    ensures forall e :: IsEdge(f, e) && ArcWithin(f, e, limit) ==> Uncut(f, CutsOf(f, limit, idist, fdist), e)
    ensures forall t: nat :: IsFinal(f, t) && EndWithin(f, t, limit) ==> !CutsOf(f, limit, idist, fdist).finals[t]
  {
    hide CutsOf, Measured, Through, Ending, NaturalLess;
    CutsFit(f, limit, idist, fdist);
    forall e | IsEdge(f, e) && ArcWithin(f, e, limit) ensures Leq(Through(f, idist, fdist, e), limit) {
      var p, t, k: nat :| Within(f, p, t, limit) && k < |p| && p[k] == e;
      ThroughBound(f, idist, fdist, p, t, k);
    }
    forall t: nat | IsFinal(f, t) && EndWithin(f, t, limit) ensures Leq(Ending(f, idist, t), limit) {
      var p :| Within(f, p, t, limit);
      EndingBound(f, idist, fdist, p, t);
    }
  }

  /** What the loop leaves and trimming does not remove, a path within the limit needs. */
  lemma LeftArcWithin(f: Fst<Weight>, limit: Weight, idist: seq<Weight>, fdist: seq<Weight>, h: Fst<Weight>, d: Edge)
    returns (e: Edge)
    requires LoopCut(f, limit, idist, fdist, h) && Alive(h, Useless(h), d)
    ensures IsEdge(f, e) && ArcWithin(f, e, limit) && e.src == d.src && Arc(f, e) == Arc(h, d)
    ensures var c := CutsOf(f, limit, idist, fdist); Fits(f, c) && Uncut(f, c, e) && CutEdge(f, c, e) == d
  {
    var c := CutsOf(f, limit, idist, fdist);
    e := ArcUncut(f, c, h, d);
    CutsFit(f, limit, idist, fdist);
    hide CutsOf, IsCut, Through, Measured;
    var p, t, k: nat;
    if limit.Inf? {
      p, t, k := AliveWithin(f, c, h, d, e);
    } else {
      p, t, k := ThroughWitness(f, idist, fdist, e);
    }
    assert Within(f, p, t, limit);
  }

  lemma AliveWithin(f: Fst<Weight>, c: Cuts, h: Fst<Weight>, d: Edge, e: Edge) returns (p: seq<Edge>, t: nat, k: nat)
    requires WellFormed(f) && IsCut(f, c, h) && WellFormed(h) && Alive(h, Useless(h), d)
    requires Uncut(f, c, e) && CutEdge(f, c, e) == d
    ensures Successful(f, p, t) && k < |p| && p[k] == e
  {
    hide StateCut, Uncut, CutEdge, CutPath, IsPath;
    var q;
    q, t, k := AliveThrough(h, d);
    p := PathWasThere(f, c, h, h.start.value, q, t);
    StillFinal(f, c, h, t);
    assert CutPath(f, c, p)[k] == CutEdge(f, c, p[k]) == d;
    CutEdgeInjective(f, c, p[k], e);
  }

  /** An arc between useful states is on a successful path. */
  lemma AliveThrough(h: Fst<Weight>, d: Edge) returns (q: seq<Edge>, t: nat, k: nat)
    requires WellFormed(h) && Alive(h, Useless(h), d)
    ensures h.start.Some? && IsPath(h, h.start.value, q, t) && IsFinal(h, t) && k < |q| && q[k] == d
  {
    var n := Arc(h, d).nextstate;
    var a := ReachPath(h, h.start.value, d.src);
    t :| Reach(h, n, t) && IsFinal(h, t);
    var b := ReachPath(h, n, t);
    assert IsPath(h, d.src, [d] + b, t) by {
      assert ([d] + b)[1..] == b;
    }
    PathConcat(h, h.start.value, a, d.src, [d] + b, t);
    q, k := a + ([d] + b), |a|;
  }

  lemma StillFinal(f: Fst<Weight>, c: Cuts, h: Fst<Weight>, t: nat)
    requires IsCut(f, c, h) && IsFinal(h, t)
    ensures IsFinal(f, t) && h.start == f.start
  {
    assert StateCut(f, c, t, h.states[t]);
  }

  lemma LeftEndWithin(f: Fst<Weight>, limit: Weight, idist: seq<Weight>, fdist: seq<Weight>, h: Fst<Weight>, t: nat)
    requires LoopCut(f, limit, idist, fdist, h) && t < |h.states| && !Useless(h)[t] && IsFinal(h, t)
    ensures IsFinal(f, t) && EndWithin(f, t, limit)
  {
    hide CutsOf, Ending, IsCut, Measured, CoReach;
    LeftFinal(f, limit, idist, fdist, h, t);
    var p;
    if limit.Inf? {
      var q := ReachPath(h, h.start.value, t);
      p := PathWasThere(f, CutsOf(f, limit, idist, fdist), h, h.start.value, q, t);
    } else {
      p := EndingWitness(f, idist, fdist, t);
    }
    assert Within(f, p, t, limit);
  }

  lemma LeftFinal(f: Fst<Weight>, limit: Weight, idist: seq<Weight>, fdist: seq<Weight>, h: Fst<Weight>, t: nat)
    requires LoopCut(f, limit, idist, fdist, h) && t < |h.states| && IsFinal(h, t)
    ensures IsFinal(f, t) && Leq(Ending(f, idist, t), limit) && h.start == f.start && |h.states| == |f.states|
  {
    hide Ending, FilteredTo, Measured;
    assert StateCut(f, CutsOf(f, limit, idist, fdist), t, h.states[t]);
    CutsFit(f, limit, idist, fdist);
  }

  /** The arcs that are not cut. */
  ghost function Filtered(cut: seq<bool>, trs: seq<Tr<Weight>>): seq<Tr<Weight>>
    requires |cut| == |trs|
  {
    if trs == [] then []
    else Filtered(cut[..|trs|-1], trs[..|trs|-1]) + if cut[|trs|-1] then [] else [trs[|trs|-1]]
  }

  lemma {:induction false} FilteredIs(cut: seq<bool>, trs: seq<Tr<Weight>>)
    requires |cut| == |trs|
    ensures FilteredTo(cut, trs, Filtered(cut, trs), |trs|)
  {
    if trs != [] {
      var n := |trs| - 1;
      FilteredIs(cut[..n], trs[..n]);
      RankPrefix(cut, n);
      FilterStep(cut, trs, Filtered(cut[..n], trs[..n]), n);
      assert cut[..n+1] == cut && trs[..n+1] == trs;
    }
  }

  lemma {:induction false} RankPrefix(cut: seq<bool>, n: nat)
    requires n <= |cut|
    ensures forall j :: 0 <= j <= n ==> Rank(cut[..n], j) == Rank(cut, j)
  {
    forall j | 0 <= j <= n ensures Rank(cut[..n], j) == Rank(cut, j) {
      RankPrefixAt(cut, n, j);
    }
  }

  lemma {:induction false} RankPrefixAt(cut: seq<bool>, n: nat, j: nat)
    requires j <= n <= |cut|
    ensures Rank(cut[..n], j) == Rank(cut, j)
  {
    if j > 0 {
      RankPrefixAt(cut, n, j - 1);
    }
  }

  /** There is one sequence of the arcs that are not cut. */
  lemma FilteredOnce(cut: seq<bool>, trs: seq<Tr<Weight>>, a: seq<Tr<Weight>>, b: seq<Tr<Weight>>)
    requires |cut| == |trs| && FilteredTo(cut, trs, a, |trs|) && FilteredTo(cut, trs, b, |trs|)
    ensures a == b
  {
    forall k | 0 <= k < |a| ensures a[k] == b[k] {
      var j := Unrank(cut, k, |trs|);
    }
  }

  ghost function CutTo(f: Fst<Weight>, c: Cuts): (h: Fst<Weight>)
    requires Fits(f, c)
  {
    Fst(seq(|f.states|, s requires 0 <= s < |f.states| =>
          State(if c.finals[s] then None else f.states[s].finalWeight, Filtered(c.arcs[s], f.states[s].trs))), f.start)
  }

  lemma CutToIs(f: Fst<Weight>, c: Cuts)
    requires Fits(f, c)
    ensures IsCut(f, c, CutTo(f, c))
  {
    forall s | 0 <= s < |f.states| ensures StateCut(f, c, s, CutTo(f, c).states[s]) {
      FilteredIs(c.arcs[s], f.states[s].trs);
    }
  }

  /** The machine cut by the loop, and the one cut down to the paths within the limit. */
  ghost predicate BothCut(f: Fst<Weight>, limit: Weight, idist: seq<Weight>, fdist: seq<Weight>, h: Fst<Weight>,
                          h': Fst<Weight>) {
    LoopCut(f, limit, idist, fdist, h) && IsCut(f, WithinCuts(f, limit), h') && WellFormed(h')
  }

  lemma {:induction false} PathOver(f: Fst<Weight>, limit: Weight, idist: seq<Weight>, fdist: seq<Weight>,
                                    h: Fst<Weight>, h': Fst<Weight>, s: nat, p: seq<Edge>, t: nat)
    returns (q: seq<Edge>)
    requires BothCut(f, limit, idist, fdist, h, h') && IsPath(h, s, p, t)
    requires forall k :: 0 <= k < |p| ==> Alive(h, Useless(h), p[k])
    ensures IsPath(h', s, q, t)
    decreases |p|
  {
    hide BothCut, Alive, Useless;
    CutSizes(f, limit, idist, fdist, h, h');
    if p == [] {
      q := [];
    } else {
      assert forall k :: 0 <= k < |p[1..]| ==> p[1..][k] == p[k+1];
      var rest := PathOver(f, limit, idist, fdist, h, h', Arc(h, p[0]).nextstate, p[1..], t);
      var e := ArcOver(f, limit, idist, fdist, h, h', p[0]);
      q := [e] + rest;
      assert q[1..] == rest;
    }
  }

  lemma CutSizes(f: Fst<Weight>, limit: Weight, idist: seq<Weight>, fdist: seq<Weight>, h: Fst<Weight>, h': Fst<Weight>)
    requires BothCut(f, limit, idist, fdist, h, h')
    ensures |h.states| == |h'.states| == |f.states| && WellFormed(h) && WellFormed(h') && h.start == h'.start == f.start
  {
  }

  lemma ArcOver(f: Fst<Weight>, limit: Weight, idist: seq<Weight>, fdist: seq<Weight>, h: Fst<Weight>, h': Fst<Weight>,
                d: Edge)
    returns (e: Edge)
    requires BothCut(f, limit, idist, fdist, h, h') && Alive(h, Useless(h), d)
    ensures IsEdge(h, d) && IsEdge(h', e) && e.src == d.src && Arc(h', e) == Arc(h, d)
  {
    var c := WithinCuts(f, limit);
    var x := LeftArcWithin(f, limit, idist, fdist, h, d);
    WithinFits(f, limit);
    hide WithinCuts;
    CutArc(f, c, h', x);
    e := CutEdge(f, c, x);
  }

  /** The loop leaves every path that is within the limit arc by arc. */
  lemma {:induction false} PathBackOver(f: Fst<Weight>, limit: Weight, idist: seq<Weight>, fdist: seq<Weight>,
                                        h: Fst<Weight>, h': Fst<Weight>, s: nat, q: seq<Edge>, t: nat)
    returns (p: seq<Edge>)
    requires BothCut(f, limit, idist, fdist, h, h') && IsPath(h', s, q, t)
    ensures IsPath(h, s, p, t)
    decreases |q|
  {
    hide BothCut;
    CutSizes(f, limit, idist, fdist, h, h');
    if q == [] {
      p := [];
    } else {
      var rest := PathBackOver(f, limit, idist, fdist, h, h', Arc(h', q[0]).nextstate, q[1..], t);
      var d := ArcBackOver(f, limit, idist, fdist, h, h', q[0]);
      p := [d] + rest;
      assert p[1..] == rest;
    }
  }

  lemma ArcBackOver(f: Fst<Weight>, limit: Weight, idist: seq<Weight>, fdist: seq<Weight>, h: Fst<Weight>,
                    h': Fst<Weight>, e: Edge)
    returns (d: Edge)
    requires BothCut(f, limit, idist, fdist, h, h') && IsEdge(h', e)
    ensures IsEdge(h, d) && d.src == e.src && Arc(h, d) == Arc(h', e)
  {
    var c, c' := CutsOf(f, limit, idist, fdist), WithinCuts(f, limit);
    WithinFits(f, limit);
    WithinStays(f, limit, idist, fdist);
    hide WithinCuts, CutsOf, ArcWithin, EndWithin;
    var x := ArcUncut(f, c', h', e);
    CutArc(f, c, h, x);
    d := CutEdge(f, c, x);
  }

  lemma FinalsOver(f: Fst<Weight>, limit: Weight, idist: seq<Weight>, fdist: seq<Weight>, h: Fst<Weight>,
                   h': Fst<Weight>, t: nat)
    requires BothCut(f, limit, idist, fdist, h, h') && t < |h.states|
    ensures t < |h'.states| && (IsFinal(h', t) ==> h.states[t].finalWeight == h'.states[t].finalWeight)
    ensures !Useless(h)[t] ==> h.states[t].finalWeight == h'.states[t].finalWeight
  {
    var c, c' := CutsOf(f, limit, idist, fdist), WithinCuts(f, limit);
    WithinFits(f, limit);
    WithinStays(f, limit, idist, fdist);
    assert StateCut(f, c, t, h.states[t]) && StateCut(f, c', t, h'.states[t]);
    hide WithinCuts, CutsOf, ArcWithin, EndWithin, FilteredTo;
    if !Useless(h)[t] && IsFinal(h, t) {
      LeftEndWithin(f, limit, idist, fdist, h, t);
    }
  }

  /** Both have the same useful states. */
  lemma SameUseless(f: Fst<Weight>, limit: Weight, idist: seq<Weight>, fdist: seq<Weight>, h: Fst<Weight>,
                    h': Fst<Weight>)
    requires BothCut(f, limit, idist, fdist, h, h')
    ensures Useless(h) == Useless(h')
  {
    hide BothCut;
    CutSizes(f, limit, idist, fdist, h, h');
    forall s: nat | s < |h.states| ensures Useless(h)[s] == Useless(h')[s] {
      if !Useless(h)[s] {
        StillUseful(f, limit, idist, fdist, h, h', s);
      }
      if !Useless(h')[s] {
        AlsoUseful(f, limit, idist, fdist, h, h', s);
      }
    }
  }

  lemma OnTheWay(h: Fst<Weight>, a: seq<Edge>, b: seq<Edge>, s: nat, t: nat)
    requires h.start.Some? && IsPath(h, h.start.value, a, s) && IsPath(h, s, b, t) && IsFinal(h, t) && s < |h.states|
    ensures !Useless(h)[s]
  {
    hide IsPath;
    assert Reach(h, h.start.value, s) && Reach(h, s, t);
  }

  lemma StillUseful(f: Fst<Weight>, limit: Weight, idist: seq<Weight>, fdist: seq<Weight>, h: Fst<Weight>,
                    h': Fst<Weight>, s: nat)
    requires BothCut(f, limit, idist, fdist, h, h') && s < |h.states| && !Useless(h)[s]
    ensures s < |h'.states| && !Useless(h')[s]
  {
    hide BothCut, Useless, WellFormed, Alive;
    CutSizes(f, limit, idist, fdist, h, h');
    var a, b, t := ThroughUseful(h, s);
    var a' := PathOver(f, limit, idist, fdist, h, h', h.start.value, a, s);
    var b' := PathOver(f, limit, idist, fdist, h, h', s, b, t);
    FinalsOver(f, limit, idist, fdist, h, h', t);
    OnTheWay(h', a', b', s, t);
  }

  lemma AlsoUseful(f: Fst<Weight>, limit: Weight, idist: seq<Weight>, fdist: seq<Weight>, h: Fst<Weight>,
                   h': Fst<Weight>, s: nat)
    requires BothCut(f, limit, idist, fdist, h, h') && s < |h'.states| && !Useless(h')[s]
    ensures s < |h.states| && !Useless(h)[s]
  {
    hide BothCut, Useless, WellFormed, Alive;
    CutSizes(f, limit, idist, fdist, h, h');
    var a, b, t := ThroughUseful(h', s);
    var a' := PathBackOver(f, limit, idist, fdist, h, h', h.start.value, a, s);
    var b' := PathBackOver(f, limit, idist, fdist, h, h', s, b, t);
    FinalsOver(f, limit, idist, fdist, h, h', t);
    OnTheWay(h, a', b', s, t);
  }

  /** Cuts that agree on the arcs to surviving states leave the same of them. */
  lemma {:induction false} SameKept(dead: seq<bool>, trs: seq<Tr<Weight>>, cut: seq<bool>, cut': seq<bool>)
    requires |cut| == |cut'| == |trs| && forall i :: 0 <= i < |trs| ==> trs[i].nextstate < |dead|
    requires forall i :: 0 <= i < |trs| && !dead[trs[i].nextstate] ==> cut[i] == cut'[i]
    ensures forall tr :: tr in Filtered(cut, trs) || tr in Filtered(cut', trs) ==> tr.nextstate < |dead|
    ensures KeptTrs(dead, Filtered(cut, trs)) == KeptTrs(dead, Filtered(cut', trs))
    decreases |trs|
  {
    if trs != [] {
      var n := |trs| - 1;
      var front, last := trs[..n], trs[n];
      SameKept(dead, front, cut[..n], cut'[..n]);
      var a, b := Filtered(cut[..n], front), Filtered(cut'[..n], front);
      KeptSnoc(dead, a, last);
      KeptSnoc(dead, b, last);
      assert a + [] == a && b + [] == b;
    }
  }

  lemma {:induction false} KeptSnoc(dead: seq<bool>, trs: seq<Tr<Weight>>, tr: Tr<Weight>)
    requires tr.nextstate < |dead| && forall x :: x in trs ==> x.nextstate < |dead|
    ensures KeptTrs(dead, trs + [tr]) == KeptTrs(dead, trs) + if dead[tr.nextstate] then [] else [Renumbered(dead, tr)]
    decreases |trs|
  {
    if trs == [] {
      assert [tr][1..] == [];
    } else {
      assert (trs + [tr])[1..] == trs[1..] + [tr];
      KeptSnoc(dead, trs[1..], tr);
    }
  }

  lemma SameArcsKept(f: Fst<Weight>, limit: Weight, idist: seq<Weight>, fdist: seq<Weight>, h: Fst<Weight>,
                     h': Fst<Weight>, s: nat)
    requires BothCut(f, limit, idist, fdist, h, h') && s < |h.states| && !Useless(h)[s]
    ensures s < |h'.states| && |Useless(h)| == |h.states|
    ensures KeptState(Useless(h), h.states[s]) == KeptState(Useless(h), h'.states[s])
  {
    var dead := Useless(h);
    var c, c' := CutsOf(f, limit, idist, fdist), WithinCuts(f, limit);
    CutSizes(f, limit, idist, fdist, h, h');
    FinalsOver(f, limit, idist, fdist, h, h', s);
    var trs, cut, cut' := f.states[s].trs, c.arcs[s], c'.arcs[s];
    SameCuts(f, limit, idist, fdist, h, h', s);
    assert StateCut(f, c, s, h.states[s]) && StateCut(f, c', s, h'.states[s]);
    FilteredIs(cut, trs);
    FilteredIs(cut', trs);
    FilteredOnce(cut, trs, h.states[s].trs, Filtered(cut, trs));
    FilteredOnce(cut', trs, h'.states[s].trs, Filtered(cut', trs));
    SameKept(dead, trs, cut, cut');
  }

  lemma SameCuts(f: Fst<Weight>, limit: Weight, idist: seq<Weight>, fdist: seq<Weight>, h: Fst<Weight>, h': Fst<Weight>,
                 s: nat)
    requires BothCut(f, limit, idist, fdist, h, h') && s < |h.states| && !Useless(h)[s]
    ensures var c, c' := CutsOf(f, limit, idist, fdist), WithinCuts(f, limit);
            && Fits(f, c) && Fits(f, c') && s < |f.states|
            && forall i :: 0 <= i < |f.states[s].trs| && !Useless(h)[f.states[s].trs[i].nextstate] ==>
                 c.arcs[s][i] == c'.arcs[s][i]
  {
    var c, c' := CutsOf(f, limit, idist, fdist), WithinCuts(f, limit);
    CutSizes(f, limit, idist, fdist, h, h');
    WithinFits(f, limit);
    WithinStays(f, limit, idist, fdist);
    hide WithinCuts, CutsOf, ArcWithin, EndWithin, Useless;
    forall i | 0 <= i < |f.states[s].trs| && !Useless(h)[f.states[s].trs[i].nextstate]
      ensures c.arcs[s][i] == c'.arcs[s][i] {
      var e := Edge(s, i);
      assert Uncut(f, c, e) <==> !c.arcs[s][i];
      assert Uncut(f, c', e) <==> !c'.arcs[s][i];
      if Uncut(f, c, e) {
        CutArc(f, c, h, e);
        var x := LeftArcWithin(f, limit, idist, fdist, h, CutEdge(f, c, e));
        CutEdgeInjective(f, c, x, e);
      }
    }
  }

  /** So trimming makes the same machine of both. */
  lemma LoopPrunes(f: Fst<Weight>, limit: Weight, idist: seq<Weight>, fdist: seq<Weight>, h: Fst<Weight>,
                   g: Fst<Weight>)
    returns (h': Fst<Weight>)
    requires LoopCut(f, limit, idist, fdist, h) && IsTrimmed(h, Useless(h), g)
    ensures Pruned(f, limit, h', g)
  {
    hide LoopCut, BothCut, WithinCuts, Accessible, CoReach, KeptState, IsCut, IsTrimmed;
    h' := CutWithin(f, limit, idist, fdist, h);
    CutSizes(f, limit, idist, fdist, h, h');
    SameUseless(f, limit, idist, fdist, h, h');
    forall s: nat | s < |h.states| && !Useless(h)[s]
      ensures KeptState(Useless(h), h.states[s]) == KeptState(Useless(h), h'.states[s])
    {
      SameArcsKept(f, limit, idist, fdist, h, h', s);
    }
    SameTrimmed(h, h', Useless(h), g);
  }

  lemma CutWithin(f: Fst<Weight>, limit: Weight, idist: seq<Weight>, fdist: seq<Weight>, h: Fst<Weight>)
    returns (h': Fst<Weight>)
    requires LoopCut(f, limit, idist, fdist, h)
    ensures BothCut(f, limit, idist, fdist, h, h') && WellFormed(f) && IsCut(f, WithinCuts(f, limit), h')
  {
    hide WithinCuts, CutsOf, Measured;
    WithinFits(f, limit);
    h' := CutTo(f, WithinCuts(f, limit));
    CutToIs(f, WithinCuts(f, limit));
    hide CutTo, IsCut;
    CutWellFormed(f, WithinCuts(f, limit), h');
  }

  lemma SameTrimmed(h: Fst<Weight>, h': Fst<Weight>, dead: seq<bool>, g: Fst<Weight>)
    requires WellFormed(h) && WellFormed(h') && |dead| == |h.states| == |h'.states| && h.start == h'.start
    requires forall s: nat :: s < |h.states| && !dead[s] ==>
               KeptState(dead, h.states[s]) == KeptState(dead, h'.states[s])
    requires IsTrimmed(h, dead, g)
    ensures IsTrimmed(h', dead, g)
  {
    hide KeptState, Rank;
  }

  // ------------------------------------------------ the whole of it

  /** `b` is the least weight of the successful paths; it is infinite when none is finite. */
  ghost predicate IsBest(f: Fst<Weight>, b: Weight) {
    && (forall p, t :: Successful(f, p, t) ==> Leq(b, Total(f, p, t)))
    && (b == ZERO || exists p, t :: Successful(f, p, t) && Total(f, p, t) == b)
  }

  /** What is left is `f` without the arcs, final weights and states that are on no successful path within the limit,
      in order. So each path within the limit survives in a place of its own, an arc is found again exactly when
      such a path goes through it, and nothing is new. */
  ghost predicate PruneExact(f: Fst<Weight>, limit: Weight, h: Fst<Weight>, g: Fst<Weight>) {
    && Pruned(f, limit, h, g)
    && (forall p, t :: Within(f, p, t, limit) ==> Survives(f, limit, h, g, p, t))
    && (forall q, u :: Successful(g, q, u) ==> ComesFrom(f, limit, h, g, q, u))
    && (forall p, t, p', t', q, u: nat ::
          Survivor(f, limit, h, g, p, t, q, u) && Survivor(f, limit, h, g, p', t', q, u) ==> p == p')
    && (forall e :: IsEdge(f, e) ==> (ArcFound(f, limit, h, e) <==> ArcWithin(f, e, limit)))
    && (forall e :: IsEdge(g, e) ==> ArcWithin(g, e, limit))
    && (forall u: nat :: IsFinal(g, u) ==> EndWithin(g, u, limit))
  }

  ghost predicate Survives(f: Fst<Weight>, limit: Weight, h: Fst<Weight>, g: Fst<Weight>, p: seq<Edge>, t: nat) {
    exists q, u :: Survivor(f, limit, h, g, p, t, q, u)
  }

  ghost predicate ComesFrom(f: Fst<Weight>, limit: Weight, h: Fst<Weight>, g: Fst<Weight>, q: seq<Edge>, u: nat) {
    exists p, t :: Survivor(f, limit, h, g, p, t, q, u)
  }

  lemma PrunedIsExact(f: Fst<Weight>, limit: Weight, h: Fst<Weight>, g: Fst<Weight>)
    requires Pruned(f, limit, h, g)
    ensures PruneExact(f, limit, h, g)
  {
    hide Pruned, Survivor, ArcWithin, EndWithin, ArcFound, Within, IsPath, Total;
    forall p, t: nat | Within(f, p, t, limit) ensures Survives(f, limit, h, g, p, t) {
      var q, u := WithinSurvives(f, limit, h, g, p, t);
    }
    forall q, u: nat | Successful(g, q, u) ensures ComesFrom(f, limit, h, g, q, u) {
      var p, t := SurvivorWasThere(f, limit, h, g, q, u);
    }
    forall p, t: nat, p', t': nat, q, u: nat |
      Survivor(f, limit, h, g, p, t, q, u) && Survivor(f, limit, h, g, p', t', q, u)
      ensures p == p'
    {
      SurvivorOfOne(f, limit, h, g, p, t, p', t', q, u);
    }
    forall e | IsEdge(f, e) ensures ArcFound(f, limit, h, e) <==> ArcWithin(f, e, limit) {
      ArcFoundExactly(f, limit, h, g, e);
    }
    forall e | IsEdge(g, e) ensures ArcWithin(g, e, limit) {
      ArcsWithin(f, limit, h, g, e);
    }
    forall u: nat | IsFinal(g, u) ensures EndWithin(g, u, limit) {
      EndsWithin(f, limit, h, g, u);
    }
  }

  lemma SurvivorOfOne(f: Fst<Weight>, limit: Weight, h: Fst<Weight>, g: Fst<Weight>, p: seq<Edge>, t: nat,
                      p': seq<Edge>, t': nat, q: seq<Edge>, u: nat)
    requires Survivor(f, limit, h, g, p, t, q, u) && Survivor(f, limit, h, g, p', t', q, u)
    ensures p == p'
  {
    SurvivorsDiffer(f, WithinCuts(f, limit), h, p, p');
  }

  lemma SurvivorFacts(f: Fst<Weight>, limit: Weight, h: Fst<Weight>, g: Fst<Weight>, p: seq<Edge>, t: nat,
                      q: seq<Edge>, u: nat)
    requires Survivor(f, limit, h, g, p, t, q, u)
    ensures Successful(f, p, t) && Successful(g, q, u) && Total(f, p, t) == Total(g, q, u)
  {
    TraceTotal(f, p, t, g, q, u);
  }

  /** With a finite best weight, pruning leaves it as it is exactly when the threshold is not negative. */
  lemma BestKept(f: Fst<Weight>, best: Weight, threshold: Weight, h: Fst<Weight>, g: Fst<Weight>)
    requires IsBest(f, best) && best != ZERO && PruneExact(f, Times(best, threshold), h, g)
    ensures IsBest(g, best) <==> NonNegative(threshold)
  {
    hide Successful, Total, ArcWithin, EndWithin, Pruned, Survivor, ArcFound;
    var limit := Times(best, threshold);
    forall q, u: nat | Successful(g, q, u) ensures Leq(best, Total(g, q, u)) {
      assert ComesFrom(f, limit, h, g, q, u);
      var p, t: nat :| Survivor(f, limit, h, g, p, t, q, u);
      SurvivorFacts(f, limit, h, g, p, t, q, u);
    }
    if NonNegative(threshold) {
      var p, t: nat :| Successful(f, p, t) && Total(f, p, t) == best;
      assert Survives(f, limit, h, g, p, t);
      var q, u: nat :| Survivor(f, limit, h, g, p, t, q, u);
      SurvivorFacts(f, limit, h, g, p, t, q, u);
    } else {
      NothingWithin(f, best, threshold, h, g);
    }
  }

  /** Below the best weight nothing at all survives. */
  lemma NothingWithin(f: Fst<Weight>, best: Weight, threshold: Weight, h: Fst<Weight>, g: Fst<Weight>)
    requires IsBest(f, best) && best != ZERO && PruneExact(f, Times(best, threshold), h, g) && !NonNegative(threshold)
    ensures forall q, u :: !Successful(g, q, u)
  {
    hide Successful, Total, ArcWithin, Pruned, Survivor, ArcFound;
    var limit := Times(best, threshold);
    forall q, u: nat | Successful(g, q, u) ensures false {
      Ends(g, q, u);
      assert EndWithin(g, u, limit);
      var q' :| Within(g, q', u, limit);
      assert ComesFrom(f, limit, h, g, q', u);
      var p, t: nat :| Survivor(f, limit, h, g, p, t, q', u);
      SurvivorFacts(f, limit, h, g, p, t, q', u);
    }
  }

  lemma Ends(g: Fst<Weight>, q: seq<Edge>, u: nat)
    requires Successful(g, q, u)
    ensures IsFinal(g, u)
  {
  }

  /** The distance of the start state to the final ones is the best weight. */
  lemma StartIsBest(f: Fst<Weight>, d: Weight)
    requires f.start.Some? && IsCompletionDistance(f, f.start.value, d)
    ensures IsBest(f, d)
  {
    forall p, t: nat | Successful(f, p, t) ensures Leq(d, Total(f, p, t)) {
      assert Completes(f, f.start.value, p, t, Total(f, p, t));
    }
    if d != ZERO {
      var p, t :| Completes(f, f.start.value, p, t, d);
      assert Successful(f, p, t);
    }
  }

  // ------------------------------------------------ the loop

  lemma FilterStep(cut: seq<bool>, trs: seq<Tr<Weight>>, out: seq<Tr<Weight>>, i: nat)
    requires |cut| == |trs| && i < |trs| && FilteredTo(cut, trs, out, i)
    ensures FilteredTo(cut, trs, if cut[i] then out else out + [trs[i]], i + 1)
  {
    hide Rank;
    RankStep(cut, i);
    var out', i' := if cut[i] then out else out + [trs[i]], i + 1;
    forall j: nat | j < i' && !cut[j] ensures Rank(cut, j) < |out'| && out'[Rank(cut, j)] == trs[j] {
      assert j < i ==> Rank(cut, j) < |out| && out[Rank(cut, j)] == trs[j];
    }
  }

  /** Puts back those arcs of `s` that are not over the limit. */
  method PruneTrs(fst: VectorFst, s: nat, limit: Weight, idist: seq<Weight>, fdist: seq<Weight>, ghost f: Fst<Weight>,
                  ghost sound: bool)
    requires s < |fst.states| == |f.states| && fst.states[s].trs == f.states[s].trs
    requires WellFormed(f) && Marks(fst, sound)
    modifies fst
    ensures fst.start == old(fst.start) && ACCESSIBLE !in fst.properties && Marks(fst, sound)
    ensures |fst.states| == |old(fst.states)|
        && fst.states == old(fst.states)[s := old(fst.states)[s].(trs := fst.states[s].trs)]
    ensures FilteredTo(CutArcs(f, limit, idist, fdist, s), f.states[s].trs, fst.states[s].trs, |f.states[s].trs|)
  {
    hide FilteredTo, Rank, Marks;
    ghost var cut := CutArcs(f, limit, idist, fdist, s);
    var trs := fst.states[s].trs;
    FilterNone(cut, trs);
    ClearTrs(fst, s, sound);
    for i := 0 to |trs|
      invariant fst.start == old(fst.start) && |fst.states| == |old(fst.states)| && ACCESSIBLE !in fst.properties
      invariant Marks(fst, sound)
      invariant fst.states == old(fst.states)[s := old(fst.states)[s].(trs := fst.states[s].trs)]
      invariant FilteredTo(cut, trs, fst.states[s].trs, i)
    {
      FilterStep(cut, trs, fst.states[s].trs, i);
      var tr := trs[i];
      var through := Times(Times(At(idist, s), tr.weight), At(fdist, tr.nextstate));
      if !NaturalLess(limit, through) {
        AppendTr(fst, s, tr, sound);
      }
    }
  }

  lemma FilterNone(cut: seq<bool>, trs: seq<Tr<Weight>>)
    requires |cut| == |trs|
    ensures FilteredTo(cut, trs, [], 0)
  {
  }

  /** Deletes the final weight and the arcs of `s` that are over the limit. */
  method PruneState(fst: VectorFst, s: nat, limit: Weight, idist: seq<Weight>, fdist: seq<Weight>, ghost f: Fst<Weight>,
                    ghost sound: bool)
    requires s < |fst.states| == |f.states| && fst.states[s] == f.states[s]
    requires Fits(f, CutsOf(f, limit, idist, fdist)) && WellFormed(f) && Marks(fst, sound)
    modifies fst
    ensures fst.start == old(fst.start) && |fst.states| == |old(fst.states)| && ACCESSIBLE !in fst.properties
    ensures Marks(fst, sound)
    ensures forall r :: 0 <= r < |fst.states| && r != s ==> fst.states[r] == old(fst.states)[r]
    ensures StateCut(f, CutsOf(f, limit, idist, fdist), s, fst.states[s])
  {
    hide FilteredTo, Marks;
    if fst.states[s].finalWeight.Some? && NaturalLess(limit, Times(At(idist, s), fst.states[s].finalWeight.value)) {
      ClearFinal(fst, s, sound);
    }
    assert fst.states[s].finalWeight == if CutFinal(f, limit, idist, s) then None else f.states[s].finalWeight;
    PruneTrs(fst, s, limit, idist, fdist, f, sound);
  }

  method PruneAll(fst: VectorFst, limit: Weight, idist: seq<Weight>, fdist: seq<Weight>, ghost sound: bool)
    requires fst.states != [] && Marks(fst, sound)
    modifies fst
    ensures Marks(fst, sound)
    ensures IsCut(old(fst.Value()), CutsOf(old(fst.Value()), limit, idist, fdist), fst.Value())
    ensures ACCESSIBLE !in fst.properties
  {
    ghost var f, c := fst.Value(), CutsOf(fst.Value(), limit, idist, fdist);
    hide StateCut, CutsOf, BitsTrue;
    CutsFit(f, limit, idist, fdist);
    for s := 0 to |fst.states|
      invariant fst.start == f.start && |fst.states| == |f.states| && (s > 0 ==> ACCESSIBLE !in fst.properties)
      invariant Marks(fst, sound)
      invariant forall r :: 0 <= r < s ==> StateCut(f, c, r, fst.states[r])
      invariant forall r :: s <= r < |f.states| ==> fst.states[r] == f.states[r]
    {
      PruneState(fst, s, limit, idist, fdist, f, sound);
    }
  }

  /** Prunes in place. */
  method Prune(fst: VectorFst, threshold: Weight) returns (ghost best: Weight, ghost kept: Fst<Weight>)
    requires WellFormed(fst.Value()) && NonNegativeArcs(fst.Value()) && NonNegativeFinals(fst.Value())
    modifies fst
    ensures IsBest(old(fst.Value()), best)
    ensures best == ZERO ==> fst.Value() == Fst([], None)
    ensures best != ZERO ==> PruneExact(old(fst.Value()), Times(best, threshold), kept, fst.Value())
    ensures old(BitsTrue(fst.Value(), fst.properties)) ==> BitsTrue(fst.Value(), fst.properties)
  {
    ghost var f := fst.Value();
    hide IsDistance, IsCompletionDistance, NonNegativeArcs, NonNegativeFinals, PruneExact, WellFormed, IsCut, CutsOf,
         IsBest, Useless, IsTrimmed, BitsTrue, DELETE_STATES_PROPERTIES, NULL_PROPERTIES;
    ghost var sound := BitsTrue(fst.Value(), fst.properties);
    EmptyTrue();
    best, kept := ZERO, f;
    if |fst.states| == 0 || fst.start.None? {
      WithoutStart(f);
      if |fst.states| != 0 {
        fst.DelAllStates();
      }
      return;
    }
    var start := fst.start.value;
    var fdistance := ShortestDistance(fst.Value(), true);
    var idistance := ShortestDistance(fst.Value(), false);
    StartInside(f);
    best := At(fdistance, start);
    StartIsBest(f, best);
    if At(fdistance, start) == ZERO {
      fst.DelAllStates();
      return;
    }
    var limit := Times(At(fdistance, start), threshold);
    PruneAll(fst, limit, idistance, fdistance, sound);
    ghost var h, props := fst.Value(), fst.properties;
    CutWellFormed(f, CutsOf(f, limit, idistance, fdistance), h);
    Connect(fst);
    if sound {
      ConnectedBits(h, fst.Value(), props);
    }
    kept := LoopPrunes(f, limit, idistance, fdistance, h, fst.Value());
    PrunedIsExact(f, limit, kept, fst.Value());
  }

  lemma WithoutStart(f: Fst<Weight>)
    requires WellFormed(f) && (|f.states| == 0 || f.start.None?)
    ensures IsBest(f, ZERO) && f.start.None?
  {
  }

  lemma StartInside(f: Fst<Weight>)
    requires WellFormed(f) && f.start.Some?
    ensures f.start.value < |f.states|
  {
  }
}
