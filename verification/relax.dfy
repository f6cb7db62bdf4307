/** Relaxation of arcs in any order, the common core of `shortest_path.rs` and `shortest_distance.rs`. */
module Relaxations {
  import opened Fsts
  import opened Weights

  /** `d` is the least cost of the paths from `s` to `t`; it is infinite when there is no path of finite cost. */
  ghost predicate IsDistance(f: Fst<Weight>, s: nat, t: nat, d: Weight) {
    && (forall p :: IsPath(f, s, p, t) ==> Leq(d, Cost(f, s, p, t)))
    && (d == ZERO || Witnessed(f, s, t, d))
  }

  ghost predicate Witnessed(f: Fst<Weight>, s: nat, t: nat, d: Weight) {
    exists p :: IsPath(f, s, p, t) && Cost(f, s, p, t) == d
  }

  /** Arc `i` of `u` offers nothing better. */
  ghost predicate Relaxed(f: Fst<Weight>, d: seq<Weight>, u: nat, i: nat)
    requires |d| == |f.states| && u < |f.states| && i < |f.states[u].trs|
  {
    var tr := f.states[u].trs[i];
    tr.nextstate < |d| && Leq(d[tr.nextstate], Times(d[u], tr.weight))
  }

  /** Every finite estimate is the cost of a path, and the arcs of all states outside `dirty` are relaxed. */
  ghost predicate Estimates(f: Fst<Weight>, source: nat, d: seq<Weight>, dirty: set<nat>) {
    && |d| == |f.states| && source < |d| && d[source] == ONE
    && (forall v :: 0 <= v < |d| ==> NonNegative(d[v]) && (d[v] == ZERO || Witnessed(f, source, v, d[v])))
    && (forall u, i :: 0 <= u < |f.states| && u !in dirty && 0 <= i < |f.states[u].trs| ==> Relaxed(f, d, u, i))
  }

  /** As before, while the first `i` arcs of `u` are done. */
  ghost predicate Scanning(f: Fst<Weight>, source: nat, d: seq<Weight>, dirty: set<nat>, u: nat, i: nat) {
    && u < |f.states| && u !in dirty && i <= |f.states[u].trs|
    && Estimates(f, source, d, dirty + {u})
    && forall j :: 0 <= j < i ==> Relaxed(f, d, u, j)
  }

  lemma InitialEstimates(f: Fst<Weight>, source: nat)
    requires WellFormed(f) && source < |f.states|
    ensures Estimates(f, source, seq(|f.states|, _ => ZERO)[source := ONE], {source})
  {
    var d := seq(|f.states|, _ => ZERO)[source := ONE];
    assert IsPath(f, source, [], source) && Cost(f, source, [], source) == ONE;
    assert Witnessed(f, source, source, ONE);
  }

  lemma StartScan(f: Fst<Weight>, source: nat, d: seq<Weight>, dirty: set<nat>, u: nat)
    requires Estimates(f, source, d, dirty) && u < |f.states|
    ensures Scanning(f, source, d, dirty - {u}, u, 0)
  {
  }

  lemma EndScan(f: Fst<Weight>, source: nat, d: seq<Weight>, dirty: set<nat>, u: nat)
    requires u < |f.states| && Scanning(f, source, d, dirty, u, |f.states[u].trs|)
    ensures Estimates(f, source, d, dirty)
  {
  }

  /** An arc that offers nothing is passed by; one that improves its target makes it dirty. The
      state being scanned and the source are never improved, since no weight is negative. */
  lemma ScanArc(f: Fst<Weight>, source: nat, d: seq<Weight>, dirty: set<nat>, u: nat, i: nat)
    requires WellFormed(f) && NonNegativeArcs(f) && Scanning(f, source, d, dirty, u, i) && i < |f.states[u].trs|
    ensures var tr := f.states[u].trs[i]; var t := tr.nextstate; var w := Times(d[u], tr.weight);
            && t < |d| && NonNegative(d[t])
            && (Leq(d[t], w) ==> Scanning(f, source, d, dirty, u, i + 1))
            && (!Leq(d[t], w) ==> t != u && t != source && NonNegative(w) && w.Fin?
                                    && Scanning(f, source, d[t := w], dirty + {t}, u, i + 1))
  {
    hide Witnessed;
    var tr := f.states[u].trs[i];
    var t, w := tr.nextstate, Times(d[u], tr.weight);
    if !Leq(d[t], w) {
      assert NonNegative(tr.weight);
      WitnessedSnoc(f, source, u, d[u], i);
      LowerRelaxed(f, source, d, dirty, u, i, w);
    }
  }

  lemma WitnessedSnoc(f: Fst<Weight>, s: nat, u: nat, d: Weight, i: nat)
    requires WellFormed(f) && Witnessed(f, s, u, d) && u < |f.states| && i < |f.states[u].trs|
    ensures Witnessed(f, s, f.states[u].trs[i].nextstate, Times(d, f.states[u].trs[i].weight))
  {
    var p :| IsPath(f, s, p, u) && Cost(f, s, p, u) == d;
    CostSnoc(f, s, p, u, i);
  }

  /** Lowering the estimate of a target keeps every relaxed arc relaxed, except its own. */
  lemma LowerRelaxed(f: Fst<Weight>, source: nat, d: seq<Weight>, dirty: set<nat>, u: nat, i: nat, w: Weight)
    requires WellFormed(f) && Scanning(f, source, d, dirty, u, i) && i < |f.states[u].trs|
    requires w == Times(d[u], f.states[u].trs[i].weight) && NonNegative(w)
    requires var t := f.states[u].trs[i].nextstate;
             t < |d| && !Leq(d[t], w) && t != u && t != source && Witnessed(f, source, t, w)
    ensures var t := f.states[u].trs[i].nextstate; Scanning(f, source, d[t := w], dirty + {t}, u, i + 1)
  {
    hide Witnessed;
    var t := f.states[u].trs[i].nextstate;
    var d' := d[t := w];
    forall x, j | 0 <= x < |f.states| && x !in dirty + {t} + {u} && 0 <= j < |f.states[x].trs|
      ensures Relaxed(f, d', x, j) {
      assert Relaxed(f, d, x, j);
    }
    assert forall j :: 0 <= j < i ==> Relaxed(f, d, u, j) && Relaxed(f, d', u, j);
  }

  /** With nothing dirty the estimates bound every path from below. */
  lemma {:induction false} PathBound(f: Fst<Weight>, source: nat, d: seq<Weight>, s: nat, p: seq<Edge>, t: nat)
    requires Estimates(f, source, d, {}) && IsPath(f, s, p, t)
    ensures s < |d| && t < |d| && Leq(d[t], Times(d[s], Cost(f, s, p, t)))
    decreases |p|
  {
    if p != [] {
      assert Relaxed(f, d, s, p[0].pos);
      PathBound(f, source, d, Arc(f, p[0]).nextstate, p[1..], t);
    }
  }

  lemma EstimatesExact(f: Fst<Weight>, source: nat, d: seq<Weight>)
    requires Estimates(f, source, d, {})
    ensures forall t :: 0 <= t < |d| ==> IsDistance(f, source, t, d[t])
  {
    forall t: nat, p | t < |d| && IsPath(f, source, p, t) ensures Leq(d[t], Cost(f, source, p, t)) {
      PathBound(f, source, d, source, p, t);
    }
  }

  // ------------------------------------------------ termination

  function Unreached(d: seq<Weight>): nat {
    if d == [] then 0 else Unreached(d[..|d|-1]) + if d[|d|-1].Inf? then 1 else 0
  }

  function SumOf(d: seq<Weight>): nat {
    if d == [] then 0 else SumOf(d[..|d|-1]) + if d[|d|-1].Fin? && d[|d|-1].v >= 0 then d[|d|-1].v else 0
  }

  /** Improving one estimate reaches a new state or lowers the sum. */
  lemma {:induction false} Improvement(d: seq<Weight>, t: nat, w: Weight)
    requires t < |d| && w.Fin? && w.v >= 0 && NonNegative(d[t]) && !Leq(d[t], w)
    ensures Unreached(d[t := w]) <= Unreached(d)
    ensures Unreached(d[t := w]) == Unreached(d) ==> SumOf(d[t := w]) < SumOf(d)
  {
    var n := |d| - 1;
    if t < n {
      assert d[t := w][..n] == d[..n][t := w];
      Improvement(d[..n], t, w);
    } else {
      assert d[t := w][..n] == d[..n];
    }
  }

  /** Either nothing changed or a state was reached or came closer. */
  ghost predicate Progressed<Q>(d0: seq<Weight>, queue0: Q, d: seq<Weight>, queue: Q) {
    && Unreached(d) <= Unreached(d0)
    && (Unreached(d) == Unreached(d0) ==> SumOf(d) < SumOf(d0) || (d == d0 && queue == queue0))
  }
}
