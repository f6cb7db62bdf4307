/** The tropical semiring with exact weights. */
module Weights {
  import opened Fsts

  /** `Inf` is the semiring zero, `Fin(0)` its one. */
  datatype Weight = Inf | Fin(v: int)

  const ZERO: Weight := Inf
  const ONE: Weight := Fin(0)

  function Plus(a: Weight, b: Weight): Weight {
    if b.Fin? && (a.Inf? || b.v < a.v) then b else a
  }

  function Times(a: Weight, b: Weight): Weight {
    if a.Fin? && b.Fin? then Fin(a.v + b.v) else Inf
  }

  /** The natural order: `a` is at least as good as `b`. */
  predicate Leq(a: Weight, b: Weight) {
    b.Inf? || (a.Fin? && a.v <= b.v)
  }

  /** `natural_less`: strictly better. */
  predicate NaturalLess(a: Weight, b: Weight) {
    Plus(a, b) == a && a != b
  }

  lemma NaturalLessIsStrict(a: Weight, b: Weight)
    ensures NaturalLess(a, b) <==> !Leq(b, a)
  {
  }

  predicate NonNegative(a: Weight) {
    a.Fin? ==> a.v >= 0
  }

  ghost predicate NonNegativeArcs(f: Fst<Weight>) {
    forall s, i :: 0 <= s < |f.states| && 0 <= i < |f.states[s].trs| ==> NonNegative(f.states[s].trs[i].weight)
  }

  ghost predicate NonNegativeFinals(f: Fst<Weight>) {
    forall s :: 0 <= s < |f.states| && f.states[s].finalWeight.Some? ==> NonNegative(f.states[s].finalWeight.value)
  }

  function FinalWeight(f: Fst<Weight>, s: nat): Weight {
    if s < |f.states| && f.states[s].finalWeight.Some? then f.states[s].finalWeight.value else ZERO
  }

  lemma LeqTimes(a: Weight, b: Weight, c: Weight)
    requires Leq(a, b)
    ensures Leq(Times(a, c), Times(b, c)) && Leq(Times(c, a), Times(c, b))
  {
  }

  /** The product of the arc weights along a path. */
  ghost function Cost(f: Fst<Weight>, s: nat, p: seq<Edge>, t: nat): Weight
    requires IsPath(f, s, p, t)
    decreases |p|
  {
    if p == [] then ONE else Times(Arc(f, p[0]).weight, Cost(f, Arc(f, p[0]).nextstate, p[1..], t))
  }

  /** The weight of a successful path. */
  ghost function Total(f: Fst<Weight>, p: seq<Edge>, t: nat): Weight
    requires Successful(f, p, t)
  {
    Times(Cost(f, f.start.value, p, t), FinalWeight(f, t))
  }

  lemma WeightTimes(a: Weight, b: Weight, c: Weight)
    ensures Times(ONE, c) == c && Times(Times(a, b), c) == Times(a, Times(b, c))
  {
  }

  lemma {:induction false} CostConcat(f: Fst<Weight>, s: nat, p: seq<Edge>, m: nat, q: seq<Edge>, t: nat)
    requires IsPath(f, s, p, m) && IsPath(f, m, q, t)
    ensures IsPath(f, s, p + q, t) && Cost(f, s, p + q, t) == Times(Cost(f, s, p, m), Cost(f, m, q, t))
    decreases |p|
  {
    hide Times;
    if p == [] {
      assert p + q == q;
      WeightTimes(ONE, ONE, Cost(f, m, q, t));
    } else {
      CostConcat(f, Arc(f, p[0]).nextstate, p[1..], m, q, t);
      assert (p + q)[1..] == p[1..] + q;
      WeightTimes(Arc(f, p[0]).weight, Cost(f, Arc(f, p[0]).nextstate, p[1..], m), Cost(f, m, q, t));
    }
  }

  lemma {:induction false} CostNonNegative(f: Fst<Weight>, s: nat, p: seq<Edge>, t: nat)
    requires NonNegativeArcs(f) && IsPath(f, s, p, t)
    ensures NonNegative(Cost(f, s, p, t))
    decreases |p|
  {
    if p != [] {
      CostNonNegative(f, Arc(f, p[0]).nextstate, p[1..], t);
    }
  }

  /** One more arc at the end of a path. */
  lemma CostSnoc(f: Fst<Weight>, s: nat, p: seq<Edge>, m: nat, i: nat)
    requires WellFormed(f) && IsPath(f, s, p, m) && m < |f.states| && i < |f.states[m].trs|
    ensures var tr := f.states[m].trs[i]; IsPath(f, s, p + [Edge(m, i)], tr.nextstate)
                                          && Cost(f, s, p + [Edge(m, i)], tr.nextstate) == Times(Cost(f, s, p, m),
                                              tr.weight)
  {
    var e := Edge(m, i);
    assert IsPath(f, m, [e], Arc(f, e).nextstate);
    CostConcat(f, s, p, m, [e], Arc(f, e).nextstate);
  }
}
