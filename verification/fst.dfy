/** States, arcs, paths and reachability of a weighted finite-state transducer. */
module Fsts {

  datatype Option<+T> = None | Some(value: T)

  /** Labels are unsigned 32-bit numbers; 0 is epsilon. */
  type Label = x: nat | x < 0x1_0000_0000

  const EPS_LABEL: Label := 0

  datatype Tr<+W> = Tr(ilabel: Label, olabel: Label, weight: W, nextstate: nat)

  datatype State<+W> = State(finalWeight: Option<W>, trs: seq<Tr<W>>)

  datatype Fst<+W> = Fst(states: seq<State<W>>, start: Option<nat>)

  /** One arc of an FST, named by its source state and its position there. */
  datatype Edge = Edge(src: nat, pos: nat)

  ghost predicate WellFormed<W>(f: Fst<W>) {
    && (f.start.Some? ==> f.start.value < |f.states|)
    && forall s, i :: 0 <= s < |f.states| && 0 <= i < |f.states[s].trs|
                      ==> f.states[s].trs[i].nextstate < |f.states|
  }

  predicate IsEdge<W>(f: Fst<W>, e: Edge) {
    e.src < |f.states| && e.pos < |f.states[e.src].trs|
  }

  function Arc<W>(f: Fst<W>, e: Edge): Tr<W>
    requires IsEdge(f, e)
  {
    f.states[e.src].trs[e.pos]
  }

  /** Stored finality, as `is_final_unchecked` reads it. */
  predicate IsFinal<W>(f: Fst<W>, s: nat) {
    s < |f.states| && f.states[s].finalWeight.Some?
  }

  // ---------------------------------------------------------------- paths

  ghost predicate IsPath<W>(f: Fst<W>, s: nat, p: seq<Edge>, t: nat)
    decreases |p|
  {
    if p == [] then s == t && s < |f.states|
    else IsEdge(f, p[0]) && p[0].src == s && IsPath(f, Arc(f, p[0]).nextstate, p[1..], t)
  }

  ghost predicate Reach<W>(f: Fst<W>, s: nat, t: nat) {
    exists p :: IsPath(f, s, p, t)
  }

  ghost predicate CoReach<W>(f: Fst<W>, s: nat) {
    exists t :: Reach(f, s, t) && IsFinal(f, t)
  }

  ghost predicate Accessible<W>(f: Fst<W>, s: nat) {
    f.start.Some? && Reach(f, f.start.value, s)
  }

  /** A path from the start state to a final one. */
  ghost predicate Successful<W>(f: Fst<W>, p: seq<Edge>, t: nat) {
    f.start.Some? && IsPath(f, f.start.value, p, t) && IsFinal(f, t)
  }

  lemma {:induction false} PathConcat<W>(f: Fst<W>, s: nat, p: seq<Edge>, m: nat, q: seq<Edge>, t: nat)
    requires IsPath(f, s, p, m) && IsPath(f, m, q, t)
    ensures IsPath(f, s, p + q, t)
    decreases |p|
  {
    if p == [] {
      assert p + q == q;
    } else {
      PathConcat(f, Arc(f, p[0]).nextstate, p[1..], m, q, t);
      assert (p + q)[1..] == p[1..] + q;
    }
  }

  lemma {:induction false} PathSplit<W>(f: Fst<W>, s: nat, p: seq<Edge>, q: seq<Edge>, t: nat) returns (m: nat)
    requires IsPath(f, s, p + q, t) && WellFormed(f) && s < |f.states|
    ensures IsPath(f, s, p, m) && IsPath(f, m, q, t)
    decreases |p|
  {
    if p == [] {
      assert p + q == q;
      m := s;
    } else {
      assert (p + q)[1..] == p[1..] + q;
      m := PathSplit(f, Arc(f, p[0]).nextstate, p[1..], q, t);
    }
  }

  lemma ReachRefl<W>(f: Fst<W>, s: nat)
    requires s < |f.states|
    ensures Reach(f, s, s)
  {
    assert IsPath(f, s, [], s);
  }

  lemma ReachPath<W>(f: Fst<W>, s: nat, t: nat) returns (p: seq<Edge>)
    requires Reach(f, s, t)
    ensures IsPath(f, s, p, t)
  {
    p :| IsPath(f, s, p, t);
  }

  lemma ReachEdge<W>(f: Fst<W>, s: nat, i: nat)
    requires WellFormed(f) && s < |f.states| && i < |f.states[s].trs|
    ensures Reach(f, s, f.states[s].trs[i].nextstate)
  {
    var t := f.states[s].trs[i].nextstate;
    assert IsPath(f, t, [], t);
    assert IsPath(f, s, [Edge(s, i)], t);
  }

  lemma ReachTrans<W>(f: Fst<W>, s: nat, m: nat, t: nat)
    requires Reach(f, s, m) && Reach(f, m, t)
    ensures Reach(f, s, t)
  {
    var p :| IsPath(f, s, p, m);
    var q :| IsPath(f, m, q, t);
    PathConcat(f, s, p, m, q, t);
  }

  lemma CoReachBack<W>(f: Fst<W>, s: nat, t: nat)
    requires Reach(f, s, t) && CoReach(f, t)
    ensures CoReach(f, s)
  {
    var u :| Reach(f, t, u) && IsFinal(f, u);
    ReachTrans(f, s, t, u);
  }

  lemma CoReachFinal<W>(f: Fst<W>, s: nat)
    requires IsFinal(f, s)
    ensures CoReach(f, s)
  {
    ReachRefl(f, s);
  }

  /** A set that every arc stays inside is left by no path. */
  lemma {:induction false} ClosedPath<W>(f: Fst<W>, inside: set<nat>, s: nat, p: seq<Edge>, t: nat)
    requires forall u, i :: u in inside && u < |f.states| && 0 <= i < |f.states[u].trs|
                            ==> f.states[u].trs[i].nextstate in inside
    requires s in inside && IsPath(f, s, p, t)
    ensures t in inside
    decreases |p|
  {
    if p != [] {
      ClosedPath(f, inside, Arc(f, p[0]).nextstate, p[1..], t);
    }
  }

  // ------------------------------------------------ cycles

  ghost predicate Acyclic<W>(f: Fst<W>) {
    forall s, p :: p != [] ==> !IsPath(f, s, p, s)
  }

  ghost predicate TopSorted<W>(f: Fst<W>) {
    forall s, i :: 0 <= s < |f.states| && 0 <= i < |f.states[s].trs| ==> s < f.states[s].trs[i].nextstate
  }

  // ------------------------------------------------ finite sets

  lemma SubsetSize<T>(a: set<T>, b: set<T>)
    requires a <= b
    ensures |a| <= |b|
  {
    assert b == a + (b - a);
  }
}
