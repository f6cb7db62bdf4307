/** Machines with the same states and arcs under other numbers and in another order have the same property bits. */
module SimilarMachines {
  import opened Fsts
  import opened Acceptors
  import opened Properties
  import opened PropertyBits
  import opened Weights

  /** State `s` of `f` is state `at[s]` of `g`, which has every arc of it. */
  ghost predicate Simulates(f: Fst<Weight>, at: seq<nat>, g: Fst<Weight>) {
    && |at| == |f.states| && (forall s :: 0 <= s < |at| ==> at[s] < |g.states|)
    && (f.start.None? ==> g.start.None?)
    && (f.start.Some? ==> f.start.value < |at| && g.start == Some(at[f.start.value]))
    && (forall s :: 0 <= s < |at| ==> g.states[at[s]].finalWeight == f.states[s].finalWeight)
    && forall e :: IsEdge(f, e) ==> HasCopy(f, at, g, e)
  }

  ghost predicate HasCopy(f: Fst<Weight>, at: seq<nat>, g: Fst<Weight>, e: Edge)
    requires IsEdge(f, e)
  {
    exists d :: CopyOf(f, at, g, e, d)
  }

  ghost predicate CopyOf(f: Fst<Weight>, at: seq<nat>, g: Fst<Weight>, e: Edge, d: Edge)
    requires IsEdge(f, e)
  {
    && IsEdge(g, d) && e.src < |at| && d.src == at[e.src] && Arc(f, e).nextstate < |at|
    && Arc(g, d) == Arc(f, e).(nextstate := at[Arc(f, e).nextstate])
  }

  lemma CopyEdge(f: Fst<Weight>, at: seq<nat>, g: Fst<Weight>, e: Edge) returns (d: Edge)
    requires Simulates(f, at, g) && IsEdge(f, e)
    ensures CopyOf(f, at, g, e, d)
  {
    assert HasCopy(f, at, g, e);
    d :| CopyOf(f, at, g, e, d);
  }

  lemma {:induction false} CopyPath(f: Fst<Weight>, at: seq<nat>, g: Fst<Weight>, s: nat, p: seq<Edge>, t: nat)
    returns (q: seq<Edge>)
    requires Simulates(f, at, g) && IsPath(f, s, p, t)
    ensures s < |at| && t < |at| && IsPath(g, at[s], q, at[t]) && |q| == |p|
    decreases |p|
  {
    if p == [] {
      q := [];
    } else {
      var d := CopyEdge(f, at, g, p[0]);
      var rest := CopyPath(f, at, g, Arc(f, p[0]).nextstate, p[1..], t);
      q := [d] + rest;
      assert q[1..] == rest;
    }
  }

  lemma CopyReach(f: Fst<Weight>, at: seq<nat>, g: Fst<Weight>, s: nat, t: nat)
    requires Simulates(f, at, g) && Reach(f, s, t)
    ensures s < |at| && t < |at| && Reach(g, at[s], at[t])
  {
    var p := ReachPath(f, s, t);
    var q := CopyPath(f, at, g, s, p, t);
  }

  /** What `g` has not, `f` has not either. */
  lemma LabelsShared(f: Fst<Weight>, at: seq<nat>, g: Fst<Weight>)
    requires Simulates(f, at, g)
    ensures IsAcceptor(g) ==> IsAcceptor(f)
    ensures NoEpsilons(g) ==> NoEpsilons(f)
    ensures NoInputEpsilons(g) ==> NoInputEpsilons(f)
    ensures NoOutputEpsilons(g) ==> NoOutputEpsilons(f)
    ensures IsUnweighted(g) ==> IsUnweighted(f)
  {
    forall s, i | 0 <= s < |f.states| && 0 <= i < |f.states[s].trs|
      ensures at[s] < |g.states|
      ensures exists j :: 0 <= j < |g.states[at[s]].trs| && SameTrBut(g.states[at[s]].trs[j], f.states[s].trs[i])
    {
      var d := CopyEdge(f, at, g, Edge(s, i));
      assert SameTrBut(g.states[at[s]].trs[d.pos], f.states[s].trs[i]);
    }
  }

  predicate SameTrBut(a: Tr<Weight>, b: Tr<Weight>) {
    a.ilabel == b.ilabel && a.olabel == b.olabel && a.weight == b.weight
  }

  lemma CyclesShared(f: Fst<Weight>, at: seq<nat>, g: Fst<Weight>)
    requires Simulates(f, at, g)
    ensures Acyclic(g) ==> Acyclic(f)
    ensures InitialAcyclic(g) ==> InitialAcyclic(f)
    ensures CyclesUnweighted(g) ==> CyclesUnweighted(f)
  {
    forall s: nat, p | p != [] && IsPath(f, s, p, s)
      ensures s < |at| && exists q :: q != [] && IsPath(g, at[s], q, at[s]) {
      var q := CopyPath(f, at, g, s, p, s);
    }
    forall e | IsEdge(f, e) && Reach(f, Arc(f, e).nextstate, e.src)
      ensures exists d :: IsEdge(g, d) && Arc(g, d).weight == Arc(f, e).weight && Reach(g, Arc(g, d).nextstate, d.src)
    {
      var d := CopyEdge(f, at, g, e);
      CopyReach(f, at, g, Arc(f, e).nextstate, e.src);
    }
  }

  /** What is reachable in `f` is so in `g`. */
  lemma AccessShared(f: Fst<Weight>, at: seq<nat>, g: Fst<Weight>)
    requires Simulates(f, at, g) && forall x :: 0 <= x < |g.states| ==> x in at
    ensures AllAccessible(f) ==> AllAccessible(g)
    ensures AllCoAccessible(f) ==> AllCoAccessible(g)
  {
    if AllAccessible(f) {
      forall x: nat | x < |g.states| ensures Accessible(g, x) {
        assert x in at;
        var s :| 0 <= s < |at| && at[s] == x;
        assert Accessible(f, s);
        CopyReach(f, at, g, f.start.value, s);
      }
    }
    if AllCoAccessible(f) {
      forall x: nat | x < |g.states| ensures CoReach(g, x) {
        assert x in at;
        var s :| 0 <= s < |at| && at[s] == x;
        assert CoReach(f, s);
        var t: nat :| Reach(f, s, t) && IsFinal(f, t);
        CopyReach(f, at, g, s, t);
      }
    }
  }

  /** Either machine simulates the other, and no state is left out. */
  ghost predicate Similar(f: Fst<Weight>, at: seq<nat>, g: Fst<Weight>, back: seq<nat>) {
    && Simulates(f, at, g) && Simulates(g, back, f)
    && (forall x :: 0 <= x < |g.states| ==> x in at) && forall s :: 0 <= s < |f.states| ==> s in back
  }

  ghost predicate SameFacts(f: Fst<Weight>, g: Fst<Weight>) {
    && IsAcceptor(f) == IsAcceptor(g) && NoEpsilons(f) == NoEpsilons(g)
    && NoInputEpsilons(f) == NoInputEpsilons(g) && NoOutputEpsilons(f) == NoOutputEpsilons(g)
    && IsUnweighted(f) == IsUnweighted(g) && Acyclic(f) == Acyclic(g) && InitialAcyclic(f) == InitialAcyclic(g)
    && CyclesUnweighted(f) == CyclesUnweighted(g) && AllAccessible(f) == AllAccessible(g)
    && AllCoAccessible(f) == AllCoAccessible(g)
  }

  lemma SimilarFacts(f: Fst<Weight>, at: seq<nat>, g: Fst<Weight>, back: seq<nat>)
    requires Similar(f, at, g, back)
    ensures SameFacts(f, g)
  {
    hide IsAcceptor, NoEpsilons, NoInputEpsilons, NoOutputEpsilons, IsUnweighted, Acyclic, InitialAcyclic,
         CyclesUnweighted, AllAccessible, AllCoAccessible, Simulates;
    LabelsShared(f, at, g);
    LabelsShared(g, back, f);
    CyclesShared(f, at, g);
    CyclesShared(g, back, f);
    AccessShared(f, at, g);
    AccessShared(g, back, f);
  }
}
