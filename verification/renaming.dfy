/** Renumbering the states of a machine. */
module Renamings {
  import opened Acceptors
  import opened Fsts
  import opened Properties
  import opened PropertyBits
  import opened SimilarMachines
  import opened Trims
  import opened Weights

  ghost predicate IsPermutation(order: seq<nat>, n: nat) {
    && |order| == n && (forall s :: 0 <= s < n ==> order[s] < n)
    && forall s, t :: 0 <= s < t < n ==> order[s] != order[t]
  }

  function MapTr(order: seq<nat>, tr: Tr<Weight>): Tr<Weight>
    requires tr.nextstate < |order|
  {
    tr.(nextstate := order[tr.nextstate])
  }

  function MapTrs(order: seq<nat>, trs: seq<Tr<Weight>>): (r: seq<Tr<Weight>>)
    requires forall i :: 0 <= i < |trs| ==> trs[i].nextstate < |order|
    ensures |r| == |trs| && forall i :: 0 <= i < |trs| ==> r[i] == MapTr(order, trs[i])
  {
    seq(|trs|, i requires 0 <= i < |trs| => MapTr(order, trs[i]))
  }

  function MapState(order: seq<nat>, state: State<Weight>): State<Weight>
    requires TargetsBelow(order, state)
  {
    State(state.finalWeight, MapTrs(order, state.trs))
  }

  predicate TargetsBelow(order: seq<nat>, state: State<Weight>) {
    forall i :: 0 <= i < |state.trs| ==> state.trs[i].nextstate < |order|
  }

  /** State `order[s]` of `g` is state `s` of `f` with its targets renumbered. */
  ghost predicate Renamed(f: Fst<Weight>, order: seq<nat>, g: Fst<Weight>) {
    && WellFormed(f) && IsPermutation(order, |f.states|) && |g.states| == |f.states|
    && (forall s :: 0 <= s < |f.states|
         ==> TargetsBelow(order, f.states[s]) && g.states[order[s]] == MapState(order, f.states[s]))
    && g.start == match f.start { case Some(s) => Some(order[s]) case None => None }
  }

  // ------------------------------------------------ permutations

  lemma {:induction false} ImageSize(order: seq<nat>, k: nat) returns (image: set<nat>)
    requires k <= |order| && forall s, t :: 0 <= s < t < |order| ==> order[s] != order[t]
    ensures |image| == k && forall x :: x in image <==> x in order[..k]
  {
    if k == 0 {
      image := {};
    } else {
      var before := ImageSize(order, k - 1);
      assert order[..k] == order[..k-1] + [order[k-1]];
      image := before + {order[k-1]};
    }
  }

  lemma {:induction false} RangeSize(n: nat) returns (range: set<nat>)
    ensures |range| == n && forall x: nat :: x in range <==> x < n
  {
    if n == 0 {
      range := {};
    } else {
      var before := RangeSize(n - 1);
      range := before + {n - 1};
    }
  }

  /** A permutation leaves out no state. */
  lemma Preimage(order: seq<nat>, x: nat) returns (p: nat)
    requires IsPermutation(order, |order|) && x < |order|
    ensures p < |order| && order[p] == x
  {
    var n := |order|;
    var image := ImageSize(order, n);
    var range := RangeSize(n);
    assert order[..n] == order;
    if x !in order {
      assert image <= range - {x};
      SubsetSize(image, range - {x});
      assert false;
    }
    p :| 0 <= p < n && order[p] == x;
  }

  // ------------------------------------------------ paths

  function RenameEdge(order: seq<nat>, e: Edge): Edge
    requires e.src < |order|
  {
    Edge(order[e.src], e.pos)
  }

  ghost predicate MapsTo(order: seq<nat>, p: seq<Edge>, q: seq<Edge>) {
    |p| == |q| && forall k :: 0 <= k < |p| ==> p[k].src < |order| && q[k] == RenameEdge(order, p[k])
  }

  /** Every path is found again under the new numbers, with its trace. */
  lemma {:induction false} RenamedPath(f: Fst<Weight>, order: seq<nat>, g: Fst<Weight>, s: nat, p: seq<Edge>, t: nat)
    returns (q: seq<Edge>)
    requires Renamed(f, order, g) && IsPath(f, s, p, t)
    ensures s < |order| && t < |order| && IsPath(g, order[s], q, order[t]) && MapsTo(order, p, q)
            && SameTrace(f, p, g, q)
    decreases |p|
  {
    hide Renamed, MapsTo, SameTrace, RenameEdge;
    RenamedNone(f, order, g, s);
    if p == [] {
      q := [];
    } else {
      var e := RenamedEdge(f, order, g, p[0]);
      var rest := RenamedPath(f, order, g, Arc(f, p[0]).nextstate, p[1..], t);
      MapsCons(order, p, rest);
      TraceCons(f, p, g, e, rest);
      q := [e] + rest;
      assert q[1..] == rest;
    }
  }

  lemma RenamedNone(f: Fst<Weight>, order: seq<nat>, g: Fst<Weight>, s: nat)
    requires Renamed(f, order, g)
    ensures MapsTo(order, [], []) && SameTrace(f, [], g, [])
    ensures s < |f.states| ==> s < |order| && order[s] < |g.states|
  {
  }

  lemma MapsCons(order: seq<nat>, p: seq<Edge>, rest: seq<Edge>)
    requires p != [] && p[0].src < |order| && MapsTo(order, p[1..], rest)
    ensures MapsTo(order, p, [RenameEdge(order, p[0])] + rest)
  {
    var q := [RenameEdge(order, p[0])] + rest;
    forall k | 0 <= k < |p| ensures p[k].src < |order| && q[k] == RenameEdge(order, p[k]) {
      if k > 0 {
        assert p[k] == p[1..][k-1] && q[k] == rest[k-1];
      }
    }
  }

  lemma RenamedEdge(f: Fst<Weight>, order: seq<nat>, g: Fst<Weight>, d: Edge) returns (e: Edge)
    requires Renamed(f, order, g) && IsEdge(f, d)
    ensures d.src < |order| && e == RenameEdge(order, d) && e.src == order[d.src] && IsEdge(g, e) && SameArc(f, d, g, e)
    ensures Arc(f, d).nextstate < |order| && Arc(g, e).nextstate == order[Arc(f, d).nextstate]
  {
    e := RenameEdge(order, d);
    assert g.states[order[d.src]] == MapState(order, f.states[d.src]);
  }

  /** And there are no others. */
  lemma {:induction false} RenamedFrom(f: Fst<Weight>, order: seq<nat>, g: Fst<Weight>, s: nat, q: seq<Edge>, y: nat)
    returns (p: seq<Edge>, t: nat)
    requires Renamed(f, order, g) && s < |f.states| && IsPath(g, order[s], q, y)
    ensures IsPath(f, s, p, t) && t < |f.states| && y == order[t] && MapsTo(order, p, q) && SameTrace(f, p, g, q)
    decreases |q|
  {
    hide Renamed, MapsTo, SameTrace, RenameEdge;
    RenamedNone(f, order, g, s);
    if q == [] {
      p, t := [], s;
      SameNumber(f, order, g, s);
    } else {
      var e := EdgeFrom(f, order, g, s, q[0]);
      var rest;
      rest, t := RenamedFrom(f, order, g, Arc(f, e).nextstate, q[1..], y);
      p := [e] + rest;
      assert p[1..] == rest && q == [q[0]] + q[1..];
      MapsCons(order, p, q[1..]);
      TraceCons(f, p, g, q[0], q[1..]);
    }
  }

  lemma SameNumber(f: Fst<Weight>, order: seq<nat>, g: Fst<Weight>, s: nat)
    requires Renamed(f, order, g) && s < |f.states|
    ensures s < |order|
  {
  }

  lemma EdgeFrom(f: Fst<Weight>, order: seq<nat>, g: Fst<Weight>, s: nat, d: Edge) returns (e: Edge)
    requires Renamed(f, order, g) && s < |f.states| && s < |order| && IsEdge(g, d) && d.src == order[s]
    ensures IsEdge(f, e) && e.src == s && d == RenameEdge(order, e) && SameArc(f, e, g, d)
    ensures Arc(f, e).nextstate < |order| == |f.states| && Arc(g, d).nextstate == order[Arc(f, e).nextstate]
  {
    assert g.states[order[s]] == MapState(order, f.states[s]);
    e := Edge(s, d.pos);
  }

  /** A successful path stays one, with its trace and final weight ... */
  lemma RenamedSuccess(f: Fst<Weight>, order: seq<nat>, g: Fst<Weight>, p: seq<Edge>, t: nat) returns (q: seq<Edge>)
    requires Renamed(f, order, g) && Successful(f, p, t)
    ensures t < |order| && Successful(g, q, order[t]) && MapsTo(order, p, q) && SameTrace(f, p, g, q)
    ensures g.states[order[t]].finalWeight == f.states[t].finalWeight
  {
    q := RenamedPath(f, order, g, f.start.value, p, t);
    assert g.states[order[t]] == MapState(order, f.states[t]);
  }

  /** ... and comes from one. */
  lemma SuccessRenamed(f: Fst<Weight>, order: seq<nat>, g: Fst<Weight>, q: seq<Edge>, y: nat)
    returns (p: seq<Edge>, t: nat)
    requires Renamed(f, order, g) && Successful(g, q, y)
    ensures Successful(f, p, t) && t < |order| && y == order[t] && MapsTo(order, p, q) && SameTrace(f, p, g, q)
  {
    p, t := RenamedFrom(f, order, g, f.start.value, q, y);
    assert g.states[order[t]] == MapState(order, f.states[t]);
  }

  // ------------------------------------------------ property bits

  lemma {:induction false} Inverse(order: seq<nat>, k: nat) returns (back: seq<nat>)
    requires IsPermutation(order, |order|) && k <= |order|
    ensures |back| == k && forall x :: 0 <= x < k ==> back[x] < |order| && order[back[x]] == x
  {
    if k == 0 {
      back := [];
    } else {
      back := Inverse(order, k - 1);
      var s := Preimage(order, k - 1);
      back := back + [s];
    }
  }

  lemma RenamedWellFormed(f: Fst<Weight>, order: seq<nat>, g: Fst<Weight>, back: seq<nat>)
    requires Renamed(f, order, g) && IsInverse(order, back)
    ensures WellFormed(g) && IsPermutation(back, |g.states|) && IsInverse(back, order)
    ensures forall x :: 0 <= x < |g.states| ==> g.states[x] == MapState(order, f.states[back[x]])
  {
    hide MapState;
    forall x | 0 <= x < |g.states| ensures g.states[x] == MapState(order, f.states[back[x]]) {
      assert order[back[x]] == x;
    }
    forall s | 0 <= s < |order| ensures back[order[s]] == s {
      assert order[back[order[s]]] == order[s];
    }
    MappedTargets(f, order, g, back);
  }

  lemma MappedTargets(f: Fst<Weight>, order: seq<nat>, g: Fst<Weight>, back: seq<nat>)
    requires Renamed(f, order, g) && IsInverse(order, back)
    requires forall x :: 0 <= x < |g.states| ==>
        TargetsBelow(order, f.states[back[x]]) && g.states[x] == MapState(order, f.states[back[x]])
    ensures WellFormed(g)
  {
    forall x, i | 0 <= x < |g.states| && 0 <= i < |g.states[x].trs| ensures g.states[x].trs[i].nextstate < |g.states| {
      assert g.states[x].trs[i] == MapTr(order, f.states[back[x]].trs[i]);
    }
  }

  ghost predicate IsInverse(order: seq<nat>, back: seq<nat>) {
    |back| == |order| && forall x :: 0 <= x < |back| ==> back[x] < |order| && order[back[x]] == x
  }

  /** Renaming can be undone. */
  lemma RenamedBack(f: Fst<Weight>, order: seq<nat>, g: Fst<Weight>) returns (back: seq<nat>)
    requires Renamed(f, order, g)
    ensures Renamed(g, back, f)
  {
    back := Inverse(order, |order|);
    RenamedWellFormed(f, order, g, back);
    forall x | 0 <= x < |g.states|
      ensures TargetsBelow(back, g.states[x]) && f.states[back[x]] == MapState(back, g.states[x]) {
      MapTwice(order, back, f.states[back[x]]);
    }
  }

  lemma MapTwice(order: seq<nat>, back: seq<nat>, state: State<Weight>)
    requires IsInverse(back, order) && |back| == |order| && TargetsBelow(order, state)
    ensures TargetsBelow(back, MapState(order, state)) && MapState(back, MapState(order, state)) == state
  {
    var once := MapState(order, state);
    forall i | 0 <= i < |once.trs| ensures once.trs[i].nextstate < |back| && MapTr(back, once.trs[i]) == state.trs[i] {
      assert back[order[state.trs[i].nextstate]] == state.trs[i].nextstate;
    }
    assert MapTrs(back, once.trs) == state.trs;
  }

  lemma RenamedSimulates(f: Fst<Weight>, order: seq<nat>, g: Fst<Weight>)
    requires Renamed(f, order, g)
    ensures Simulates(f, order, g) && forall x :: 0 <= x < |g.states| ==> x in order
  {
    forall e | IsEdge(f, e) ensures HasCopy(f, order, g, e) {
      var d := RenamedEdge(f, order, g, e);
      assert Arc(g, d) == MapTr(order, Arc(f, e));
      assert CopyOf(f, order, g, e, d);
    }
    forall s | 0 <= s < |order| ensures g.states[order[s]].finalWeight == f.states[s].finalWeight {
      assert g.states[order[s]] == MapState(order, f.states[s]);
    }
    forall x: nat | x < |g.states| ensures x in order {
      var s := Preimage(order, x);
      assert order[s] == x;
    }
  }

  /** The arcs of a state keep their places, so what depends on these passes over. */
  lemma RenamedOrder(f: Fst<Weight>, order: seq<nat>, g: Fst<Weight>)
    requires Renamed(f, order, g)
    ensures Deterministic(f) ==> Deterministic(g)
    ensures OutputDeterministic(f) ==> OutputDeterministic(g)
    ensures ILabelSorted(f) ==> ILabelSorted(g)
    ensures OLabelSorted(f) ==> OLabelSorted(g)
  {
    hide Renamed, MapState, SameLabelsInOrder, Deterministic, OutputDeterministic, ILabelSorted, OLabelSorted;
    forall x: nat | x < |g.states| ensures LabelsComeFrom(f, g.states[x].trs) {
      LabelsInPlace(f, order, g, x);
    }
    InputOrder(f, g);
    OutputOrder(f, g);
  }

  lemma LabelsInPlace(f: Fst<Weight>, order: seq<nat>, g: Fst<Weight>, x: nat)
    requires Renamed(f, order, g) && x < |g.states|
    ensures LabelsComeFrom(f, g.states[x].trs)
  {
    var s := Preimage(order, x);
    assert g.states[order[s]] == MapState(order, f.states[s]);
    assert SameLabelsInOrder(f.states[s].trs, g.states[x].trs);
  }

  lemma InputOrder(f: Fst<Weight>, g: Fst<Weight>)
    requires forall x :: 0 <= x < |g.states| ==> LabelsComeFrom(f, g.states[x].trs)
    ensures Deterministic(f) ==> Deterministic(g)
    ensures ILabelSorted(f) ==> ILabelSorted(g)
  {
    forall x | 0 <= x < |g.states|
      ensures Deterministic(f) ==> forall i, j :: 0 <= i < j < |g.states[x].trs| ==>
                g.states[x].trs[i].ilabel != g.states[x].trs[j].ilabel
      ensures ILabelSorted(f) ==> LabelSorted(g.states[x].trs)
    {
      var s :| 0 <= s < |f.states| && SameLabelsInOrder(f.states[s].trs, g.states[x].trs);
    }
  }

  lemma OutputOrder(f: Fst<Weight>, g: Fst<Weight>)
    requires forall x :: 0 <= x < |g.states| ==> LabelsComeFrom(f, g.states[x].trs)
    ensures OutputDeterministic(f) ==> OutputDeterministic(g)
    ensures OLabelSorted(f) ==> OLabelSorted(g)
  {
    forall x | 0 <= x < |g.states|
      ensures OutputDeterministic(f) ==> forall i, j :: 0 <= i < j < |g.states[x].trs| ==>
                g.states[x].trs[i].olabel != g.states[x].trs[j].olabel
      ensures OLabelSorted(f) ==> forall i, j :: 0 <= i < j < |g.states[x].trs| ==>
                g.states[x].trs[i].olabel <= g.states[x].trs[j].olabel
    {
      var s :| 0 <= s < |f.states| && SameLabelsInOrder(f.states[s].trs, g.states[x].trs);
    }
  }

  ghost predicate LabelsComeFrom(f: Fst<Weight>, trs: seq<Tr<Weight>>) {
    exists s :: 0 <= s < |f.states| && SameLabelsInOrder(f.states[s].trs, trs)
  }

  predicate SameLabelsInOrder(a: seq<Tr<Weight>>, b: seq<Tr<Weight>>) {
    |a| == |b| && forall i :: 0 <= i < |a| ==> a[i].ilabel == b[i].ilabel && a[i].olabel == b[i].olabel
  }

  ghost predicate SameOrder(f: Fst<Weight>, g: Fst<Weight>) {
    && Deterministic(f) == Deterministic(g) && OutputDeterministic(f) == OutputDeterministic(g)
    && ILabelSorted(f) == ILabelSorted(g) && OLabelSorted(f) == OLabelSorted(g)
  }

  lemma RenamedBit(f: Fst<Weight>, g: Fst<Weight>, p: Property)
    requires SameFacts(f, g) && SameOrder(f, g) && p in STATESORT_PROPERTIES && Holds(f, p)
    ensures Holds(g, p)
  {
    hide IsAcceptor, Deterministic, OutputDeterministic, NoEpsilons, NoInputEpsilons, NoOutputEpsilons, ILabelSorted,
         OLabelSorted, IsUnweighted, CyclesUnweighted, AllCoAccessible, AllAccessible, IsString, TopSorted, Acyclic,
         InitialAcyclic;
  }

  lemma RenamedWell(f: Fst<Weight>, order: seq<nat>, g: Fst<Weight>)
    requires Renamed(f, order, g)
    ensures WellFormed(g)
  {
    var back := RenamedBack(f, order, g);
  }

  /** The bits that `state_sort` lets through are as true of the renamed machine. */
  lemma RenamedKeeps(f: Fst<Weight>, order: seq<nat>, g: Fst<Weight>, props: set<Property>)
    requires Renamed(f, order, g) && BitsTrue(f, props)
    ensures BitsTrue(g, props * STATESORT_PROPERTIES) && WellFormed(g)
  {
    hide IsAcceptor, Deterministic, OutputDeterministic, NoEpsilons, NoInputEpsilons, NoOutputEpsilons, ILabelSorted,
         OLabelSorted, IsUnweighted, CyclesUnweighted, AllCoAccessible, AllAccessible, Acyclic, InitialAcyclic, Holds,
         Simulates, STATESORT_PROPERTIES;
    var back := RenamedBack(f, order, g);
    RenamedSimulates(f, order, g);
    RenamedSimulates(g, back, f);
    SimilarFacts(f, order, g, back);
    RenamedOrder(f, order, g);
    RenamedOrder(g, back, f);
    forall p | p in props * STATESORT_PROPERTIES ensures Holds(g, p) {
      RenamedBit(f, g, p);
    }
  }
}
