/** `shortest_path_with_config` for more than one path: search the reversed machine, guided by exact distances. */
module BestPaths {
  import opened Fsts
  import opened Heaps
  import opened NBests
  import opened NShortestPaths
  import opened Properties
  import opened Relaxations
  import opened Reverses
  import opened ShortestDistances
  import opened Trims
  import opened VectorFsts
  import opened Weights

  /** The start state and the one final state of the output. */
  method InitOutput(fst: VectorFst)
    requires fst.states == []
    modifies fst
    ensures fst.start == Some(0) && fst.states == [State(None, []), State(Some(ONE), [])]
            && ACCESSIBLE !in fst.properties
  {
    hide AddStateProperties, SetStartProperties, SetFinalProperties, AddTrProperties;
    var ostart := fst.AddState();
    fst.SetStart(ostart);
    StillUnmarked(fst.properties, 0, Tr(EPS_LABEL, EPS_LABEL, ONE, 0));
    var finalState := fst.AddState();
    FinalUnmarked(fst.properties, None, Some(ONE));
    fst.SetFinal(finalState, Some(ONE));
  }

  lemma FinalUnmarked(props: set<Property>, was: Option<Weight>, now: Option<Weight>)
    requires ACCESSIBLE !in props
    ensures ACCESSIBLE !in SetFinalProperties(props, was, now)
  {
  }

  /** The guarded search on the reversed machine `r`; `o` is the machine before it is trimmed. */
  method NShortestPath(r: Fst<Weight>, distance: seq<Weight>, nshortest: nat)
    returns (fst: VectorFst, ghost t: Tree, ghost o: Fst<Weight>)
    requires WellFormed(r) && Exact(r, distance) && (r.start.Some? ==> r.start.value < |r.states|)
    ensures fresh(fst)
    ensures if nshortest == 0 || r.start.None? || At(distance, r.start.value) == ZERO then fst.Value() == Fst([], None)
            else Found(r, r.start.value, distance, nshortest, t, o) && IsTrimmed(o, Useless(o), fst.Value())
  {
    hide Exact, WellFormed, NBest, OutShape, AllReal, Found, IsTrimmed, Useless;
    t, o := Seedling(0), Fst([], None);
    fst := new VectorFst(Fst([], None), NULL_PROPERTIES);
    if nshortest == 0 {
      return;
    }
    if r.start.None? || |distance| <= r.start.value || distance[r.start.value] == ZERO {
      return;
    }
    var istart := r.start.value;
    InitOutput(fst);
    t := Search(r, istart, distance, nshortest, fst);
    o := fst.Value();
    FoundOutput(r, istart, distance, nshortest, t, o);
    Connect(fst);
  }

  /** The outcome of the search with the machine that spells it. */
  ghost predicate Found(r: Fst<Weight>, s0: nat, h: seq<Weight>, n: nat, t: Tree, o: Fst<Weight>) {
    && NBest(r, s0, h, n, t) && AllReal(r, s0, t) && OutShape(r, t.nodes, t.emitted, o.states) && o.start == Some(0)
      && WellFormed(o)
  }

  lemma FoundOutput(r: Fst<Weight>, s0: nat, h: seq<Weight>, n: nat, t: Tree, o: Fst<Weight>)
    requires NBest(r, s0, h, n, t) && AllReal(r, s0, t) && OutShape(r, t.nodes, t.emitted, o.states)
             && o.start == Some(0)
    ensures Found(r, s0, h, n, t, o) && WellFormed(o)
  {
    OutWellFormed(r, s0, t, o);
  }

  // ------------------------------------------------ the guiding distances

  /** The least of the first `k` super-initial arcs, each followed by the distance of its state. */
  function Entry(r: Fst<Weight>, distance: seq<Weight>, k: nat): Weight
    requires r.states != [] && k <= |r.states[0].trs| && SuperInitial(r)
  {
    if k == 0 then ZERO
    else Plus(Entry(r, distance, k - 1), Times(r.states[0].trs[k-1].weight,
                                               At(distance, r.states[0].trs[k-1].nextstate - 1)))
  }

  lemma {:induction false} EntryLeast(r: Fst<Weight>, distance: seq<Weight>, k: nat)
    requires r.states != [] && k <= |r.states[0].trs| && SuperInitial(r)
    ensures forall i :: 0 <= i < k ==> Leq(Entry(r, distance, k), EntryAt(r, distance, i))
    ensures Entry(r, distance, k) != ZERO ==> exists i :: 0 <= i < k && Entry(r, distance, k) == EntryAt(r, distance, i)
  {
    if k > 0 {
      EntryLeast(r, distance, k - 1);
      assert EntryAt(r, distance, k - 1) == Times(r.states[0].trs[k-1].weight,
                                                  At(distance, r.states[0].trs[k-1].nextstate - 1));
    }
  }

  function EntryAt(r: Fst<Weight>, distance: seq<Weight>, i: nat): Weight
    requires r.states != [] && i < |r.states[0].trs| && r.states[0].trs[i].nextstate >= 1
  {
    Times(r.states[0].trs[i].weight, At(distance, r.states[0].trs[i].nextstate - 1))
  }

  /** Forward distances, shifted, with the least total in front, are the exact completion distances of
      the reversed machine. */
  lemma GuideExact(f: Fst<Weight>, r: Fst<Weight>, distance: seq<Weight>, d: Weight)
    requires WellFormed(f) && IsReverse(f, r) && Guides(f, distance) && SuperInitial(r)
             && d == Entry(r, distance, |r.states[0].trs|)
    ensures Exact(r, [d] + distance)
  {
    hide IsReverse, IsDistance, IsCompletionDistance, WellFormed;
    var h := [d] + distance;
    ReverseSize(f, r);
    forall x | 0 <= x < |r.states| ensures IsCompletionDistance(r, x, At(h, x)) {
      if x == 0 {
        GuideStart(f, r, distance, d);
      } else {
        assert At(h, x) == At(distance, x - 1);
        GuideState(f, r, distance, x - 1, x);
      }
    }
  }

  /** The final states of the reversed machine. */
  lemma ReverseFinal(f: Fst<Weight>, r: Fst<Weight>, u: nat)
    requires IsReverse(f, r) && IsFinal(r, u)
    ensures u >= 1 && f.start == Some(u - 1) && FinalWeight(r, u) == ONE
  {
  }

  lemma GuideState(f: Fst<Weight>, r: Fst<Weight>, distance: seq<Weight>, v: nat, x: nat)
    requires WellFormed(f) && IsReverse(f, r) && v < |f.states| && x == v + 1
    requires f.start.None? ==> distance == []
    requires f.start.Some? ==> IsDistance(f, f.start.value, v, At(distance, v))
    ensures IsCompletionDistance(r, x, At(distance, v))
  {
    hide IsReverse, WellFormed, FinalWeight, Mirrors;
    var d := At(distance, v);
    forall q: seq<Edge>, u: nat, w | Completes(r, x, q, u, w) ensures Leq(d, w) {
      ReverseFinal(f, r, u);
      var s, p := PathUnreversed(f, r, v, q, u);
    }
    if d != ZERO {
      GuideWitness(f, r, v, x, d);
    }
  }

  lemma GuideWitness(f: Fst<Weight>, r: Fst<Weight>, v: nat, x: nat, d: Weight)
    requires WellFormed(f) && IsReverse(f, r) && v < |f.states| && x == v + 1 && f.start.Some?
             && Witnessed(f, f.start.value, v, d)
    ensures exists q, u :: Completes(r, x, q, u, d)
  {
    var p :| IsPath(f, f.start.value, p, v) && Cost(f, f.start.value, p, v) == d;
    var q := PathReversed(f, r, f.start.value, p, v);
    assert Completes(r, x, q, f.start.value + 1, d);
  }

  ghost predicate Guides(f: Fst<Weight>, distance: seq<Weight>) {
    && (f.start.None? ==> distance == [])
    && (f.start.Some? ==> forall v :: 0 <= v < |f.states| ==> IsDistance(f, f.start.value, v, At(distance, v)))
  }

  ghost predicate SuperInitial(r: Fst<Weight>) {
    r.states != [] && forall i :: 0 <= i < |r.states[0].trs| ==> 1 <= r.states[0].trs[i].nextstate < |r.states|
  }

  lemma GuideStart(f: Fst<Weight>, r: Fst<Weight>, distance: seq<Weight>, d: Weight)
    requires WellFormed(f) && IsReverse(f, r) && Guides(f, distance) && SuperInitial(r)
             && d == Entry(r, distance, |r.states[0].trs|)
    ensures IsCompletionDistance(r, 0, d)
  {
    hide IsReverse, IsDistance, WellFormed;
    EntryLeast(r, distance, |r.states[0].trs|);
    ReverseSize(f, r);
    hide Completes, EntryAt, Guides, SuperInitial;
    forall q: seq<Edge>, u: nat, w | Completes(r, 0, q, u, w) ensures Leq(d, w) {
      GuideBound(f, r, distance, d, q, u, w);
    }
    if d != ZERO {
      var i :| 0 <= i < |r.states[0].trs| && d == EntryAt(r, distance, i);
      var q, u := GuideEntry(f, r, distance, d, i);
    }
  }

  lemma GuideBound(f: Fst<Weight>, r: Fst<Weight>, distance: seq<Weight>, d: Weight, q: seq<Edge>, u: nat, w: Weight)
    requires WellFormed(f) && IsReverse(f, r) && Guides(f, distance) && SuperInitial(r) && Completes(r, 0, q, u, w)
    requires forall i :: 0 <= i < |r.states[0].trs| ==> Leq(d, EntryAt(r, distance, i))
    ensures Leq(d, w)
  {
    hide IsReverse, IsDistance, WellFormed;
    ReverseSize(f, r);
    ReverseFinal(f, r, u);
    var i := q[0].pos;
    var x := r.states[0].trs[i].nextstate;
    GuideState(f, r, distance, x - 1, x);
    assert Completes(r, x, q[1..], u, Times(Cost(r, x, q[1..], u), FinalWeight(r, u)));
    assert Leq(d, EntryAt(r, distance, i));
  }

  lemma GuideEntry(f: Fst<Weight>, r: Fst<Weight>, distance: seq<Weight>, d: Weight, i: nat)
    returns (q: seq<Edge>, u: nat)
    requires WellFormed(f) && IsReverse(f, r) && Guides(f, distance) && SuperInitial(r) && d != ZERO
    requires i < |r.states[0].trs| && d == EntryAt(r, distance, i)
    ensures Completes(r, 0, q, u, d)
  {
    hide IsReverse, IsDistance, WellFormed;
    ReverseSize(f, r);
    var x := r.states[0].trs[i].nextstate;
    GuideState(f, r, distance, x - 1, x);
    var p;
    p, u :| Completes(r, x, p, u, At(distance, x - 1));
    q := [Edge(0, i)] + p;
    assert q[1..] == p;
  }

  lemma ReverseSize(f: Fst<Weight>, r: Fst<Weight>)
    requires IsReverse(f, r)
    ensures |r.states| == |f.states| + 1
  {
  }

  // ------------------------------------------------ the paths of the original machine

  /** A successful path and the final state it ends in. */
  type Route = (seq<Edge>, nat)

  /** The `n` best routes: successful, distinct, lightest first, and every other successful route is no lighter
      than the last of `n`. */
  ghost predicate Best(f: Fst<Weight>, n: nat, best: seq<Route>) {
    && |best| <= n
    && (forall i :: 0 <= i < |best| ==> Successful(f, best[i].0, best[i].1))
    && (forall i, j :: 0 <= i < j < |best| ==> Follows(f, best[i], best[j]))
    && forall p, u: nat :: Successful(f, p, u) ==> (p, u) in best || LastBeats(f, n, best, Total(f, p, u))
  }

  ghost predicate Follows(f: Fst<Weight>, a: Route, b: Route) {
    a != b && Successful(f, a.0, a.1) && Successful(f, b.0, b.1) && Leq(Total(f, a.0, a.1), Total(f, b.0, b.1))
  }

  ghost predicate LastBeats(f: Fst<Weight>, n: nat, best: seq<Route>, w: Weight) {
    |best| == n > 0 && Successful(f, best[n-1].0, best[n-1].1) && Leq(Total(f, best[n-1].0, best[n-1].1), w)
  }

  /** Route `b` unfolds from the path of the `i`-th emitted node. */
  ghost predicate Translates(f: Fst<Weight>, r: Fst<Weight>, h: seq<Weight>, t: Tree, i: nat, b: Route)
    requires i < |t.emitted|
  {
    var x := t.emitted[i];
    && Known(t, x) && t.nodes[x].done && t.nodes[x].at >= 1 && f.start == Some(t.nodes[x].at - 1)
    && Unfolds(f, b.0, b.1, t.nodes[x].path) && Successful(f, b.0, b.1)
    && Total(f, b.0, b.1) == PrioAt(r, 0, h, t, x)
  }

  /** Every emitted path of the reversed machine is a route of the original, of the same weight. */
  lemma Translate(f: Fst<Weight>, r: Fst<Weight>, h: seq<Weight>, t: Tree, i: nat) returns (b: Route)
    requires WellFormed(f) && IsReverse(f, r) && i < |t.emitted| && EmittedAt(r, 0, t, i)
    ensures Translates(f, r, h, t, i, b)
  {
    hide IsReverse, WellFormed, Unfolds;
    var x := t.nodes[t.emitted[i]];
    ReverseFinal(f, r, x.at);
    var p, u := CompletionUnreversed(f, r, x.at - 1, x.path);
    b := (p, u);
  }

  /** The emitted nodes as routes. */
  lemma {:induction false} TranslateAll(f: Fst<Weight>, r: Fst<Weight>, h: seq<Weight>, t: Tree, k: nat)
    returns (best: seq<Route>)
    requires WellFormed(f) && IsReverse(f, r) && k <= |t.emitted| &&
         forall i :: 0 <= i < |t.emitted| ==> EmittedAt(r, 0, t, i)
    ensures |best| == k && forall i :: 0 <= i < k ==> Translates(f, r, h, t, i, best[i])
  {
    if k == 0 {
      best := [];
    } else {
      best := TranslateAll(f, r, h, t, k - 1);
      var b := Translate(f, r, h, t, k - 1);
      best := best + [b];
    }
  }

  lemma TranslatedBest(f: Fst<Weight>, r: Fst<Weight>, h: seq<Weight>, n: nat, t: Tree, best: seq<Route>)
    requires WellFormed(f) && IsReverse(f, r) && NBest(r, 0, h, n, t) && n > 0
    requires |best| == |t.emitted| && forall i :: 0 <= i < |best| ==> Translates(f, r, h, t, i, best[i])
    ensures Best(f, n, best)
  {
    hide IsReverse, WellFormed, Unfolds, EmittedAt;
    forall i, j | 0 <= i < j < |best| ensures Follows(f, best[i], best[j]) {
      assert Translates(f, r, h, t, i, best[i]) && Translates(f, r, h, t, j, best[j])
             && DistinctOrdered(r, 0, h, t, i, j);
      TranslatedDistinct(f, r, h, t, i, j, best[i], best[j]);
    }
    forall p, u: nat | Successful(f, p, u) ensures (p, u) in best || LastBeats(f, n, best, Total(f, p, u)) {
      RouteCovered(f, r, h, n, t, best, p, u);
    }
    assert forall i :: 0 <= i < |best| ==> Translates(f, r, h, t, i, best[i]);
  }

  lemma TranslatedDistinct(f: Fst<Weight>, r: Fst<Weight>, h: seq<Weight>, t: Tree, i: nat, j: nat, a: Route, b: Route)
    requires WellFormed(f) && i < |t.emitted| && j < |t.emitted| && Translates(f, r, h, t, i, a)
             && Translates(f, r, h, t, j, b)
    requires t.nodes[t.emitted[i]] != t.nodes[t.emitted[j]]
    ensures a != b
  {
    UnfoldUnique(f, a.0, a.1, t.nodes[t.emitted[i]].path, b.0, b.1, t.nodes[t.emitted[j]].path);
  }

  /** The start state's copy is the one final state, at weight one. */
  lemma StartCopy(f: Fst<Weight>, r: Fst<Weight>)
    requires WellFormed(f) && IsReverse(f, r) && f.start.Some?
    ensures FinalWeight(r, f.start.value + 1) == ONE
  {
  }

  lemma RouteCovered(f: Fst<Weight>, r: Fst<Weight>, h: seq<Weight>, n: nat, t: Tree, best: seq<Route>, p: seq<Edge>,
                     u: nat)
    requires WellFormed(f) && IsReverse(f, r) && NBest(r, 0, h, n, t) && n > 0
    requires |best| == |t.emitted| && forall i :: 0 <= i < |best| ==> Translates(f, r, h, t, i, best[i])
    requires Successful(f, p, u)
    ensures (p, u) in best || LastBeats(f, n, best, Total(f, p, u))
  {
    hide IsReverse, WellFormed, Unfolds, EmittedAt, DistinctOrdered;
    var s := f.start.value;
    var q := CompletionReversed(f, r, s, p, u, Total(f, p, u));
    StartCopy(f, r);
    if Out(t, q, s + 1) {
      var x: nat :| x in t.emitted && Known(t, x) && t.nodes[x] == Node(q, s + 1, true);
      var i :| 0 <= i < |t.emitted| && t.emitted[i] == x;
      assert Translates(f, r, h, t, i, best[i]);
      UnfoldUnique(f, p, u, q, best[i].0, best[i].1, q);
      assert best[i] == (p, u);
    } else {
      assert Beaten(r, 0, h, n, t, Total(f, p, u));
      assert Translates(f, r, h, t, n - 1, best[n-1]);
    }
  }

  // ------------------------------------------------ the whole computation

  /** Path `q` of the output spells route `b`: after two epsilon arcs the arcs of the route in order, then an
      epsilon arc for its final weight. */
  ghost predicate SpellsRoute(f: Fst<Weight>, b: Route, o: Fst<Weight>, q: seq<Edge>, u: nat) {
    && Successful(f, b.0, b.1) && Successful(o, q, u) && |q| == |b.0| + 3 && Total(o, q, u) == Total(f, b.0, b.1)
    && Silent(o, q[0]) && Silent(o, q[1]) && Silent(o, q[|q|-1])
    && forall k :: 0 <= k < |b.0| ==> SameArc(f, b.0[k], o, q[k + 2])
  }

  lemma RouteSpelled(f: Fst<Weight>, r: Fst<Weight>, h: seq<Weight>, n: nat, t: Tree, o: Fst<Weight>, i: nat, b: Route)
    returns (q: seq<Edge>)
    requires WellFormed(f) && IsReverse(f, r) && WellFormed(r) && Found(r, 0, h, n, t, o) && i < |t.emitted|
             && Translates(f, r, h, t, i, b)
    ensures SpellsRoute(f, b, o, q, 1) && q[0] == Edge(0, i)
    ensures forall q': seq<Edge>, u: nat :: Successful(o, q', u) && q' != [] && q'[0] == Edge(0, i) ==>
        q' == q && u == 1
  {
    hide IsReverse, WellFormed, OutShape, AllReal, DistinctOrdered, Out, Beaten;
    assert EmittedAt(r, 0, t, i);
    q := Spelled(r, 0, h, n, t, o, i);
    var x := t.nodes[t.emitted[i]];
    StartCopy(f, r);
    hide EmittedAt, NBest;
    forall k | 0 <= k < |b.0| ensures SameArc(f, b.0[k], o, q[k + 2]) {
      var j := |b.0| - 1 - k;
      MirroredArc(f, r, b.0, b.1, x.path, j);
      assert SameArc(r, x.path[|x.path| - 1 - k], o, q[2..][k]);
    }
    EntrySilent(f, r, b.0, b.1, x.path);
    assert SameArc(r, x.path[0], o, q[2..][|x.path|-1]);
  }

  lemma EntrySilent(f: Fst<Weight>, r: Fst<Weight>, p: seq<Edge>, u: nat, q: seq<Edge>)
    requires WellFormed(f) && IsReverse(f, r) && Unfolds(f, p, u, q)
    ensures |q| == |p| + 1 && (IsEdge(r, q[0]) ==> Silent(r, q[0]))
  {
    EntriesSilent(f, |f.states|);
  }

  lemma {:induction false} EntriesSilent(f: Fst<Weight>, n: nat)
    requires n <= |f.states|
    ensures forall tr :: tr in Leaving(f, n) ==> tr.ilabel == tr.olabel == EPS_LABEL
  {
    if n > 0 {
      EntriesSilent(f, n - 1);
    }
  }

  /** Arc `j + 1` of an unfolded path carries the labels and weight of the arc it turns. */
  lemma MirroredArc(f: Fst<Weight>, r: Fst<Weight>, p: seq<Edge>, u: nat, q: seq<Edge>, j: nat)
    requires WellFormed(f) && IsReverse(f, r) && Unfolds(f, p, u, q) && j < |p|
    ensures |q| == |p| + 1 && SameArc(f, p[|p| - 1 - j], r, q[j + 1])
  {
    var e := q[1..][j];
    assert Turns(f, e, p[|p| - 1 - j]);
    assert Flipped(f, AllEntering(f, e.src - 1), r.states[e.src].trs);
  }

  ghost predicate HasFinite(f: Fst<Weight>) {
    exists p, u :: Successful(f, p, u) && Total(f, p, u) != ZERO
  }

  ghost predicate Spelling(f: Fst<Weight>, b: Route, g: Fst<Weight>, q: seq<Edge>) {
    exists u :: SpellsRoute(f, b, g, q, u)
  }

  /** `paths` are all the successful paths of `g`, each spelling its own route. */
  ghost predicate SpellsAll(f: Fst<Weight>, best: seq<Route>, g: Fst<Weight>, paths: seq<seq<Edge>>) {
    && |paths| == |best|
    && (forall i :: 0 <= i < |paths| ==> Spelling(f, best[i], g, paths[i]))
    && (forall i, j :: 0 <= i < j < |paths| ==> paths[i] != paths[j])
    && forall q: seq<Edge>, u: nat :: Successful(g, q, u) ==> q in paths
  }

  /** The path starts in state 0 with the arc at place `i`. */
  ghost predicate FirstArc(g: Fst<Weight>, q: seq<Edge>, i: nat) {
    g.start == Some(0) && q != [] && q[0] == Edge(0, i)
  }

  ghost predicate EveryStateUsed(g: Fst<Weight>) {
    forall s: nat :: s < |g.states| ==> Accessible(g, s) && CoReach(g, s)
  }

  /** The machine is trim, it starts in state 0, and its `i`-th first arc leads to the `i`-th route. */
  ghost predicate TidyOutput(g: Fst<Weight>, paths: seq<seq<Edge>>) {
    && EveryStateUsed(g)
    && forall i :: 0 <= i < |paths| ==> FirstArc(g, paths[i], i)
  }

  /** `shortest_path` with `nshortest` at least 2: the output machine spells exactly the best routes. */
  method ShortestPaths(f: Fst<Weight>, nshortest: nat)
    returns (g: Fst<Weight>, ghost best: seq<Route>, ghost paths: seq<seq<Edge>>)
    requires WellFormed(f) && NonNegativeArcs(f) && NonNegativeFinals(f) && nshortest >= 2
    ensures HasFinite(f) ==> Best(f, nshortest, best) && SpellsAll(f, best, g, paths)
    ensures !HasFinite(f) ==> g == Fst([], None)
    ensures TidyOutput(g, paths)
  {
    hide WellFormed, IsReverse, IsDistance, Best, IsTrimmed, Useless, Found, SpellsAll, Exact, HasFinite, TidyOutput;
    var distance := ShortestDistance(f, false);
    var rfst := Reverse(f);
    ReverseWellFormed(f, rfst);
    ReverseSuper(f, rfst);
    var d := ZERO;
    var trs := rfst.states[0].trs;
    for i := 0 to |trs|
      invariant d == Entry(rfst, distance, i)
    {
      var state := trs[i].nextstate - 1;
      if state < |distance| {
        d := Plus(d, Times(trs[i].weight, distance[state]));
      }
    }
    GuideExact(f, rfst, distance, d);
    var fst;
    ghost var t, o;
    fst, t, o := NShortestPath(rfst, [d] + distance, nshortest);
    g := fst.Value();
    best, paths := Conclude(f, rfst, [d] + distance, nshortest, t, o, g);
  }

  lemma ReverseSuper(f: Fst<Weight>, r: Fst<Weight>)
    requires WellFormed(f) && IsReverse(f, r)
    ensures SuperInitial(r) && r.start == Some(0) && |r.states| == |f.states| + 1
  {
    LeavingIncreasing(f, |f.states|);
  }

  lemma Conclude(f: Fst<Weight>, r: Fst<Weight>, h: seq<Weight>, n: nat, t: Tree, o: Fst<Weight>, g: Fst<Weight>)
    returns (best: seq<Route>, paths: seq<seq<Edge>>)
    requires WellFormed(f) && IsReverse(f, r) && WellFormed(r) && r.start == Some(0) && n > 0 && Exact(r, h)
    requires if At(h, 0) == ZERO then g == Fst([], None) else Found(r, 0, h, n, t, o) && IsTrimmed(o, Useless(o), g)
    ensures HasFinite(f) ==> Best(f, n, best) && SpellsAll(f, best, g, paths)
    ensures !HasFinite(f) ==> g == Fst([], None)
    ensures TidyOutput(g, paths)
  {
    hide IsReverse, WellFormed, IsTrimmed, Useless, Found, Exact, HasFinite, SpellsAll, Best, TidyOutput;
    best, paths := [], [];
    NothingOut();
    FiniteRoutes(f, r, h);
    if At(h, 0) != ZERO {
      FoundEmits(r, h, n, t, o);
      best := TranslateAll(f, r, h, t, |t.emitted|);
      TranslatedBest(f, r, h, n, t, best);
      paths := PathsOut(f, r, h, n, t, o, g, best);
    }
  }

  lemma FoundEmits(r: Fst<Weight>, h: seq<Weight>, n: nat, t: Tree, o: Fst<Weight>)
    requires Found(r, 0, h, n, t, o)
    ensures NBest(r, 0, h, n, t) && WellFormed(o) && forall i :: 0 <= i < |t.emitted| ==> EmittedAt(r, 0, t, i)
  {
    hide EmittedAt, OutShape, AllReal, WellFormed;
  }

  /** The distance at the super-initial state tells whether there is a route of finite weight. */
  lemma FiniteRoutes(f: Fst<Weight>, r: Fst<Weight>, h: seq<Weight>)
    requires WellFormed(f) && IsReverse(f, r) && Exact(r, h)
    ensures HasFinite(f) <==> At(h, 0) != ZERO
  {
    assert IsCompletionDistance(r, 0, At(h, 0));
    hide IsReverse;
    forall p, u: nat | Successful(f, p, u) && Total(f, p, u) != ZERO ensures At(h, 0) != ZERO {
      var q := CompletionReversed(f, r, f.start.value, p, u, Total(f, p, u));
      StartCopy(f, r);
      assert Completes(r, 0, q, f.start.value + 1, Total(f, p, u));
    }
    if At(h, 0) != ZERO {
      var q, v: nat :| Completes(r, 0, q, v, At(h, 0));
      CopyFinal(f, r, v);
      var p, u := CompletionUnreversed(f, r, v - 1, q);
      assert Successful(f, p, u) && Total(f, p, u) == At(h, 0);
    }
  }

  lemma CopyFinal(f: Fst<Weight>, r: Fst<Weight>, v: nat)
    requires IsReverse(f, r) && IsFinal(r, v)
    ensures v >= 1 && f.start == Some(v - 1) && FinalWeight(r, v) == ONE
  {
  }

  /** The paths of the trimmed output, one for each emitted node. */
  lemma PathsOut(f: Fst<Weight>, r: Fst<Weight>, h: seq<Weight>, n: nat, t: Tree, o: Fst<Weight>, g: Fst<Weight>,
                 best: seq<Route>)
    returns (paths: seq<seq<Edge>>)
    requires WellFormed(f) && IsReverse(f, r) && WellFormed(r) && Found(r, 0, h, n, t, o) && WellFormed(o)
             && IsTrimmed(o, Useless(o), g)
    requires |best| == |t.emitted| && forall i :: 0 <= i < |best| ==> Translates(f, r, h, t, i, best[i])
    ensures SpellsAll(f, best, g, paths) && TidyOutput(g, paths)
  {
    hide IsReverse, Found, IsTrimmed, Translates, RawPath, PlacedAs, SpellsRoute, WellFormed, Spelling, TidyOutput;
    var raw := RawPaths(f, r, h, n, t, o, best, |best|);
    paths := TrimmedPaths(f, o, g, best, raw, |raw|);
    forall i, j | 0 <= i < j < |paths| ensures paths[i] != paths[j] {
      RawApart(f, best, o, i, j, raw[i], raw[j]);
      if paths[i] == paths[j] {
        PlacedApart(o, g, raw[i], raw[j], paths[i]);
      }
    }
    forall q: seq<Edge>, u: nat | Successful(g, q, u) ensures q in paths {
      var p, i := RawCovered(f, r, h, n, t, o, g, best, raw, q, u);
      PlacedOnce(o, g, p, paths[i], q);
    }
    PlacedInOrder(f, best, o, g, raw, paths);
  }

  lemma NothingOut()
    ensures TidyOutput(Fst([], None), [])
  {
  }

  /** All arcs of the start state are needed, so they keep their places. */
  lemma PlacedInOrder(f: Fst<Weight>, best: seq<Route>, o: Fst<Weight>, g: Fst<Weight>, raw: seq<seq<Edge>>,
                      paths: seq<seq<Edge>>)
    requires WellFormed(o) && IsTrimmed(o, Useless(o), g) && |raw| == |best| == |paths|
    requires forall i :: 0 <= i < |raw| ==> RawPath(f, best, o, i, raw[i]) && PlacedAs(o, g, raw[i], paths[i])
    ensures TidyOutput(g, paths)
  {
    hide IsTrimmed, EveryStateUsed, FirstArc, RawPath, PlacedAs, WellFormed;
    UsedAfterTrim(o, g);
    forall i | 0 <= i < |paths| ensures FirstArc(g, paths[i], i) {
      PlacedFirst(f, best, o, g, raw, paths, i);
    }
  }

  lemma UsedAfterTrim(o: Fst<Weight>, g: Fst<Weight>)
    requires WellFormed(o) && IsTrimmed(o, Useless(o), g)
    ensures EveryStateUsed(g)
  {
    hide IsTrimmed, Accessible, CoReach, WellFormed;
    forall s: nat | s < |g.states| ensures Accessible(g, s) && CoReach(g, s) {
      var _ := TrimmedIsTrim(o, g, s);
    }
  }

  lemma AliveFirst(f: Fst<Weight>, best: seq<Route>, o: Fst<Weight>, g: Fst<Weight>, i: nat, p: seq<Edge>, q: seq<Edge>)
    requires WellFormed(o) && i < |best| && RawPath(f, best, o, i, p) && PlacedAs(o, g, p, q)
    ensures Alive(o, Useless(o), Edge(0, i)) && o.start == Some(0) && p[0] == Edge(0, i)
    ensures q != [] && q[0] == MapEdge(o, Useless(o), Edge(0, i))
  {
    hide Accessible, CoReach, MapEdge;
    assert Alive(o, Useless(o), p[0]);
  }

  lemma PlacedFirst(f: Fst<Weight>, best: seq<Route>, o: Fst<Weight>, g: Fst<Weight>, raw: seq<seq<Edge>>,
                    paths: seq<seq<Edge>>, i: nat)
    requires WellFormed(o) && IsTrimmed(o, Useless(o), g) && |raw| == |best| == |paths| && i < |raw|
    requires forall j :: 0 <= j < |raw| ==> RawPath(f, best, o, j, raw[j]) && PlacedAs(o, g, raw[j], paths[j])
    ensures FirstArc(g, paths[i], i)
  {
    hide RawPath, PlacedAs, Accessible, CoReach;
    AliveFirst(f, best, o, g, i, raw[i], paths[i]);
    var trs, dead := o.states[0].trs, Useless(o);
    forall j: nat | j < i ensures j < |trs| && !dead[trs[j].nextstate] {
      AliveFirst(f, best, o, g, j, raw[j], paths[j]);
    }
    SameRank(dead, trs, i);
  }

  lemma {:induction false} SameRank(dead: seq<bool>, trs: seq<Tr<Weight>>, i: nat)
    requires i <= |trs| && forall j :: 0 <= j < |trs| ==> trs[j].nextstate < |dead|
    requires forall j :: 0 <= j < i ==> !dead[trs[j].nextstate]
    ensures ArcRank(dead, trs, i) == i
    decreases i
  {
    if i > 0 {
      assert forall j :: 0 <= j < |trs| - 1 ==> trs[1..][j] == trs[j+1];
      SameRank(dead, trs[1..], i - 1);
    }
  }

  lemma RawApart(f: Fst<Weight>, best: seq<Route>, o: Fst<Weight>, i: nat, j: nat, p: seq<Edge>, q: seq<Edge>)
    requires i < j < |best| && RawPath(f, best, o, i, p) && RawPath(f, best, o, j, q)
    ensures p != q
  {
    hide SpellsRoute, Successful;
  }

  lemma PlacedOnce(o: Fst<Weight>, g: Fst<Weight>, p: seq<Edge>, q: seq<Edge>, q': seq<Edge>)
    requires WellFormed(o) && PlacedAs(o, g, p, q) && PlacedAs(o, g, p, q')
    ensures q == q'
  {
  }

  /** A path of the trimmed output stands for one of the raw paths. */
  lemma RawCovered(f: Fst<Weight>, r: Fst<Weight>, h: seq<Weight>, n: nat, t: Tree, o: Fst<Weight>, g: Fst<Weight>,
                best: seq<Route>, raw: seq<seq<Edge>>, q: seq<Edge>, u: nat) returns (p: seq<Edge>, i: nat)
    requires Found(r, 0, h, n, t, o) && WellFormed(o) && IsTrimmed(o, Useless(o), g) && Successful(g, q, u)
    requires |raw| == |best| == |t.emitted| && forall i :: 0 <= i < |raw| ==> RawPath(f, best, o, i, raw[i])
    ensures i < |raw| && p == raw[i] && PlacedAs(o, g, p, q)
  {
    hide Found, IsTrimmed, WellFormed, SpellsRoute;
    var v;
    p, v := SuccessComesFrom(o, g, q, u);
    i := Emits(r, h, n, t, o, p, v);
    assert RawPath(f, best, o, i, raw[i]);
  }

  lemma Emits(r: Fst<Weight>, h: seq<Weight>, n: nat, t: Tree, o: Fst<Weight>, p: seq<Edge>, v: nat) returns (i: nat)
    requires Found(r, 0, h, n, t, o) && Successful(o, p, v)
    ensures i < |t.emitted| && p != [] && p[0] == Edge(0, i)
  {
    hide NBest, AllReal, WellFormed;
    i := OnlySpelled(r, 0, t, o, p, v);
  }

  /** The one path of the untrimmed output that starts with arc `i`. */
  ghost predicate RawPath(f: Fst<Weight>, best: seq<Route>, o: Fst<Weight>, i: nat, q: seq<Edge>)
    requires i < |best|
  {
    && SpellsRoute(f, best[i], o, q, 1) && q != [] && q[0] == Edge(0, i)
    && forall q': seq<Edge>, u: nat :: Successful(o, q', u) && q' != [] && q'[0] == Edge(0, i) ==> q' == q && u == 1
  }

  lemma {:induction false} RawPaths(f: Fst<Weight>, r: Fst<Weight>, h: seq<Weight>, n: nat, t: Tree, o: Fst<Weight>,
                                    best: seq<Route>, k: nat)
    returns (raw: seq<seq<Edge>>)
    requires WellFormed(f) && IsReverse(f, r) && WellFormed(r) && Found(r, 0, h, n, t, o)
    requires |best| == |t.emitted| && (forall i :: 0 <= i < |best| ==> Translates(f, r, h, t, i, best[i]))
             && k <= |best|
    ensures |raw| == k && forall i :: 0 <= i < k ==> RawPath(f, best, o, i, raw[i])
  {
    hide WellFormed, IsReverse, Found, Translates;
    if k == 0 {
      raw := [];
    } else {
      raw := RawPaths(f, r, h, n, t, o, best, k - 1);
      var q := RouteSpelled(f, r, h, n, t, o, k - 1, best[k-1]);
      assert RawPath(f, best, o, k - 1, q);
      raw := raw + [q];
    }
  }

  ghost predicate PlacedAs(o: Fst<Weight>, g: Fst<Weight>, p: seq<Edge>, q: seq<Edge>)
    requires WellFormed(o)
  {
    (forall k :: 0 <= k < |p| ==> Alive(o, Useless(o), p[k])) && q == MapPath(o, Useless(o), p)
  }

  lemma PlacedApart(o: Fst<Weight>, g: Fst<Weight>, p: seq<Edge>, p': seq<Edge>, q: seq<Edge>)
    requires WellFormed(o) && PlacedAs(o, g, p, q) && PlacedAs(o, g, p', q)
    ensures p == p'
  {
    MapPathInjective(o, Useless(o), p, p');
  }

  lemma {:induction false} TrimmedPaths(f: Fst<Weight>, o: Fst<Weight>, g: Fst<Weight>, best: seq<Route>,
                                        raw: seq<seq<Edge>>, k: nat)
    returns (paths: seq<seq<Edge>>)
    requires WellFormed(o) && IsTrimmed(o, Useless(o), g) && |raw| == |best| && k <= |raw|
    requires forall i :: 0 <= i < |raw| ==> RawPath(f, best, o, i, raw[i])
    ensures |paths| == k && forall i :: 0 <= i < k ==> PlacedAs(o, g, raw[i], paths[i])
    ensures forall i :: 0 <= i < k ==> Spelling(f, best[i], g, paths[i])
  {
    hide IsTrimmed, Useless, WellFormed, RawPath, PlacedAs, Spelling;
    if k == 0 {
      paths := [];
    } else {
      paths := TrimmedPaths(f, o, g, best, raw, k - 1);
      var q := StillSpells(f, best, o, g, k - 1, raw[k-1]);
      paths := paths + [q];
    }
  }

  /** A path that spells a route still does after trimming. */
  lemma StillSpells(f: Fst<Weight>, best: seq<Route>, o: Fst<Weight>, g: Fst<Weight>, i: nat, p: seq<Edge>)
    returns (q: seq<Edge>)
    requires WellFormed(o) && IsTrimmed(o, Useless(o), g) && i < |best| && RawPath(f, best, o, i, p)
    ensures PlacedAs(o, g, p, q) && Spelling(f, best[i], g, q)
  {
    hide IsTrimmed, Accessible, CoReach, Alive, IsPath;
    var b := best[i];
    SuccessSurvives(o, g, p, 1);
    q := MapPath(o, Useless(o), p);
    var u := Rank(Useless(o), 1);
    TraceTotal(o, p, 1, g, q, u);
    forall k | 0 <= k < |b.0| ensures SameArc(f, b.0[k], g, q[k + 2]) {
      assert SameArc(f, b.0[k], o, p[k + 2]);
      var k' := k + 2;
      assert SameArc(o, p[k'], g, q[k']);
    }
    assert SameArc(o, p[0], g, q[0]) && SameArc(o, p[1], g, q[1]) && SameArc(o, p[|p|-1], g, q[|p|-1]);
    assert SpellsRoute(f, b, g, q, u);
  }

  // ------------------------------------------------ how many routes come out

  ghost predicate AllRoutes(f: Fst<Weight>, routes: set<Route>) {
    forall x :: x in routes ==> Successful(f, x.0, x.1)
  }

  ghost predicate AllFinite(f: Fst<Weight>, routes: set<Route>) {
    forall x :: x in routes ==> Successful(f, x.0, x.1) && Total(f, x.0, x.1) != ZERO
  }

  lemma {:induction false} RouteSet(best: seq<Route>) returns (all: set<Route>)
    requires forall i, j :: 0 <= i < j < |best| ==> best[i] != best[j]
    ensures |all| == |best| && forall x :: x in all <==> x in best
  {
    if best == [] {
      all := {};
    } else {
      var m := |best| - 1;
      var before := RouteSet(best[..m]);
      assert best == best[..m] + [best[m]];
      all := before + {best[m]};
    }
  }

  /** As many routes come out as there are successful ones, up to `n`: any `n` or fewer successful routes
      are matched in number. */
  lemma BestCount(f: Fst<Weight>, n: nat, best: seq<Route>, routes: set<Route>)
    requires Best(f, n, best) && AllRoutes(f, routes) && |routes| <= n
    ensures |routes| <= |best| <= n
  {
    assert forall i, j :: 0 <= i < j < |best| ==> Follows(f, best[i], best[j]);
    var all := RouteSet(best);
    if |best| < n {
      assert routes <= all;
      SubsetSize(routes, all);
    }
  }

  /** Some emitted route has infinite weight. */
  ghost predicate EmitsInfinite(f: Fst<Weight>, best: seq<Route>) {
    exists i :: 0 <= i < |best| && Successful(f, best[i].0, best[i].1) && Total(f, best[i].0, best[i].1) == ZERO
  }

  ghost predicate HasInfinite(f: Fst<Weight>) {
    exists p, u :: Successful(f, p, u) && Total(f, p, u) == ZERO
  }

  /** Fewer than `n` successful routes have finite weight. */
  ghost predicate FewerFinite(f: Fst<Weight>, n: nat) {
    forall routes: set<Route> :: AllFinite(f, routes) ==> |routes| < n
  }

  /** The threshold of the source never cuts, so routes of infinite weight fill the places that finite ones
      leave free. */
  lemma InfiniteEmitted(f: Fst<Weight>, n: nat, best: seq<Route>)
    requires Best(f, n, best)
    ensures EmitsInfinite(f, best) <==> HasInfinite(f) && FewerFinite(f, n)
  {
    assert forall i, j :: 0 <= i < j < |best| ==> Follows(f, best[i], best[j]);
    if i :| 0 <= i < |best| && Successful(f, best[i].0, best[i].1) && Total(f, best[i].0, best[i].1) == ZERO {
      forall routes: set<Route> | AllFinite(f, routes) ensures |routes| < n {
        FiniteBefore(f, n, best, i, routes);
      }
    }
    if HasInfinite(f) && FewerFinite(f, n) {
      var p, u: nat :| Successful(f, p, u) && Total(f, p, u) == ZERO;
      if (p, u) in best {
        var i :| 0 <= i < |best| && best[i] == (p, u);
      } else {
        var all := RouteSet(best);
        assert |best| == n;
        assert !AllFinite(f, all);
      }
    }
  }

  lemma InfiniteStays(f: Fst<Weight>, n: nat, best: seq<Route>, i: nat, j: nat)
    requires Best(f, n, best) && i <= j < |best| && Successful(f, best[i].0, best[i].1)
             && Total(f, best[i].0, best[i].1) == ZERO
    ensures Successful(f, best[j].0, best[j].1) && Total(f, best[j].0, best[j].1) == ZERO
  {
    if i < j {
      assert Follows(f, best[i], best[j]);
    }
  }

  lemma FinitePlace(f: Fst<Weight>, n: nat, best: seq<Route>, i: nat, x: Route) returns (j: nat)
    requires Best(f, n, best) && i < |best| && Successful(f, best[i].0, best[i].1)
             && Total(f, best[i].0, best[i].1) == ZERO
    requires Successful(f, x.0, x.1) && Total(f, x.0, x.1) != ZERO
    ensures j < i && best[j] == x
  {
    InfiniteStays(f, n, best, i, |best| - 1);
    assert (x.0, x.1) == x && !LastBeats(f, n, best, Total(f, x.0, x.1));
    j :| 0 <= j < |best| && best[j] == x;
    if i <= j {
      InfiniteStays(f, n, best, i, j);
    }
  }

  /** Finite routes all come out, and before any infinite one. */
  lemma FiniteBefore(f: Fst<Weight>, n: nat, best: seq<Route>, i: nat, routes: set<Route>)
    requires Best(f, n, best) && i < |best| && Successful(f, best[i].0, best[i].1)
             && Total(f, best[i].0, best[i].1) == ZERO && AllFinite(f, routes)
    ensures |routes| < n
  {
    assert forall j, k :: 0 <= j < k < |best| ==> Follows(f, best[j], best[k]);
    assert forall j, k :: 0 <= j < k < |best[..i]| ==> best[..i][j] != best[..i][k];
    var before := RouteSet(best[..i]);
    forall x | x in routes ensures x in before {
      var j := FinitePlace(f, n, best, i, x);
      assert best[..i][j] == x;
    }
    SubsetSize(routes, before);
  }

  /** One final state with a loop of infinite weight: one route is finite, yet two come out when two are asked for. */
  const LOOP: Fst<Weight> := Fst([State(Some(ONE), [Tr(1, 1, ZERO, 0)])], Some(0))

  lemma LoopEmitsInfinite(best: seq<Route>)
    requires Best(LOOP, 2, best)
    ensures HasFinite(LOOP) && FewerFinite(LOOP, 2) && |best| == 2 && EmitsInfinite(LOOP, best)
  {
    hide Best;
    LoopRoutes();
    hide Successful, Total;
    forall routes: set<Route> | AllFinite(LOOP, routes) ensures |routes| < 2 {
      forall x | x in routes ensures x == ([], 0) {
        LoopRoute(x.0, x.1);
      }
      assert routes <= {([], 0)};
      SubsetSize(routes, {([], 0)});
    }
    InfiniteEmitted(LOOP, 2, best);
    BestCount(LOOP, 2, best, {([], 0), ([Edge(0, 0)], 0)});
  }

  lemma LoopRoutes()
    ensures Successful(LOOP, [], 0) && Total(LOOP, [], 0) == ONE
    ensures Successful(LOOP, [Edge(0, 0)], 0) && Total(LOOP, [Edge(0, 0)], 0) == ZERO
  {
    var e := Edge(0, 0);
    assert IsPath(LOOP, 0, [], 0);
    assert [e][1..] == [] && IsPath(LOOP, 0, [e], 0);
  }

  lemma LoopRoute(p: seq<Edge>, u: nat)
    requires Successful(LOOP, p, u) && Total(LOOP, p, u) != ZERO
    ensures p == [] && u == 0
  {
  }
}
