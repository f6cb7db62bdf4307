/** `n_shortest_path`: the loop over the heap and the tree of paths it builds. */
module NShortestPaths {
  import opened Fsts
  import opened Heaps
  import opened NBests
  import opened Properties
  import opened ShortestDistances
  import opened Trims
  import opened VectorFsts
  import opened Weights

  // ------------------------------------------------ the machine being built

  /** The only arc of output state `x` leads to its parent, with the arc or the final weight that was added. */
  ghost predicate LinkOk(r: Fst<Weight>, nodes: seq<Node>, x: nat, tr: Tr<Weight>)
    requires x < |nodes|
  {
    var y := tr.nextstate;
    1 <= y < x && !nodes[y].done && nodes[y].at < |r.states|
    && if nodes[x].done
       then nodes[x] == Node(nodes[y].path, nodes[y].at, true)
         && tr == Tr(EPS_LABEL, EPS_LABEL, FinalWeight(r, nodes[y].at), y)
       else exists i :: 0 <= i < |r.states[nodes[y].at].trs| && LinkedBy(r, nodes, x, y, i, tr)
  }

  ghost predicate LinkedBy(r: Fst<Weight>, nodes: seq<Node>, x: nat, y: nat, i: nat, tr: Tr<Weight>)
    requires x < |nodes| && y < |nodes| && nodes[y].at < |r.states| && i < |r.states[nodes[y].at].trs|
  {
    var rarc := r.states[nodes[y].at].trs[i];
    nodes[x] == Node(nodes[y].path + [Edge(nodes[y].at, i)], rarc.nextstate, false) && tr == rarc.(nextstate := y)
  }

  ghost predicate StateOk(r: Fst<Weight>, nodes: seq<Node>, states: seq<State<Weight>>, x: nat)
    requires x < |nodes| == |states|
  {
    states[x].finalWeight == None && |states[x].trs| == 1 && LinkOk(r, nodes, x, states[x].trs[0])
  }

  /** State 0 leads to the emitted paths in order, state 1 is final, the others hang on their parents. */
  ghost predicate OutShape(r: Fst<Weight>, nodes: seq<Node>, emitted: seq<nat>, states: seq<State<Weight>>) {
    && |states| == |nodes| >= 2
    && states[0].finalWeight == None && |states[0].trs| == |emitted|
    && (forall i :: 0 <= i < |emitted| ==> states[0].trs[i] == Tr(EPS_LABEL, EPS_LABEL, ONE, emitted[i]))
    && states[1] == State(Some(ONE), [])
    && forall x :: 2 <= x < |states| ==> StateOk(r, nodes, states, x)
  }

  /** Growing the node list leaves earlier links alone. */
  lemma LinksKept(r: Fst<Weight>, nodes: seq<Node>, more: seq<Node>, states: seq<State<Weight>>, x: nat)
    requires x < |nodes| == |states| && StateOk(r, nodes, states, x)
    ensures LinkOk(r, nodes + more, x, states[x].trs[0])
  {
    var tr := states[x].trs[0];
    var y, all := tr.nextstate, nodes + more;
    assert all[x] == nodes[x] && all[y] == nodes[y];
    if !nodes[x].done {
      var i :| 0 <= i < |r.states[nodes[y].at].trs| && LinkedBy(r, nodes, x, y, i, tr);
      assert LinkedBy(r, all, x, y, i, tr);
    }
  }

  /** One more output state, hanging on `y`. */
  lemma ShapeGrows(r: Fst<Weight>, nodes: seq<Node>, emitted: seq<nat>, states: seq<State<Weight>>, c: Node,
                   tr: Tr<Weight>)
    requires OutShape(r, nodes, emitted, states) && LinkOk(r, nodes + [c], |nodes|, tr)
    ensures OutShape(r, nodes + [c], emitted, states + [State(None, [tr])])
  {
    var nodes', states' := nodes + [c], states + [State(None, [tr])];
    forall x | 2 <= x < |states'| ensures StateOk(r, nodes', states', x) {
      if x < |states| {
        assert StateOk(r, nodes, states, x);
        LinksKept(r, nodes, [c], states, x);
      }
    }
  }

  lemma ShapeEmits(r: Fst<Weight>, nodes: seq<Node>, emitted: seq<nat>, states: seq<State<Weight>>, x: nat)
    requires OutShape(r, nodes, emitted, states)
    ensures OutShape(r, nodes, emitted + [x],
                     states[0 := states[0].(trs := states[0].trs + [Tr(EPS_LABEL, EPS_LABEL, ONE, x)])])
  {
    var states' := states[0 := states[0].(trs := states[0].trs + [Tr(EPS_LABEL, EPS_LABEL, ONE, x)])];
    forall y | 2 <= y < |states'| ensures StateOk(r, nodes, states', y) {
      assert StateOk(r, nodes, states, y);
    }
  }

  // ------------------------------------------------ the invariant

  function CountOf(rc: seq<nat>, k: nat): nat {
    if k < |rc| then rc[k] else 0
  }

  /** `rc[0]` counts the emitted paths and `rc[v+1]` the nodes taken out at `v`, all of them
      expanded up to the cap. */
  ghost predicate Counts(rc: seq<nat>, t: Tree, n: nat) {
    && CountOf(rc, 0) == |t.emitted|
    && forall v: nat :: |ExpandedAt(t, v)| == if CountOf(rc, v + 1) <= n then CountOf(rc, v + 1) else n
  }

  ghost predicate PairsOk(r: Fst<Weight>, s0: nat, nodes: seq<Node>, pairs: seq<Pair>) {
    && |pairs| == |nodes|
    && forall x: nat :: 1 <= x < |nodes| ==> Real(r, s0, nodes[x]) && pairs[x] == PairOf(r, s0, nodes[x])
  }

  ghost predicate HeapOk(h: seq<Weight>, pairs: seq<Pair>, data: seq<nat>, waiting: multiset<nat>) {
    Indexed(pairs, data) && IsHeap(h, pairs, data) && multiset(data) == waiting
  }

  lemma HeapExtends(h: seq<Weight>, pairs: seq<Pair>, p: Pair, data: seq<nat>)
    requires Indexed(pairs, data) && IsHeap(h, pairs, data)
    ensures Indexed(pairs + [p], data) && IsHeap(h, pairs + [p], data)
  {
    forall i: nat | 0 < i < |data| ensures InOrder(h, pairs + [p], data, Parent(i), i) {
      assert InOrder(h, pairs, data, Parent(i), i);
    }
  }

  /** The element popped is the next one of the tree. */
  lemma PoppedIsNext(r: Fst<Weight>, s0: nat, h: seq<Weight>, t: Tree, pairs: seq<Pair>, data: seq<nat>, x: nat)
    requires Sorted(r, s0, t) && PairsOk(r, s0, t.nodes, pairs) && Indexed(pairs, data)
             && multiset(data) == multiset(t.waiting)
    requires x in data && forall y :: y in data ==> y < |pairs| && !Less(h, pairs, x, y)
    ensures IsNext(r, s0, h, t, x) && Known(t, x)
    ensures PrioAt(r, s0, h, t, x) == Priority(h, pairs[x])
  {
    hide Real;
    assert x in multiset(t.waiting);
    forall y: nat | y in t.waiting ensures Leq(PrioAt(r, s0, h, t, x), PrioAt(r, s0, h, t, y)) {
      assert y in multiset(t.waiting) && y in multiset(data) && y in data;
      assert Known(t, y);
      PairLessExact(h, pairs[x], pairs[y]);
    }
  }

  function One(x: nat): multiset<nat> {
    multiset{x}
  }

  // ------------------------------------------------ pushing the children

  /** `x` is a waiting partial path. */
  ghost predicate Expanding(r: Fst<Weight>, s0: nat, h: seq<Weight>, t: Tree, x: nat) {
    WellFormed(r) && Exact(r, h) && Sorted(r, s0, t) && x in t.waiting && Known(t, x) && !t.nodes[x].done
      && t.nodes[x].at < |r.states|
  }

  /** The pair and the link of child `k` of `x`, whose own weight is `w`. */
  predicate IsChild(r: Fst<Weight>, t: Tree, x: nat, k: nat, w: Weight, p: Pair, tr: Tr<Weight>)
    requires x < |t.nodes| && t.nodes[x].at < |r.states|
  {
    var v := t.nodes[x].at;
    if k < |r.states[v].trs|
    then p == Pair(Some(r.states[v].trs[k].nextstate), Times(w, r.states[v].trs[k].weight))
      && tr == r.states[v].trs[k].(nextstate := x)
    else p == Pair(None, Times(w, FinalWeight(r, v))) && tr == Tr(EPS_LABEL, EPS_LABEL, FinalWeight(r, v), x)
  }

  /** The first `k` children of `x` have been pushed. */
  ghost predicate Pushed(r: Fst<Weight>, s0: nat, h: seq<Weight>, t: Tree, x: nat, k: nat, pairs: seq<Pair>,
                         data: seq<nat>, states: seq<State<Weight>>)
    requires Known(t, x) && t.nodes[x].at < |r.states| && k <= |Children(r, t.nodes[x])|
  {
    var nodes := t.nodes + Children(r, t.nodes[x])[..k];
    && PairsOk(r, s0, nodes, pairs)
    && HeapOk(h, pairs, data, multiset(t.waiting - {x} + FreshIds(t, k)))
    && OutShape(r, nodes, t.emitted, states)
  }

  /** Child `k` of `x`, its pair and its link. */
  lemma NextChild(r: Fst<Weight>, s0: nat, h: seq<Weight>, t: Tree, x: nat, k: nat, pairs: seq<Pair>, data: seq<nat>,
                  states: seq<State<Weight>>, p: Pair, tr: Tr<Weight>, data': seq<nat>)
    requires Expanding(r, s0, h, t, x) && k < |Children(r, t.nodes[x])|
             && Pushed(r, s0, h, t, x, k, pairs, data, states)
    requires x < |pairs| && IsChild(r, t, x, k, pairs[x].weight, p, tr)
    requires Indexed(pairs + [p], data') && IsHeap(h, pairs + [p], data')
             && multiset(data') == multiset(data) + One(|pairs|)
    ensures Pushed(r, s0, h, t, x, k + 1, pairs + [p], data', states + [State(None, [tr])])
  {
    hide IsHeap, Indexed, Exact, Sorted, WellFormed, PairsOk, OutShape, Real, PairOf, Children, FinalWeight, LinkOk,
         FreshIds;
    var a := t.nodes[x];
    var kids := Children(r, a);
    var nodes, c := t.nodes + kids[..k], kids[k];
    assert nodes + [c] == t.nodes + kids[..k+1] by {
      assert kids[..k+1] == kids[..k] + [c];
    }
    ChildPair(r, s0, h, t, x, k);
    OldPair(r, s0, nodes, pairs, x);
    assert nodes[x] == t.nodes[x];
    ChildLink(r, nodes, x, k, c, tr);
    ShapeGrows(r, nodes, t.emitted, states, c, tr);
    PairsGrow(r, s0, nodes, pairs, c, p);
    WaitingGrows(t, x, k);
  }

  lemma OldPair(r: Fst<Weight>, s0: nat, nodes: seq<Node>, pairs: seq<Pair>, x: nat)
    requires PairsOk(r, s0, nodes, pairs) && 1 <= x < |nodes|
    ensures |pairs| == |nodes| && Real(r, s0, nodes[x]) && pairs[x] == PairOf(r, s0, nodes[x])
  {
  }

  lemma PairsGrow(r: Fst<Weight>, s0: nat, nodes: seq<Node>, pairs: seq<Pair>, c: Node, p: Pair)
    requires PairsOk(r, s0, nodes, pairs) && Real(r, s0, c) && p == PairOf(r, s0, c)
    ensures PairsOk(r, s0, nodes + [c], pairs + [p])
  {
    hide Real, PairOf;
  }

  lemma WaitingGrows(t: Tree, x: nat, k: nat)
    requires forall y :: y in t.waiting ==> y < |t.nodes|
    ensures multiset(t.waiting - {x} + FreshIds(t, k)) + One(|t.nodes| + k) ==
            multiset(t.waiting - {x} + FreshIds(t, k + 1))
  {
    assert FreshIds(t, k + 1) == FreshIds(t, k) + {|t.nodes| + k};
    var s := t.waiting - {x} + FreshIds(t, k);
    assert |t.nodes| + k !in s;
    assert s + {|t.nodes| + k} == t.waiting - {x} + FreshIds(t, k + 1);
  }

  lemma ChildPair(r: Fst<Weight>, s0: nat, h: seq<Weight>, t: Tree, x: nat, k: nat)
    requires WellFormed(r) && Exact(r, h) && Sorted(r, s0, t) && Known(t, x) && !t.nodes[x].done
             && t.nodes[x].at < |r.states|
    requires k < |Children(r, t.nodes[x])|
    ensures Real(r, s0, t.nodes[x]) && Real(r, s0, Children(r, t.nodes[x])[k]) &&
         forall y :: y in t.waiting ==> y < |t.nodes|
    ensures var a, w := t.nodes[x], PairOf(r, s0, t.nodes[x]).weight;
            PairOf(r, s0, Children(r, a)[k]) ==
            if k < |r.states[a.at].trs| then Pair(Some(r.states[a.at].trs[k].nextstate),
                                                  Times(w, r.states[a.at].trs[k].weight))
            else Pair(None, Times(w, FinalWeight(r, a.at)))
  {
    var a := t.nodes[x];
    ChildReal(r, s0, h, a, k);
    if k < |r.states[a.at].trs| {
      CostSnoc(r, s0, a.path, a.at, k);
    }
  }

  lemma ChildLink(r: Fst<Weight>, nodes: seq<Node>, x: nat, k: nat, c: Node, tr: Tr<Weight>)
    requires 1 <= x < |nodes| && !nodes[x].done && nodes[x].at < |r.states| && k < |Children(r, nodes[x])|
             && c == Children(r, nodes[x])[k]
    requires tr == if k < |r.states[nodes[x].at].trs| then r.states[nodes[x].at].trs[k].(nextstate := x)
                   else Tr(EPS_LABEL, EPS_LABEL, FinalWeight(r, nodes[x].at), x)
    ensures LinkOk(r, nodes + [c], |nodes|, tr)
  {
    var all := nodes + [c];
    assert all[x] == nodes[x] && all[|nodes|] == c;
    if k < |r.states[nodes[x].at].trs| {
      assert LinkedBy(r, all, |nodes|, x, k, tr);
    }
  }

  /** Pushes a node for every arc out of the state of `x` and one for stopping there. */
  method PushChildren(r: Fst<Weight>, heap: Heap, ofst: VectorFst, distance: seq<Weight>, pairs0: seq<Pair>, x: nat,
                      ghost s0: nat, ghost t: Tree)
    returns (pairs: seq<Pair>)
    requires Known(t, x) && t.nodes[x].at < |r.states| && Expanding(r, s0, distance, t, x)
             && Pushed(r, s0, distance, t, x, 0, pairs0, heap.data, ofst.states) && x < |pairs0|
               && pairs0[x].state == Some(t.nodes[x].at)
    requires ACCESSIBLE !in ofst.properties
    modifies heap, ofst
    ensures Pushed(r, s0, distance, t, x, |Children(r, t.nodes[x])|, pairs, heap.data, ofst.states)
    ensures ofst.start == old(ofst.start) && ACCESSIBLE !in ofst.properties
  {
    hide Pushed, Expanding, Children, FinalWeight, Times;
    var v, w := pairs0[x].state.value, pairs0[x].weight;
    pairs := pairs0;
    KidCount(r, t.nodes[x]);
    for i := 0 to |r.states[v].trs|
      invariant Pushed(r, s0, distance, t, x, i, pairs, heap.data, ofst.states) && x < |pairs| && pairs[x].weight == w
      invariant ofst.start == old(ofst.start) && ACCESSIBLE !in ofst.properties
    {
      var rarc := r.states[v].trs[i];
      pairs := PushChild(r, heap, ofst, distance, pairs, x, Pair(Some(rarc.nextstate), Times(w, rarc.weight)),
                         rarc.(nextstate := x), s0, t, i);
    }
    if FinalWeight(r, v) != ZERO {
      pairs := PushChild(r, heap, ofst, distance, pairs, x, Pair(None, Times(w, FinalWeight(r, v))),
                         Tr(EPS_LABEL, EPS_LABEL, FinalWeight(r, v), x), s0, t, |r.states[v].trs|);
    }
  }

  lemma KidCount(r: Fst<Weight>, a: Node)
    requires a.at < |r.states|
    ensures |Children(r, a)| == |r.states[a.at].trs| + if FinalWeight(r, a.at) != ZERO then 1 else 0
  {
  }

  /** One output state with its pair and its arc, put on the heap. */
  method PushChild(r: Fst<Weight>, heap: Heap, ofst: VectorFst, distance: seq<Weight>, pairs0: seq<Pair>, x: nat,
                   p: Pair, tr: Tr<Weight>, ghost s0: nat, ghost t: Tree, ghost k: nat)
    returns (pairs: seq<Pair>)
    requires Known(t, x) && t.nodes[x].at < |r.states| && Expanding(r, s0, distance, t, x)
             && k < |Children(r, t.nodes[x])| && Pushed(r, s0, distance, t, x, k, pairs0, heap.data, ofst.states)
    requires x < |pairs0| && IsChild(r, t, x, k, pairs0[x].weight, p, tr)
    requires ACCESSIBLE !in ofst.properties
    modifies heap, ofst
    ensures Pushed(r, s0, distance, t, x, k + 1, pairs, heap.data, ofst.states)
    ensures pairs == pairs0 + [p] && ofst.start == old(ofst.start) && ACCESSIBLE !in ofst.properties
  {
    hide Expanding, IsChild, Pushed, Children, AddStateProperties, AddTrProperties, IsHeap, Indexed;
    PushedSizes(r, s0, distance, t, x, k, pairs0, heap.data, ofst.states);
    ghost var data := heap.data;
    HeapExtends(distance, pairs0, p, data);
    StillUnmarked(ofst.properties, |ofst.states|, tr);
    var next := ofst.AddState();
    pairs := pairs0 + [p];
    ofst.AddTr(next, tr);
    assert [] + [tr] == [tr];
    assert ofst.states == old(ofst.states) + [State(None, [tr])];
    heap.Push(distance, pairs, next);
    NextChild(r, s0, distance, t, x, k, pairs0, data, old(ofst.states), p, tr, heap.data);
  }

  lemma StillUnmarked(props: set<Property>, s: nat, tr: Tr<Weight>)
    ensures ACCESSIBLE !in AddStateProperties(props)
    ensures ACCESSIBLE !in props ==> ACCESSIBLE !in AddTrProperties(props, s, tr, None)
    ensures ACCESSIBLE !in AddTrProperties(AddStateProperties(props), s, tr, None)
  {
    hide AddTrProperties, AddStateProperties;
    AddStateUnmarks(props);
    AddTrStaysUnmarked(AddStateProperties(props), s, tr, None);
    if ACCESSIBLE !in props {
      AddTrStaysUnmarked(props, s, tr, None);
    }
  }

  lemma PushedSizes(r: Fst<Weight>, s0: nat, h: seq<Weight>, t: Tree, x: nat, k: nat, pairs: seq<Pair>, data: seq<nat>,
                    states: seq<State<Weight>>)
    requires Known(t, x) && t.nodes[x].at < |r.states| && k <= |Children(r, t.nodes[x])|
             && Pushed(r, s0, h, t, x, k, pairs, data, states)
    ensures |states| == |pairs| && Indexed(pairs, data) && IsHeap(h, pairs, data) && Indexed(pairs, data)
  {
  }

  // ------------------------------------------------ the main loop

  ghost predicate LoopOk(r: Fst<Weight>, s0: nat, h: seq<Weight>, n: nat, t: Tree, last: Weight,
                         pairs: seq<Pair>, data: seq<nat>, rc: seq<nat>, states: seq<State<Weight>>)
  {
    && Explored(r, s0, h, n, t, last) && PairsOk(r, s0, t.nodes, pairs) && HeapOk(h, pairs, data, multiset(t.waiting))
    && OutShape(r, t.nodes, t.emitted, states) && Counts(rc, t, n)
  }

  /** The root alone. */
  function Seedling(s0: nat): Tree {
    Tree([Node([], 0, true), Node([], s0, false)], {1}, {}, {}, [])
  }

  lemma SeedlingOk(r: Fst<Weight>, s0: nat, h: seq<Weight>, n: nat)
    requires WellFormed(r) && s0 < |r.states|
    ensures var states := [State(None, []), State(Some(ONE), [])];
            LoopOk(r, s0, h, n, Seedling(s0), PrioAt(r, s0, h, Seedling(s0), 1),
                   [Pair(None, ZERO), Pair(Some(s0), ONE)], [1], [], states)
  {
    var t := Seedling(s0);
    assert IsPath(r, s0, [], s0);
    assert forall v: nat :: ExpandedAt(t, v) == {};
    assert forall x: nat :: Known(t, x) <==> x == 1;
    assert multiset([1]) == multiset({1});
  }

  /** At most `n` expansions per state. */
  lemma {:induction false} ExpandedBelow(t: Tree, n: nat, k: nat) returns (below: set<nat>)
    requires forall v: nat :: |ExpandedAt(t, v)| <= n
    ensures |below| <= n * k && forall x: nat :: x in t.expanded && x < |t.nodes| && t.nodes[x].at < k ==> x in below
  {
    if k == 0 {
      below := {};
    } else {
      var before := ExpandedBelow(t, n, k - 1);
      below := before + ExpandedAt(t, k - 1);
      assert |below| <= |before| + |ExpandedAt(t, k - 1)|;
      assert n * k == n * (k - 1) + n;
    }
  }

  lemma ExpansionsBounded(r: Fst<Weight>, s0: nat, h: seq<Weight>, n: nat, t: Tree, last: Weight)
    requires WellFormed(r) && s0 < |r.states| && Explored(r, s0, h, n, t, last)
    ensures |t.expanded| <= n * |r.states|
  {
    var below := ExpandedBelow(t, n, |r.states|);
    forall x | x in t.expanded ensures x in below {
      assert Fertile(r, t, x);
    }
    SubsetEqual(t.expanded, below);
  }

  /** A complete path comes out: one more arc from the start. */
  lemma EmitOk(r: Fst<Weight>, s0: nat, h: seq<Weight>, n: nat, t: Tree, last: Weight, pairs: seq<Pair>,
               data: seq<nat>, rc: seq<nat>, states: seq<State<Weight>>, x: nat, data': seq<nat>, rc': seq<nat>)
    requires LoopOk(r, s0, h, n, t, last, pairs, data, rc, states) && IsNext(r, s0, h, t, x) && Known(t, x)
             && t.nodes[x].done
    requires CountOf(rc, 0) < n && Counted(rc, rc', 0)
    requires Indexed(pairs, data') && IsHeap(h, pairs, data') && multiset(data') + One(x) == multiset(data)
    ensures |states| >= 2 && LoopOk(r, s0, h, n, Emitted(t, x), PrioAt(r, s0, h, t, x), pairs, data', rc',
                   states[0 := states[0].(trs := states[0].trs + [Tr(EPS_LABEL, EPS_LABEL, ONE, x)])])
  {
    hide Explored, IsHeap, Indexed, OutShape, Real, PairOf;
    Take(r, s0, h, n, t, last, x);
    ShapeEmits(r, t.nodes, t.emitted, states, x);
    ShapeSize(r, t.nodes, t.emitted, states);
    TakenWaiting(t, x, data, data');
    assert forall v: nat :: ExpandedAt(Emitted(t, x), v) == ExpandedAt(t, v);
  }

  lemma ShapeSize(r: Fst<Weight>, nodes: seq<Node>, emitted: seq<nat>, states: seq<State<Weight>>)
    requires OutShape(r, nodes, emitted, states)
    ensures |states| == |nodes| >= 2
  {
  }

  lemma TakenWaiting(t: Tree, x: nat, data: seq<nat>, data': seq<nat>)
    requires multiset(data) == multiset(t.waiting) && x in t.waiting && multiset(data') + One(x) == multiset(data)
    ensures multiset(data') == multiset(t.waiting - {x})
  {
    assert multiset(data') == multiset(data') + One(x) - One(x);
    assert multiset(t.waiting - {x}) == multiset(t.waiting) - One(x);
  }

  /** `rc'` is `rc` with one more at `k`. */
  ghost predicate Counted(rc: seq<nat>, rc': seq<nat>, k: nat) {
    forall j: nat :: CountOf(rc', j) == CountOf(rc, j) + if j == k then 1 else 0
  }

  /** A partial path over the cap is dropped. */
  lemma DropOk(r: Fst<Weight>, s0: nat, h: seq<Weight>, n: nat, t: Tree, last: Weight, pairs: seq<Pair>,
               data: seq<nat>, rc: seq<nat>, states: seq<State<Weight>>, x: nat, data': seq<nat>, rc': seq<nat>)
    requires LoopOk(r, s0, h, n, t, last, pairs, data, rc, states) && IsNext(r, s0, h, t, x) && Known(t, x)
             && !t.nodes[x].done
    requires CountOf(rc, t.nodes[x].at + 1) >= n && Counted(rc, rc', t.nodes[x].at + 1)
    requires Indexed(pairs, data') && IsHeap(h, pairs, data') && multiset(data') + One(x) == multiset(data)
    ensures LoopOk(r, s0, h, n, Dropped(t, x), PrioAt(r, s0, h, t, x), pairs, data', rc', states)
  {
    hide Explored, IsHeap, Indexed, OutShape, Real, PairOf;
    Take(r, s0, h, n, t, last, x);
    TakenWaiting(t, x, data, data');
    assert forall v: nat :: ExpandedAt(Dropped(t, x), v) == ExpandedAt(t, v);
  }

  /** A partial path under the cap is ready to be expanded ... */
  lemma ExpandReady(r: Fst<Weight>, s0: nat, h: seq<Weight>, n: nat, t: Tree, last: Weight, pairs: seq<Pair>,
                    data: seq<nat>, rc: seq<nat>, states: seq<State<Weight>>, x: nat, data': seq<nat>)
    requires WellFormed(r) && Exact(r, h) && s0 < |r.states|
    requires LoopOk(r, s0, h, n, t, last, pairs, data, rc, states) && IsNext(r, s0, h, t, x) && Known(t, x)
             && !t.nodes[x].done
    requires Indexed(pairs, data') && IsHeap(h, pairs, data') && multiset(data') + One(x) == multiset(data)
    ensures t.nodes[x].at < |r.states| && Expanding(r, s0, h, t, x) && Pushed(r, s0, h, t, x, 0, pairs, data', states)
    ensures x < |pairs| && pairs[x].state == Some(t.nodes[x].at)
  {
    hide Exact, IsHeap, Indexed, OutShape, WellFormed, Ordered, Capped, Grown, Unique;
    KnownFacts(r, s0, t, x);
    TakenWaiting(t, x, data, data');
    assert t.nodes + Children(r, t.nodes[x])[..0] == t.nodes;
    assert t.waiting - {x} + FreshIds(t, 0) == t.waiting - {x};
    hide Real;
  }

  /** ... and the invariant holds again when all its children are pushed. */
  lemma ExpandOk(r: Fst<Weight>, s0: nat, h: seq<Weight>, n: nat, t: Tree, last: Weight, rc: seq<nat>, rc': seq<nat>,
                 x: nat, pairs: seq<Pair>, data: seq<nat>, states: seq<State<Weight>>)
    requires WellFormed(r) && Exact(r, h) && s0 < |r.states| && Explored(r, s0, h, n, t, last) && Counts(rc, t, n)
    requires IsNext(r, s0, h, t, x) && Known(t, x) && !t.nodes[x].done && t.nodes[x].at < |r.states|
    requires CountOf(rc, t.nodes[x].at + 1) < n && Counted(rc, rc', t.nodes[x].at + 1)
    requires Pushed(r, s0, h, t, x, |Children(r, t.nodes[x])|, pairs, data, states)
    ensures LoopOk(r, s0, h, n, Expanded(r, t, x), PrioAt(r, s0, h, t, x), pairs, data, rc', states)
    ensures |Expanded(r, t, x).expanded| == |t.expanded| + 1
  {
    hide Exact, IsHeap, Indexed, OutShape, WellFormed, PairsOk, Real, Ordered, Capped, Grown, Unique, Children;
    var kids := Children(r, t.nodes[x]);
    assert kids[..|kids|] == kids;
    Expand(r, s0, h, n, t, last, x);
    forall v: nat ensures |ExpandedAt(Expanded(r, t, x), v)| == if CountOf(rc', v + 1) <= n then CountOf(rc', v + 1)
      else n {
      ExpandedAtStep(r, s0, t, x, v);
      assert x !in t.expanded;
    }
  }

  /** Enlarges the counters as far as `k` and counts one more there. */
  method Count(rc0: seq<nat>, k: nat) returns (rc: seq<nat>)
    ensures k < |rc| && Counted(rc0, rc, k)
  {
    rc := rc0;
    while |rc| <= k
      invariant forall j: nat :: CountOf(rc, j) == CountOf(rc0, j)
    {
      rc := rc + [0];
    }
    rc := rc[k := rc[k] + 1];
  }

  // ------------------------------------------------ the result

  /** The emitted paths: real, distinct, in non-decreasing order of total weight, at most `n`; and every
      successful path is among them or no lighter than the last of `n`. */
  ghost predicate NBest(r: Fst<Weight>, s0: nat, h: seq<Weight>, n: nat, t: Tree) {
    && |t.emitted| <= n
    && (forall i :: 0 <= i < |t.emitted| ==> EmittedAt(r, s0, t, i))
    && (forall i, j :: 0 <= i < j < |t.emitted| ==> DistinctOrdered(r, s0, h, t, i, j))
    && forall p, u: nat :: IsPath(r, s0, p, u) && FinalWeight(r, u) != ZERO
                           ==> Out(t, p, u) || Beaten(r, s0, h, n, t, Times(Cost(r, s0, p, u), FinalWeight(r, u)))
  }

  ghost predicate EmittedAt(r: Fst<Weight>, s0: nat, t: Tree, i: nat)
    requires i < |t.emitted|
  {
    Known(t, t.emitted[i]) && t.nodes[t.emitted[i]].done && Real(r, s0, t.nodes[t.emitted[i]])
  }

  ghost predicate DistinctOrdered(r: Fst<Weight>, s0: nat, h: seq<Weight>, t: Tree, i: nat, j: nat)
    requires i < |t.emitted| && j < |t.emitted|
  {
    && Known(t, t.emitted[i]) && Known(t, t.emitted[j]) && t.nodes[t.emitted[i]] != t.nodes[t.emitted[j]]
    && Leq(PrioAt(r, s0, h, t, t.emitted[i]), PrioAt(r, s0, h, t, t.emitted[j]))
  }

  /** Every node is a path of the input, the first one the empty path. */
  ghost predicate AllReal(r: Fst<Weight>, s0: nat, t: Tree) {
    |t.nodes| >= 2 && t.nodes[1] == Node([], s0, false) &&
         forall x: nat :: 1 <= x < |t.nodes| ==> Real(r, s0, t.nodes[x])
  }

  lemma TreeReal(r: Fst<Weight>, s0: nat, h: seq<Weight>, n: nat, t: Tree, last: Weight)
    requires Explored(r, s0, h, n, t, last)
    ensures AllReal(r, s0, t)
  {
    hide Real, Ordered, Capped, Unique, Fertile, Borne;
    assert forall x: nat :: 1 <= x < |t.nodes| ==> Known(t, x);
  }

  lemma SearchOver(r: Fst<Weight>, s0: nat, h: seq<Weight>, n: nat, t: Tree, last: Weight)
    requires WellFormed(r) && Exact(r, h) && s0 < |r.states| && Explored(r, s0, h, n, t, last) && Over(r, s0, h, n, t)
             && n > 0
    ensures NBest(r, s0, h, n, t)
  {
    forall i | 0 <= i < |t.emitted| ensures EmittedAt(r, s0, t, i) {
      assert t.emitted[i] in t.emitted;
    }
    forall i, j | 0 <= i < j < |t.emitted| ensures DistinctOrdered(r, s0, h, t, i, j) {
      assert t.emitted[i] in t.emitted && t.emitted[j] in t.emitted;
    }
    forall p, u: nat | IsPath(r, s0, p, u) && FinalWeight(r, u) != ZERO
      ensures Out(t, p, u) || Beaten(r, s0, h, n, t, Times(Cost(r, s0, p, u), FinalWeight(r, u)))
    {
      RootSettles(r, s0, h, n, t, last, p, u);
    }
  }

  lemma RootSettles(r: Fst<Weight>, s0: nat, h: seq<Weight>, n: nat, t: Tree, last: Weight, p: seq<Edge>, u: nat)
    requires WellFormed(r) && Exact(r, h) && s0 < |r.states| && Explored(r, s0, h, n, t, last) && Over(r, s0, h, n, t)
             && n > 0
    requires IsPath(r, s0, p, u) && FinalWeight(r, u) != ZERO
    ensures Out(t, p, u) || Beaten(r, s0, h, n, t, Times(Cost(r, s0, p, u), FinalWeight(r, u)))
  {
    hide Exact, Over, WellFormed, Ordered, Capped, Unique;
    assert Known(t, 1) && t.nodes[1] == Node([], s0, false) && IsPath(r, s0, [], s0);
    assert Cost(r, s0, [], s0) == ONE && [] + p == p;
    AllSettled(r, s0, h, n, t, last, 1, p, u);
  }

  /** The threshold of the source is the semiring zero, and nothing is worse than that: the limit never cuts. */
  lemma LimitNever(w: Weight, x: Weight)
    ensures !NaturalLess(Times(w, ZERO), x)
  {
  }

  lemma LoopHeap(r: Fst<Weight>, s0: nat, h: seq<Weight>, n: nat, t: Tree, last: Weight,
                 pairs: seq<Pair>, data: seq<nat>, rc: seq<nat>, states: seq<State<Weight>>)
    requires LoopOk(r, s0, h, n, t, last, pairs, data, rc, states)
    ensures Indexed(pairs, data) && IsHeap(h, pairs, data) && |states| == |pairs| == |t.nodes| >= 2
    ensures CountOf(rc, 0) == |t.emitted|
  {
  }

  lemma LoopPopped(r: Fst<Weight>, s0: nat, h: seq<Weight>, n: nat, t: Tree, last: Weight,
                   pairs: seq<Pair>, data: seq<nat>, rc: seq<nat>, states: seq<State<Weight>>, x: nat, data': seq<nat>)
    requires WellFormed(r) && s0 < |r.states|
    requires LoopOk(r, s0, h, n, t, last, pairs, data, rc, states)
    requires multiset(data') + multiset{x} == multiset(data) && x < |pairs| &&
         forall y :: y in data ==> y < |pairs| && !Less(h, pairs, x, y)
    ensures IsNext(r, s0, h, t, x) && Known(t, x) && |data'| < |data| && Explored(r, s0, h, n, t, last)
            && Counts(rc, t, n)
    ensures multiset(data') + One(x) == multiset(data)
    ensures t.nodes[x].done <==> pairs[x].state.None?
    ensures !t.nodes[x].done ==> t.nodes[x].at < |r.states| && pairs[x].state == Some(t.nodes[x].at)
  {
    assert x in multiset(data) && x in data;
    assert |multiset(data)| == |multiset(data')| + 1;
    hide Ordered, Capped, Grown, Unique, OutShape, IsHeap;
    PoppedIsNext(r, s0, h, t, pairs, data, x);
    KnownFacts(r, s0, t, x);
    hide Real;
  }

  /** One turn: the lightest node comes out and is emitted, dropped or expanded. */
  method Turn(r: Fst<Weight>, s0: nat, distance: seq<Weight>, nshortest: nat, heap: Heap, ofst: VectorFst,
              pairs0: seq<Pair>, rc0: seq<nat>, ghost t0: Tree, ghost last0: Weight)
    returns (pairs: seq<Pair>, rc: seq<nat>, stop: bool, ghost t: Tree, ghost last: Weight)
    requires WellFormed(r) && Exact(r, distance) && s0 < |r.states| && nshortest > 0
    requires LoopOk(r, s0, distance, nshortest, t0, last0, pairs0, heap.data, rc0, ofst.states)
    requires heap.data != [] && CountOf(rc0, 0) < nshortest && ACCESSIBLE !in ofst.properties
    modifies heap, ofst
    ensures LoopOk(r, s0, distance, nshortest, t, last, pairs, heap.data, rc, ofst.states)
    ensures ofst.start == old(ofst.start) && ACCESSIBLE !in ofst.properties
    ensures stop ==> |t.emitted| == nshortest && last == PrioAt(r, s0, distance, t, t.emitted[nshortest-1])
    ensures !stop ==> CountOf(rc, 0) < nshortest
    ensures |t.expanded| > |t0.expanded| || (|t.expanded| == |t0.expanded| && |heap.data| < |old(heap.data)|)
  {
    hide *;
    LoopHeap(r, s0, distance, nshortest, t0, last0, pairs0, heap.data, rc0, ofst.states);
    pairs := pairs0;
    stop := false;
    var state := heap.Pop(distance, pairs);
    LoopPopped(r, s0, distance, nshortest, t0, last0, pairs0, old(heap.data), rc0, ofst.states, state, heap.data);
    var p := pairs[state];
    var pFirstReal := if p.state.Some? then p.state.value + 1 else 0;
    var limit := Times(PWeight(distance, Some(s0)), ZERO);
    LimitNever(PWeight(distance, Some(s0)), Times(PWeight(distance, p.state), p.weight));
    if NaturalLess(limit, Times(PWeight(distance, p.state), p.weight)) {
      assert false;
    }
    rc := Count(rc0, pFirstReal);
    CountFacts(rc0, rc, pFirstReal);
    last := PrioAt(r, s0, distance, t0, state);
    if p.state.None? {
      t := Emitted(t0, state);
      EmitOk(r, s0, distance, nshortest, t0, last0, pairs, old(heap.data), rc0, ofst.states, state, heap.data, rc);
      EmitFacts(r, s0, distance, nshortest, t0, state);
      StillUnmarked(ofst.properties, 0, Tr(EPS_LABEL, EPS_LABEL, ONE, state));
      UnmarkedAfter(ofst.properties, Tr(EPS_LABEL, EPS_LABEL, ONE, state), LastTr(ofst.states[0].trs));
      ofst.AddTr(0, Tr(EPS_LABEL, EPS_LABEL, ONE, state));
      stop := rc[pFirstReal] == nshortest;
    } else if rc[pFirstReal] > nshortest {
      t := Dropped(t0, state);
      DropOk(r, s0, distance, nshortest, t0, last0, pairs, old(heap.data), rc0, ofst.states, state, heap.data, rc);
      DropFacts(t0, state);
    } else {
      ExpandReady(r, s0, distance, nshortest, t0, last0, pairs, old(heap.data), rc0, ofst.states, state, heap.data);
      pairs := PushChildren(r, heap, ofst, distance, pairs, state, s0, t0);
      t := Expanded(r, t0, state);
      ExpandOk(r, s0, distance, nshortest, t0, last0, rc0, rc, state, pairs, heap.data, ofst.states);
    }
  }

  lemma CountFacts(rc0: seq<nat>, rc: seq<nat>, k: nat)
    requires k < |rc| && Counted(rc0, rc, k)
    ensures rc[k] == CountOf(rc0, k) + 1 == CountOf(rc, k) && (k != 0 ==> CountOf(rc, 0) == CountOf(rc0, 0))
  {
  }

  lemma UnmarkedAfter(props: set<Property>, tr: Tr<Weight>, prev: Option<Tr<Weight>>)
    requires ACCESSIBLE !in props
    ensures ACCESSIBLE !in AddTrProperties(props, 0, tr, prev)
  {
  }

  lemma EmitFacts(r: Fst<Weight>, s0: nat, h: seq<Weight>, n: nat, t: Tree, x: nat)
    ensures var e := Emitted(t, x);
        |e.expanded| == |t.expanded| && |e.emitted| == |t.emitted| + 1 && e.emitted[|t.emitted|] == x
    ensures PrioAt(r, s0, h, Emitted(t, x), x) == PrioAt(r, s0, h, t, x)
  {
  }

  lemma DropFacts(t: Tree, x: nat)
    ensures Dropped(t, x).expanded == t.expanded && Dropped(t, x).emitted == t.emitted
  {
  }

  /** The search, until nothing waits or `nshortest` paths are out. */
  method Search(r: Fst<Weight>, s0: nat, distance: seq<Weight>, nshortest: nat, ofst: VectorFst) returns (ghost t: Tree)
    requires WellFormed(r) && Exact(r, distance) && s0 < |r.states| && nshortest > 0
    requires ofst.states == [State(None, []), State(Some(ONE), [])] && ACCESSIBLE !in ofst.properties
    modifies ofst
    ensures ofst.start == old(ofst.start) && ACCESSIBLE !in ofst.properties
    ensures NBest(r, s0, distance, nshortest, t) && OutShape(r, t.nodes, t.emitted, ofst.states) && AllReal(r, s0, t)
  {
    hide *;
    var pairs := [Pair(None, ZERO), Pair(Some(s0), ONE)];
    var heap := new Heap();
    StartHeap(distance, pairs);
    heap.Push(distance, pairs, 1);
    OneElement(heap.data);
    t := Seedling(s0);
    var rc, stop := [], false;
    SeedlingOk(r, s0, distance, nshortest);
    EmptyCount();
    SeedlingBound(r, s0, distance, nshortest);
    ghost var last := PrioAt(r, s0, distance, t, 1);
    ghost var bound := nshortest * |r.states|;
    while heap.data != [] && !stop
      invariant LoopOk(r, s0, distance, nshortest, t, last, pairs, heap.data, rc, ofst.states) && fresh(heap)
      invariant ofst.start == old(ofst.start) && ACCESSIBLE !in ofst.properties && |t.expanded| <= bound
      invariant if stop then |t.emitted| == nshortest && last == PrioAt(r, s0, distance, t, t.emitted[nshortest-1])
                else CountOf(rc, 0) < nshortest
      decreases !stop, bound - |t.expanded|, |heap.data|
    {
      pairs, rc, stop, t, last := Turn(r, s0, distance, nshortest, heap, ofst, pairs, rc, t, last);
      LoopBound(r, s0, distance, nshortest, t, last, pairs, heap.data, rc, ofst.states);
    }
    LoopOver(r, s0, distance, nshortest, t, last, pairs, heap.data, rc, ofst.states, stop);
  }

  lemma StartHeap(h: seq<Weight>, pairs: seq<Pair>)
    ensures Indexed(pairs, []) && IsHeap(h, pairs, [])
  {
  }

  lemma OneElement(data: seq<nat>)
    requires multiset(data) == multiset([]) + multiset{1}
    ensures data == [1]
  {
    assert |multiset(data)| == 1;
    assert data[0] in multiset(data);
  }

  lemma EmptyCount()
    ensures CountOf([], 0) == 0
  {
  }

  lemma SeedlingBound(r: Fst<Weight>, s0: nat, h: seq<Weight>, n: nat)
    ensures |Seedling(s0).expanded| <= n * |r.states|
  {
  }

  lemma LoopBound(r: Fst<Weight>, s0: nat, h: seq<Weight>, n: nat, t: Tree, last: Weight,
                  pairs: seq<Pair>, data: seq<nat>, rc: seq<nat>, states: seq<State<Weight>>)
    requires WellFormed(r) && s0 < |r.states| && LoopOk(r, s0, h, n, t, last, pairs, data, rc, states)
    ensures |t.expanded| <= n * |r.states|
  {
    hide Explored;
    ExpansionsBounded(r, s0, h, n, t, last);
  }

  /** When the loop ends the search is over. */
  lemma LoopOver(r: Fst<Weight>, s0: nat, h: seq<Weight>, n: nat, t: Tree, last: Weight,
                 pairs: seq<Pair>, data: seq<nat>, rc: seq<nat>, states: seq<State<Weight>>, stop: bool)
    requires WellFormed(r) && Exact(r, h) && s0 < |r.states| && n > 0
             && LoopOk(r, s0, h, n, t, last, pairs, data, rc, states)
    requires if stop then |t.emitted| == n && last == PrioAt(r, s0, h, t, t.emitted[n-1]) else data == []
    ensures NBest(r, s0, h, n, t) && OutShape(r, t.nodes, t.emitted, states) && AllReal(r, s0, t)
  {
    hide Sorted, Grown, Capped, Unique, PrioAt, Exact, WellFormed, IsHeap, NBest, AllReal;
    TreeReal(r, s0, h, n, t, last);
    if !stop {
      assert forall x :: x in t.waiting ==> x in multiset(t.waiting);
      assert t.waiting == {};
    }
    SearchOver(r, s0, h, n, t, last);
  }

  // ------------------------------------------------ what the output machine says

  /** The arc that output state `x` hangs on, read as an arc of the input. */
  lemma {:induction false} ChainPath(r: Fst<Weight>, s0: nat, t: Tree, out: Fst<Weight>, x: nat) returns (p: seq<Edge>)
    requires WellFormed(r) && AllReal(r, s0, t) && OutShape(r, t.nodes, t.emitted, out.states)
    requires 1 <= x < |t.nodes| && !t.nodes[x].done && t.nodes[x].at < |r.states|
    ensures IsPath(out, x, p, 1) && Cost(out, x, p, 1) == Cost(r, s0, t.nodes[x].path, t.nodes[x].at)
    ensures ReadsBackwards(r, t.nodes[x].path, out, p)
    ensures forall q, u: nat :: IsPath(out, x, q, u) && IsFinal(out, u) ==> q == p && u == 1
    decreases x
  {
    if x == 1 {
      p := [];
      assert OnlyFinal(out);
    } else {
      hide AllReal, OutShape, WellFormed;
      var y, i := LinkOf(r, s0, t, out, x);
      var p' := ChainPath(r, s0, t, out, y);
      p := [Edge(x, 0)] + p';
      assert p[1..] == p';
      ReadsGrows(r, t.nodes[y].path, out, p', Edge(t.nodes[y].at, i), Edge(x, 0));
      forall q, u: nat | IsPath(out, x, q, u) && IsFinal(out, u) ensures q == p && u == 1 {
        ForcedTail(out, x, y, q, u);
      }
    }
  }

  /** From a state that is not final and has one arc there is one way on. */
  lemma ForcedTail(out: Fst<Weight>, x: nat, y: nat, q: seq<Edge>, u: nat)
    requires x < |out.states| && out.states[x].finalWeight == None && |out.states[x].trs| == 1
             && out.states[x].trs[0].nextstate == y
    requires IsPath(out, x, q, u) && IsFinal(out, u)
    ensures q != [] && q == [Edge(x, 0)] + q[1..] && IsPath(out, y, q[1..], u)
  {
  }

  /** `q` reads, arc by arc and backwards, what `p` reads. */
  ghost predicate ReadsBackwards(r: Fst<Weight>, p: seq<Edge>, out: Fst<Weight>, q: seq<Edge>) {
    |p| == |q| && forall k :: 0 <= k < |q| ==> SameArc(r, p[|p| - 1 - k], out, q[k])
  }

  lemma ReadsGrows(r: Fst<Weight>, p: seq<Edge>, out: Fst<Weight>, q: seq<Edge>, d: Edge, e: Edge)
    requires ReadsBackwards(r, p, out, q) && SameArc(r, d, out, e)
    ensures ReadsBackwards(r, p + [d], out, [e] + q)
  {
    var a, b := p + [d], [e] + q;
    forall k | 0 <= k < |b| ensures SameArc(r, a[|a| - 1 - k], out, b[k]) {
      assert k > 0 ==> b[k] == q[k - 1] && a[|a| - 1 - k] == p[|p| - 1 - (k - 1)];
    }
  }

  ghost predicate OnlyFinal(out: Fst<Weight>) {
    |out.states| >= 2 && out.states[1] == State(Some(ONE), [])
  }

  /** A partial path hangs on its parent by the arc that extended it, and only by that. */
  lemma LinkOf(r: Fst<Weight>, s0: nat, t: Tree, out: Fst<Weight>, x: nat) returns (y: nat, i: nat)
    requires WellFormed(r) && AllReal(r, s0, t) && OutShape(r, t.nodes, t.emitted, out.states)
    requires 2 <= x < |t.nodes| && !t.nodes[x].done
    ensures 1 <= y < x && !t.nodes[y].done && t.nodes[y].at < |r.states| && i < |r.states[t.nodes[y].at].trs|
    ensures t.nodes[x].path == t.nodes[y].path + [Edge(t.nodes[y].at, i)] && x < |out.states|
            && |out.states[x].trs| == 1
    ensures out.states[x].finalWeight == None && out.states[x].trs[0].nextstate == y
    ensures SameArc(r, Edge(t.nodes[y].at, i), out, Edge(x, 0))
    ensures Real(r, s0, t.nodes[x]) && Real(r, s0, t.nodes[y])
    ensures Cost(r, s0, t.nodes[x].path, t.nodes[x].at) == Times(out.states[x].trs[0].weight,
                                                                 Cost(r, s0, t.nodes[y].path, t.nodes[y].at))
  {
    assert StateOk(r, t.nodes, out.states, x);
    var tr := out.states[x].trs[0];
    y := tr.nextstate;
    i :| 0 <= i < |r.states[t.nodes[y].at].trs| && LinkedBy(r, t.nodes, x, y, i, tr);
    hide OutShape;
    assert Real(r, s0, t.nodes[x]) && Real(r, s0, t.nodes[y]);
    CostSnoc(r, s0, t.nodes[y].path, t.nodes[y].at, i);
  }

  predicate Silent(out: Fst<Weight>, e: Edge) {
    IsEdge(out, e) && Arc(out, e).ilabel == Arc(out, e).olabel == EPS_LABEL
  }

  /** The way through the output machine that spells the `i`-th emitted path: the arc of the start
      state, the arc of the final weight, and the arcs of the path backwards. */
  ghost predicate Spells(r: Fst<Weight>, s0: nat, t: Tree, out: Fst<Weight>, i: nat, q: seq<Edge>)
    requires i < |t.emitted|
  {
    var x := t.emitted[i];
    && Known(t, x) && Real(r, s0, t.nodes[x]) && Successful(out, q, 1) && |q| >= 2 && q[0] == Edge(0, i)
    && Total(out, q, 1) == Times(Cost(r, s0, t.nodes[x].path, t.nodes[x].at), FinalWeight(r, t.nodes[x].at))
    && Silent(out, q[0]) && Silent(out, q[1])
    && Arc(out, q[1]).weight == FinalWeight(r, t.nodes[x].at)
    && ReadsBackwards(r, t.nodes[x].path, out, q[2..])
  }

  lemma Spelled(r: Fst<Weight>, s0: nat, h: seq<Weight>, n: nat, t: Tree, out: Fst<Weight>, i: nat)
    returns (q: seq<Edge>)
    requires WellFormed(r) && AllReal(r, s0, t) && OutShape(r, t.nodes, t.emitted, out.states) && out.start == Some(0)
    requires i < |t.emitted| && EmittedAt(r, s0, t, i)
    ensures Spells(r, s0, t, out, i, q)
    ensures forall q', u: nat :: IsPath(out, 0, q', u) && IsFinal(out, u) && q' != [] && q'[0] == Edge(0, i) ==>
        q' == q && u == 1
  {
    hide AllReal, OutShape, WellFormed, Real, EmittedAt, ReadsBackwards;
    var x := t.emitted[i];
    var y := StopOf(r, s0, t, out, i, x);
    var p := ChainPath(r, s0, t, out, y);
    var rest := [Edge(x, 0)] + p;
    q := [Edge(0, i)] + rest;
    SpelledCost(r, s0, t, out, i, x, y, p);
    forall q', u: nat | IsPath(out, 0, q', u) && IsFinal(out, u) && q' != [] && q'[0] == Edge(0, i)
      ensures q' == q && u == 1 {
      assert q' == [q'[0]] + q'[1..] && IsPath(out, x, q'[1..], u);
      ForcedTail(out, x, y, q'[1..], u);
    }
  }

  lemma SpelledCost(r: Fst<Weight>, s0: nat, t: Tree, out: Fst<Weight>, i: nat, x: nat, y: nat, p: seq<Edge>)
    requires i < |t.emitted| && x == t.emitted[i] && Known(t, x) && y < |t.nodes| && 1 < x < |out.states|
             && out.start == Some(0)
    requires Real(r, s0, t.nodes[x]) && Real(r, s0, t.nodes[y])
             && t.nodes[x] == Node(t.nodes[y].path, t.nodes[y].at, true)
    requires out.states[x] == State(None, [Tr(EPS_LABEL, EPS_LABEL, FinalWeight(r, t.nodes[x].at), y)])
    requires i < |out.states[0].trs| && out.states[0].trs[i] == Tr(EPS_LABEL, EPS_LABEL, ONE, x)
             && out.states[1] == State(Some(ONE), [])
    requires IsPath(out, y, p, 1) && Cost(out, y, p, 1) == Cost(r, s0, t.nodes[y].path, t.nodes[y].at)
             && ReadsBackwards(r, t.nodes[y].path, out, p)
    ensures Spells(r, s0, t, out, i, [Edge(0, i)] + ([Edge(x, 0)] + p))
  {
    hide Real, ReadsBackwards, FinalWeight;
    var rest := [Edge(x, 0)] + p;
    var q := [Edge(0, i)] + rest;
    assert rest[1..] == p && q[1..] == rest && q[2..] == p;
    assert IsPath(out, x, rest, 1) && Cost(out, x, rest, 1) == Times(out.states[x].trs[0].weight, Cost(out, y, p, 1));
    assert IsPath(out, 0, q, 1) && Cost(out, 0, q, 1) == Times(ONE, Cost(out, x, rest, 1));
    FinalOne(out);
  }

  lemma FinalOne(out: Fst<Weight>)
    requires OnlyFinal(out)
    ensures FinalWeight(out, 1) == ONE && IsFinal(out, 1)
  {
  }

  /** A complete path hangs on the partial path that stopped. */
  lemma StopOf(r: Fst<Weight>, s0: nat, t: Tree, out: Fst<Weight>, i: nat, x: nat) returns (y: nat)
    requires WellFormed(r) && AllReal(r, s0, t) && OutShape(r, t.nodes, t.emitted, out.states)
    requires i < |t.emitted| && x == t.emitted[i] && EmittedAt(r, s0, t, i)
    ensures Known(t, x) && 2 <= x < |out.states| && 1 <= y < x && !t.nodes[y].done && t.nodes[y].at < |r.states|
    ensures Real(r, s0, t.nodes[x]) && Real(r, s0, t.nodes[y])
            && t.nodes[x] == Node(t.nodes[y].path, t.nodes[y].at, true)
    ensures out.states[x] == State(None, [Tr(EPS_LABEL, EPS_LABEL, FinalWeight(r, t.nodes[x].at), y)])
    ensures i < |out.states[0].trs| && out.states[0].trs[i] == Tr(EPS_LABEL, EPS_LABEL, ONE, x)
            && out.states[0].finalWeight == None
    ensures out.states[1] == State(Some(ONE), [])
  {
    assert x != 1;
    assert StateOk(r, t.nodes, out.states, x);
    y := out.states[x].trs[0].nextstate;
  }

  /** Nothing else can be read from the start of the output machine. */
  lemma OnlySpelled(r: Fst<Weight>, s0: nat, t: Tree, out: Fst<Weight>, q: seq<Edge>, u: nat) returns (i: nat)
    requires OutShape(r, t.nodes, t.emitted, out.states) && out.start == Some(0) && Successful(out, q, u)
    ensures i < |t.emitted| && q != [] && q[0] == Edge(0, i)
  {
    hide StateOk;
    i := q[0].pos;
  }

  lemma OutWellFormed(r: Fst<Weight>, s0: nat, t: Tree, out: Fst<Weight>)
    requires OutShape(r, t.nodes, t.emitted, out.states) && out.start == Some(0) && AllReal(r, s0, t)
    requires forall i :: 0 <= i < |t.emitted| ==> EmittedAt(r, s0, t, i)
    ensures WellFormed(out)
  {
    forall x, i | 0 <= x < |out.states| && 0 <= i < |out.states[x].trs|
      ensures out.states[x].trs[i].nextstate < |out.states| {
      if x == 0 {
        assert EmittedAt(r, s0, t, i);
      } else if x >= 2 {
        assert StateOk(r, t.nodes, out.states, x);
      }
    }
  }
}
