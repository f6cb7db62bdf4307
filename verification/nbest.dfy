/** The tree of partial paths explored by `n_shortest_path`, and why its pop cap loses nothing. */
module NBests {
  import opened Fsts
  import opened Heaps
  import opened Reverses
  import opened ShortestDistances
  import opened Weights

  /** A path from the start state to `at`; `done` once it has stopped there. */
  datatype Node = Node(path: seq<Edge>, at: nat, done: bool)

  ghost predicate Real(r: Fst<Weight>, s0: nat, x: Node) {
    IsPath(r, s0, x.path, x.at) && (x.done ==> FinalWeight(r, x.at) != ZERO)
  }

  ghost function PairOf(r: Fst<Weight>, s0: nat, x: Node): Pair
    requires Real(r, s0, x)
  {
    var w := Cost(r, s0, x.path, x.at);
    if x.done then Pair(None, Times(w, FinalWeight(r, x.at))) else Pair(Some(x.at), w)
  }

  ghost function Prio(r: Fst<Weight>, s0: nat, h: seq<Weight>, x: Node): Weight
    requires Real(r, s0, x)
  {
    Priority(h, PairOf(r, s0, x))
  }

  /** The nodes pushed when `x` is expanded: one per arc, and one for stopping. */
  ghost function Children(r: Fst<Weight>, x: Node): seq<Node>
    requires x.at < |r.states|
  {
    seq(|r.states[x.at].trs|, i requires 0 <= i < |r.states[x.at].trs| => Node(x.path + [Edge(x.at, i)],
        r.states[x.at].trs[i].nextstate, false))
    + if FinalWeight(r, x.at) != ZERO then [Node(x.path, x.at, true)] else []
  }

  /** The distances are exact: least costs of completion. */
  ghost predicate Exact(r: Fst<Weight>, h: seq<Weight>) {
    forall v :: 0 <= v < |r.states| ==> IsCompletionDistance(r, v, At(h, v))
  }

  /** An exact distance is at most an arc followed by the distance of its target, and at most stopping. */
  lemma Consistent(r: Fst<Weight>, h: seq<Weight>, v: nat, i: nat)
    requires WellFormed(r) && Exact(r, h) && v < |r.states|
    ensures Leq(At(h, v), FinalWeight(r, v))
    ensures i < |r.states[v].trs| ==> Leq(At(h, v),
                                          Times(r.states[v].trs[i].weight, At(h, r.states[v].trs[i].nextstate)))
  {
    assert IsCompletionDistance(r, v, At(h, v));
    if IsFinal(r, v) {
      assert IsPath(r, v, [], v);
      assert Completes(r, v, [], v, Times(ONE, FinalWeight(r, v)));
    }
    if i < |r.states[v].trs| {
      var tr := r.states[v].trs[i];
      assert IsCompletionDistance(r, tr.nextstate, At(h, tr.nextstate));
      if At(h, tr.nextstate) != ZERO {
        var p, t :| Completes(r, tr.nextstate, p, t, At(h, tr.nextstate));
        var q := [Edge(v, i)] + p;
        assert q[1..] == p;
        assert Completes(r, v, q, t, Times(tr.weight, At(h, tr.nextstate)));
      }
    }
  }

  lemma ChildReal(r: Fst<Weight>, s0: nat, h: seq<Weight>, x: Node, k: nat)
    requires WellFormed(r) && Exact(r, h) && Real(r, s0, x) && !x.done && x.at < |r.states| && k < |Children(r, x)|
    ensures Real(r, s0, Children(r, x)[k]) && Leq(Prio(r, s0, h, x), Prio(r, s0, h, Children(r, x)[k]))
  {
    var c := Children(r, x)[k];
    Consistent(r, h, x.at, if k < |r.states[x.at].trs| then k else 0);
    if k < |r.states[x.at].trs| {
      CostSnoc(r, s0, x.path, x.at, k);
    }
  }

  // ------------------------------------------------ the explored tree

  /** Every node is waiting, expanded, capped or emitted; node 0 is not used. */
  datatype Tree = Tree(nodes: seq<Node>, waiting: set<nat>, expanded: set<nat>, capped: set<nat>, emitted: seq<nat>)

  ghost predicate Known(t: Tree, x: nat) {
    1 <= x < |t.nodes|
  }

  ghost function PrioAt(r: Fst<Weight>, s0: nat, h: seq<Weight>, t: Tree, x: nat): Weight {
    if Known(t, x) && Real(r, s0, t.nodes[x]) then Prio(r, s0, h, t.nodes[x]) else ZERO
  }

  ghost predicate Sorted(r: Fst<Weight>, s0: nat, t: Tree) {
    && (forall x: nat :: Known(t, x) ==> Real(r, s0, t.nodes[x]))
    && (forall x: nat :: Known(t, x) <==> x in t.waiting || x in t.expanded || x in t.capped || x in t.emitted)
    && (forall x: nat :: x in t.waiting ==> x !in t.expanded && x !in t.capped && x !in t.emitted)
    && (forall x: nat :: x in t.expanded || x in t.capped ==> Known(t, x) && !t.nodes[x].done)
    && (forall x: nat :: x in t.emitted ==> Known(t, x) && t.nodes[x].done)
    && (forall i, j :: 0 <= i < j < |t.emitted| ==> t.emitted[i] != t.emitted[j])
    && t.expanded !! t.capped
  }

  /** No node is created twice. */
  ghost predicate Unique(t: Tree) {
    forall x: nat, y: nat :: Known(t, x) && Known(t, y) && t.nodes[x] == t.nodes[y] ==> x == y
  }

  /** The root is there, expanded nodes have all their children, and all other nodes are children of expanded ones. */
  ghost predicate Grown(r: Fst<Weight>, s0: nat, t: Tree) {
    && |t.nodes| >= 2 && t.nodes[1] == Node([], s0, false)
    && (forall x: nat :: x in t.expanded ==> Fertile(r, t, x))
    && (forall y: nat :: Known(t, y) && y != 1 ==> Borne(r, t, t.nodes[y]))
  }

  ghost predicate Created(t: Tree, c: Node) {
    exists y: nat :: Known(t, y) && t.nodes[y] == c
  }

  ghost predicate Fertile(r: Fst<Weight>, t: Tree, x: nat) {
    Known(t, x) && t.nodes[x].at < |r.states| && forall c :: c in Children(r, t.nodes[x]) ==> Created(t, c)
  }

  ghost predicate Borne(r: Fst<Weight>, t: Tree, c: Node) {
    exists x: nat :: x in t.expanded && Bears(r, t, x, c)
  }

  ghost predicate Bears(r: Fst<Weight>, t: Tree, x: nat, c: Node) {
    Known(t, x) && t.nodes[x].at < |r.states| && c in Children(r, t.nodes[x])
  }

  ghost function ExpandedAt(t: Tree, v: nat): set<nat> {
    set x | x in t.expanded && x < |t.nodes| && t.nodes[x].at == v
  }

  /** What was taken out is at most `last`, and what waits at least. */
  ghost predicate Ordered(r: Fst<Weight>, s0: nat, h: seq<Weight>, t: Tree, last: Weight) {
    && (forall x: nat :: x in t.waiting ==> Leq(last, PrioAt(r, s0, h, t, x)))
    && (forall x: nat :: x in t.expanded || x in t.capped || x in t.emitted ==> Leq(PrioAt(r, s0, h, t, x), last))
    && (forall i, j :: 0 <= i < j < |t.emitted| ==> Leq(PrioAt(r, s0, h, t, t.emitted[i]),
                                                        PrioAt(r, s0, h, t, t.emitted[j])))
  }

  /** A node is capped only when `n` nodes at its state, none of them heavier, have been expanded. */
  ghost predicate Capped(r: Fst<Weight>, s0: nat, h: seq<Weight>, t: Tree, n: nat) {
    && |t.emitted| <= n
    && (forall v: nat :: |ExpandedAt(t, v)| <= n)
    && forall x: nat :: x in t.capped ==> CappedAt(r, s0, h, t, n, x)
  }

  ghost predicate CappedAt(r: Fst<Weight>, s0: nat, h: seq<Weight>, t: Tree, n: nat, x: nat) {
    && Known(t, x) && |ExpandedAt(t, t.nodes[x].at)| == n
    && forall y: nat :: y in ExpandedAt(t, t.nodes[x].at) ==> Leq(PrioAt(r, s0, h, t, y), PrioAt(r, s0, h, t, x))
  }

  ghost predicate Explored(r: Fst<Weight>, s0: nat, h: seq<Weight>, n: nat, t: Tree, last: Weight) {
    Sorted(r, s0, t) && Unique(t) && Grown(r, s0, t) && Ordered(r, s0, h, t, last) && Capped(r, s0, h, t, n)
  }

  // ------------------------------------------------ the steps

  /** `x` waits and nothing waiting is lighter. */
  ghost predicate IsNext(r: Fst<Weight>, s0: nat, h: seq<Weight>, t: Tree, x: nat) {
    x in t.waiting && forall y: nat :: y in t.waiting ==> Leq(PrioAt(r, s0, h, t, x), PrioAt(r, s0, h, t, y))
  }

  /** The tree once `x` has come out as a complete path. */
  function Emitted(t: Tree, x: nat): Tree {
    t.(waiting := t.waiting - {x}, emitted := t.emitted + [x])
  }

  /** The tree once `x` has been dropped for its state's cap. */
  function Dropped(t: Tree, x: nat): Tree {
    t.(waiting := t.waiting - {x}, capped := t.capped + {x})
  }

  lemma TakenSorted(r: Fst<Weight>, s0: nat, t: Tree, x: nat)
    requires Sorted(r, s0, t) && x in t.waiting && Known(t, x)
    ensures if t.nodes[x].done then Sorted(r, s0, Emitted(t, x)) else Sorted(r, s0, Dropped(t, x))
  {
    hide Real;
    var e := Emitted(t, x);
    assert forall y :: y in e.emitted <==> y in t.emitted || y == x;
  }

  /** Taking out the lightest node keeps the order, whatever becomes of it. */
  lemma TakenOrdered(r: Fst<Weight>, s0: nat, h: seq<Weight>, t: Tree, last: Weight, x: nat)
    requires Sorted(r, s0, t) && Ordered(r, s0, h, t, last) && IsNext(r, s0, h, t, x) && Known(t, x)
    ensures if t.nodes[x].done then Ordered(r, s0, h, Emitted(t, x), PrioAt(r, s0, h, t, x))
            else Ordered(r, s0, h, Dropped(t, x), PrioAt(r, s0, h, t, x))
  {
    hide Real, Prio;
    var t' := if t.nodes[x].done then Emitted(t, x) else Dropped(t, x);
    SameTree(r, s0, h, t, t');
    hide PrioAt;
    var now := PrioAt(r, s0, h, t, x);
    assert Leq(last, now);
    forall y: nat | y in t'.expanded || y in t'.capped || y in t'.emitted ensures Leq(PrioAt(r, s0, h, t', y), now) {
      if y != x {
        assert Leq(PrioAt(r, s0, h, t, y), last);
      }
    }
    forall i, j | 0 <= i < j < |t'.emitted|
      ensures Leq(PrioAt(r, s0, h, t', t'.emitted[i]), PrioAt(r, s0, h, t', t'.emitted[j])) {
      if j == |t.emitted| {
        assert t.emitted[i] in t.emitted;
      }
    }
  }

  lemma TakenCapped(r: Fst<Weight>, s0: nat, h: seq<Weight>, n: nat, t: Tree, last: Weight, x: nat)
    requires Sorted(r, s0, t) && Ordered(r, s0, h, t, last) && Capped(r, s0, h, t, n) && IsNext(r, s0, h, t, x)
             && Known(t, x)
    requires if t.nodes[x].done then |t.emitted| < n else |ExpandedAt(t, t.nodes[x].at)| == n
    ensures if t.nodes[x].done then Capped(r, s0, h, Emitted(t, x), n) else Capped(r, s0, h, Dropped(t, x), n)
  {
    hide Real, Prio, Unique, Grown;
    var t' := if t.nodes[x].done then Emitted(t, x) else Dropped(t, x);
    SameTree(r, s0, h, t, t');
    hide PrioAt;
    assert forall v: nat :: ExpandedAt(t', v) == ExpandedAt(t, v);
    forall y: nat | y in t'.capped ensures CappedAt(r, s0, h, t', n, y) {
      if y != x {
        assert CappedAt(r, s0, h, t, n, y);
      } else {
        assert Leq(last, PrioAt(r, s0, h, t, x));
      }
    }
  }

  /** A complete path comes out, or a partial path over the cap is dropped. */
  lemma Take(r: Fst<Weight>, s0: nat, h: seq<Weight>, n: nat, t: Tree, last: Weight, x: nat)
    requires Explored(r, s0, h, n, t, last) && IsNext(r, s0, h, t, x) && Known(t, x)
    requires if t.nodes[x].done then |t.emitted| < n else |ExpandedAt(t, t.nodes[x].at)| == n
    ensures Explored(r, s0, h, n, if t.nodes[x].done then Emitted(t, x) else Dropped(t, x), PrioAt(r, s0, h, t, x))
  {
    hide Sorted, Ordered, Capped, Grown, Unique, PrioAt;
    TakenSorted(r, s0, t, x);
    TakenOrdered(r, s0, h, t, last, x);
    TakenCapped(r, s0, h, n, t, last, x);
    SameTree(r, s0, h, t, if t.nodes[x].done then Emitted(t, x) else Dropped(t, x));
  }

  /** With the same nodes and expansions the priorities and the family relations are the same. */
  lemma SameTree(r: Fst<Weight>, s0: nat, h: seq<Weight>, t: Tree, t': Tree)
    requires t'.nodes == t.nodes && t'.expanded == t.expanded
    ensures forall x: nat :: PrioAt(r, s0, h, t', x) == PrioAt(r, s0, h, t, x)
    ensures Unique(t) ==> Unique(t')
    ensures Grown(r, s0, t) ==> Grown(r, s0, t')
  {
    if Grown(r, s0, t) {
      forall x: nat | x in t'.expanded ensures Fertile(r, t', x) {
        assert Fertile(r, t, x);
        forall c | c in Children(r, t.nodes[x]) ensures Created(t', c) {
          assert Created(t, c);
          var y: nat :| Known(t, y) && t.nodes[y] == c;
          assert Known(t', y);
        }
      }
      forall y: nat | Known(t', y) && y != 1 ensures Borne(r, t', t'.nodes[y]) {
        assert Known(t, y) && Borne(r, t, t.nodes[y]);
        var x: nat :| x in t.expanded && Bears(r, t, x, t.nodes[y]);
        assert Bears(r, t', x, t'.nodes[y]);
      }
    }
    if Unique(t) {
      assert forall x: nat :: Known(t', x) ==> Known(t, x);
    }
  }

  // ------------------------------------------------ expanding a node

  ghost function FreshIds(t: Tree, k: nat): (ids: set<nat>)
    ensures forall y: nat :: y in ids <==> |t.nodes| <= y < |t.nodes| + k
  {
    if k == 0 then {} else FreshIds(t, k - 1) + {|t.nodes| + k - 1}
  }

  /** The tree once `x` has been expanded. */
  ghost function Expanded(r: Fst<Weight>, t: Tree, x: nat): Tree
    requires Known(t, x) && t.nodes[x].at < |r.states|
  {
    var c := Children(r, t.nodes[x]);
    t.(nodes := t.nodes + c, waiting := t.waiting - {x} + FreshIds(t, |c|), expanded := t.expanded + {x})
  }

  lemma KnownFacts(r: Fst<Weight>, s0: nat, t: Tree, x: nat)
    requires WellFormed(r) && s0 < |r.states| && Sorted(r, s0, t) && Known(t, x)
    ensures Real(r, s0, t.nodes[x]) && t.nodes[x].at < |r.states|
  {
    PathEnds(r, s0, t.nodes[x].path, t.nodes[x].at);
  }

  lemma {:induction false} PathEnds(f: Fst<Weight>, s: nat, p: seq<Edge>, t: nat)
    requires IsPath(f, s, p, t)
    ensures t < |f.states|
    decreases |p|
  {
    if p != [] {
      PathEnds(f, Arc(f, p[0]).nextstate, p[1..], t);
    }
  }

  /** A node has one parent. */
  lemma OneParent(r: Fst<Weight>, a: Node, b: Node, c: Node)
    requires a.at < |r.states| && b.at < |r.states| && !a.done && !b.done && c in Children(r, a) && c in Children(r, b)
    ensures a == b
  {
    var i :| 0 <= i < |Children(r, a)| && Children(r, a)[i] == c;
    var j :| 0 <= j < |Children(r, b)| && Children(r, b)[j] == c;
    if !c.done {
      assert c.path == a.path + [Edge(a.at, i)] && c.path == b.path + [Edge(b.at, j)];
      assert c.path[..|c.path|-1] == a.path == b.path;
      assert c.path[|c.path|-1] == Edge(a.at, i) == Edge(b.at, j);
    }
  }

  lemma ChildrenDistinct(r: Fst<Weight>, a: Node, i: nat, j: nat)
    requires a.at < |r.states| && i < j < |Children(r, a)|
    ensures Children(r, a)[i] != Children(r, a)[j]
  {
    var c, d := Children(r, a)[i], Children(r, a)[j];
    if !d.done {
      assert c.path[|c.path|-1] == Edge(a.at, i) && d.path[|d.path|-1] == Edge(a.at, j);
    }
  }

  lemma ExpandedSorted(r: Fst<Weight>, s0: nat, h: seq<Weight>, t: Tree, x: nat)
    requires WellFormed(r) && Exact(r, h) && s0 < |r.states| && Sorted(r, s0, t) && x in t.waiting && Known(t, x)
             && !t.nodes[x].done
    requires t.nodes[x].at < |r.states|
    ensures Sorted(r, s0, Expanded(r, t, x))
    ensures forall y: nat :: Known(t, y) ==> PrioAt(r, s0, h, Expanded(r, t, x), y) == PrioAt(r, s0, h, t, y)
    ensures forall y: nat :: y in FreshIds(t, |Children(r, t.nodes[x])|) ==>
        Leq(PrioAt(r, s0, h, t, x), PrioAt(r, s0, h, Expanded(r, t, x), y))
  {
    hide WellFormed, Exact, Prio;
    var t', c := Expanded(r, t, x), Children(r, t.nodes[x]);
    forall y: nat | |t.nodes| <= y < |t'.nodes|
      ensures Real(r, s0, t'.nodes[y]) && Leq(PrioAt(r, s0, h, t, x), PrioAt(r, s0, h, t', y))
    {
      assert Real(r, s0, t.nodes[x]);
      ChildReal(r, s0, h, t.nodes[x], y - |t.nodes|);
      assert t'.nodes[y] == c[y - |t.nodes|];
    }
    hide Real, Children;
    assert forall y: nat :: Known(t, y) ==> t'.nodes[y] == t.nodes[y];
  }

  lemma ExpandedUnique(r: Fst<Weight>, s0: nat, t: Tree, x: nat)
    requires Sorted(r, s0, t) && Unique(t) && Grown(r, s0, t) && x in t.waiting && Known(t, x) && !t.nodes[x].done
             && t.nodes[x].at < |r.states|
    ensures Unique(Expanded(r, t, x))
  {
    hide Sorted, Grown, Children, FreshIds;
    var t', c := Expanded(r, t, x), Children(r, t.nodes[x]);
    forall y: nat, k: nat | Known(t, y) && k < |c| ensures t.nodes[y] != c[k] {
      NotYetBorn(r, s0, t, x, y, k);
    }
    forall i, j | 0 <= i < j < |c| ensures c[i] != c[j] {
      ChildrenDistinct(r, t.nodes[x], i, j);
    }
    forall y: nat, z: nat | Known(t', y) && Known(t', z) && t'.nodes[y] == t'.nodes[z] ensures y == z {
      var m := |t.nodes|;
      assert y >= m ==> t'.nodes[y] == c[y - m];
      assert z >= m ==> t'.nodes[z] == c[z - m];
    }
  }

  lemma NotYetBorn(r: Fst<Weight>, s0: nat, t: Tree, x: nat, y: nat, k: nat)
    requires Sorted(r, s0, t) && Unique(t) && Grown(r, s0, t) && x in t.waiting && Known(t, x) && !t.nodes[x].done
             && t.nodes[x].at < |r.states|
    requires Known(t, y) && k < |Children(r, t.nodes[x])|
    ensures t.nodes[y] != Children(r, t.nodes[x])[k]
  {
    hide Real, Fertile;
    var c := Children(r, t.nodes[x])[k];
    if t.nodes[y] == c && y != 1 {
      assert Borne(r, t, t.nodes[y]);
      var z: nat :| z in t.expanded && Bears(r, t, z, c);
      OneParent(r, t.nodes[x], t.nodes[z], c);
    }
  }

  lemma ExpandedGrown(r: Fst<Weight>, s0: nat, t: Tree, x: nat)
    requires Sorted(r, s0, t) && Grown(r, s0, t) && x in t.waiting && Known(t, x) && !t.nodes[x].done
             && t.nodes[x].at < |r.states|
    ensures Grown(r, s0, Expanded(r, t, x))
  {
    hide Sorted, Children, FreshIds, Borne;
    var t', c := Expanded(r, t, x), Children(r, t.nodes[x]);
    forall d | Created(t, d) ensures Created(t', d) {
      var y: nat :| Known(t, y) && t.nodes[y] == d;
      assert Known(t', y) && t'.nodes[y] == d;
    }
    forall d | d in c ensures Created(t', d) {
      var k :| 0 <= k < |c| && c[k] == d;
      assert Known(t', |t.nodes| + k) && t'.nodes[|t.nodes| + k] == d;
    }
    forall z: nat | z in t'.expanded ensures Fertile(r, t', z) {
      if z != x {
        assert Fertile(r, t, z) && t'.nodes[z] == t.nodes[z];
      }
    }
    forall y: nat | Known(t', y) && y != 1 ensures Borne(r, t', t'.nodes[y]) {
      ExpandedBorne(r, t, x, y);
    }
  }

  lemma ExpandedBorne(r: Fst<Weight>, t: Tree, x: nat, y: nat)
    requires Known(t, x) && t.nodes[x].at < |r.states| && Known(Expanded(r, t, x), y)
    requires Known(t, y) ==> Borne(r, t, t.nodes[y])
    ensures Borne(r, Expanded(r, t, x), Expanded(r, t, x).nodes[y])
  {
    hide Children, FreshIds;
    var t', c := Expanded(r, t, x), Children(r, t.nodes[x]);
    if y < |t.nodes| {
      var z: nat :| z in t.expanded && Bears(r, t, z, t.nodes[y]);
      assert Bears(r, t', z, t'.nodes[y]);
    } else {
      assert t'.nodes[y] == c[y - |t.nodes|];
      assert Bears(r, t', x, t'.nodes[y]);
    }
  }

  lemma ExpandedOrdered(r: Fst<Weight>, s0: nat, h: seq<Weight>, t: Tree, last: Weight, x: nat)
    requires WellFormed(r) && Exact(r, h) && s0 < |r.states| && Sorted(r, s0, t) && Ordered(r, s0, h, t, last)
    requires IsNext(r, s0, h, t, x) && Known(t, x) && !t.nodes[x].done && t.nodes[x].at < |r.states|
    ensures Ordered(r, s0, h, Expanded(r, t, x), PrioAt(r, s0, h, t, x))
  {
    hide WellFormed, Exact, PrioAt, Real, Children;
    ExpandedSorted(r, s0, h, t, x);
    var t', now := Expanded(r, t, x), PrioAt(r, s0, h, t, x);
    assert Leq(last, now);
    forall y: nat | y in t'.expanded || y in t'.capped || y in t'.emitted ensures Leq(PrioAt(r, s0, h, t', y), now) {
      if y != x {
        assert Known(t, y) && Leq(PrioAt(r, s0, h, t, y), last);
      }
    }
    forall y: nat | y in t'.waiting ensures Leq(now, PrioAt(r, s0, h, t', y)) {
      if y !in FreshIds(t, |Children(r, t.nodes[x])|) {
        assert Known(t, y);
      }
    }
    forall i, j | 0 <= i < j < |t'.emitted|
      ensures Leq(PrioAt(r, s0, h, t', t'.emitted[i]), PrioAt(r, s0, h, t', t'.emitted[j])) {
      assert t.emitted[i] in t.emitted && t.emitted[j] in t.emitted;
    }
  }

  /** What is full stays so when another state gets one more. */
  lemma StillCapped(r: Fst<Weight>, s0: nat, h: seq<Weight>, n: nat, t: Tree, t': Tree, at: nat, y: nat)
    requires CappedAt(r, s0, h, t, n, y) && |ExpandedAt(t, at)| < n && forall z: nat :: z in t.expanded ==> Known(t, z)
    requires forall v: nat :: v != at ==> ExpandedAt(t', v) == ExpandedAt(t, v)
    requires forall z: nat :: Known(t, z) ==>
        Known(t', z) && t'.nodes[z] == t.nodes[z] && PrioAt(r, s0, h, t', z) == PrioAt(r, s0, h, t, z)
    ensures CappedAt(r, s0, h, t', n, y)
  {
    hide PrioAt;
    assert t.nodes[y].at != at;
  }

  lemma OneMore(a: set<nat>, x: nat)
    ensures |a + {x}| <= |a| + 1
  {
  }

  lemma ExpandedKnown(r: Fst<Weight>, s0: nat, t: Tree)
    requires Sorted(r, s0, t)
    ensures forall z: nat :: z in t.expanded ==> Known(t, z)
  {
    hide Real;
  }

  lemma ExpandedCapped(r: Fst<Weight>, s0: nat, h: seq<Weight>, n: nat, t: Tree, x: nat)
    requires WellFormed(r) && Exact(r, h) && s0 < |r.states| && Sorted(r, s0, t) && Capped(r, s0, h, t, n)
    requires x in t.waiting && Known(t, x) && !t.nodes[x].done && t.nodes[x].at < |r.states|
             && |ExpandedAt(t, t.nodes[x].at)| < n
    ensures Capped(r, s0, h, Expanded(r, t, x), n)
  {
    hide WellFormed, Exact, PrioAt, Real, Children, FreshIds, Prio, Sorted, CappedAt;
    ExpandedSorted(r, s0, h, t, x);
    ExpandedKnown(r, s0, t);
    var t', at := Expanded(r, t, x), t.nodes[x].at;
    hide ExpandedAt;
    forall v: nat ensures ExpandedAt(t', v) == ExpandedAt(t, v) + if v == at then {x} else {} {
      ExpandedAtStep(r, s0, t, x, v);
    }
    forall v: nat ensures |ExpandedAt(t', v)| <= n {
      OneMore(ExpandedAt(t, v), x);
    }
    forall y: nat | y in t'.capped ensures CappedAt(r, s0, h, t', n, y) {
      StillCapped(r, s0, h, n, t, t', at, y);
    }
  }

  lemma ExpandedAtStep(r: Fst<Weight>, s0: nat, t: Tree, x: nat, v: nat)
    requires Sorted(r, s0, t) && Known(t, x) && t.nodes[x].at < |r.states|
    ensures ExpandedAt(Expanded(r, t, x), v) == ExpandedAt(t, v) + if v == t.nodes[x].at then {x} else {}
  {
    hide Real, Children;
    var t' := Expanded(r, t, x);
    assert forall y: nat :: y < |t.nodes| ==> t'.nodes[y] == t.nodes[y];
    assert forall y: nat :: y in t.expanded ==> y < |t.nodes|;
  }

  /** A partial path under the cap is expanded. */
  lemma Expand(r: Fst<Weight>, s0: nat, h: seq<Weight>, n: nat, t: Tree, last: Weight, x: nat)
    requires WellFormed(r) && Exact(r, h) && s0 < |r.states| && Explored(r, s0, h, n, t, last) && IsNext(r, s0, h, t, x)
    requires Known(t, x) && !t.nodes[x].done && t.nodes[x].at < |r.states| && |ExpandedAt(t, t.nodes[x].at)| < n
    ensures Explored(r, s0, h, n, Expanded(r, t, x), PrioAt(r, s0, h, t, x))
  {
    hide Sorted, Ordered, Capped, Grown, Unique, PrioAt, Expanded, ExpandedAt;
    ExpandedSorted(r, s0, h, t, x);
    ExpandedUnique(r, s0, t, x);
    ExpandedGrown(r, s0, t, x);
    ExpandedOrdered(r, s0, h, t, last, x);
    ExpandedCapped(r, s0, h, n, t, x);
  }

  // ------------------------------------------------ nothing is lost

  /** The complete path `p` to `at` is among the emitted ones. */
  ghost predicate Out(t: Tree, p: seq<Edge>, at: nat) {
    exists x: nat :: x in t.emitted && Known(t, x) && t.nodes[x] == Node(p, at, true)
  }

  /** All `n` paths are out, and the last weighs at most `w`. */
  ghost predicate Beaten(r: Fst<Weight>, s0: nat, h: seq<Weight>, n: nat, t: Tree, w: Weight) {
    |t.emitted| == n > 0 && Leq(PrioAt(r, s0, h, t, t.emitted[n-1]), w)
  }

  /** The search is over: nothing waits, or the last of `n` paths was lighter than all that waits. */
  ghost predicate Over(r: Fst<Weight>, s0: nat, h: seq<Weight>, n: nat, t: Tree) {
    forall x: nat :: x in t.waiting ==> Beaten(r, s0, h, n, t, PrioAt(r, s0, h, t, x))
  }

  /** The total of a partial path completed by `q`. */
  ghost function Whole(r: Fst<Weight>, s0: nat, x: Node, q: seq<Edge>, u: nat): Weight
    requires Real(r, s0, x) && IsPath(r, x.at, q, u)
  {
    Times(Cost(r, s0, x.path, x.at), Times(Cost(r, x.at, q, u), FinalWeight(r, u)))
  }

  /** The priority of a partial path is at most the total of each of its completions. */
  lemma Admissible(r: Fst<Weight>, s0: nat, h: seq<Weight>, x: Node, q: seq<Edge>, u: nat)
    requires WellFormed(r) && Exact(r, h) && Real(r, s0, x) && !x.done && x.at < |r.states| && IsPath(r, x.at, q, u)
    ensures Leq(Prio(r, s0, h, x), Whole(r, s0, x, q, u))
  {
    assert IsCompletionDistance(r, x.at, At(h, x.at));
    if IsFinal(r, u) {
      assert Completes(r, x.at, q, u, Times(Cost(r, x.at, q, u), FinalWeight(r, u)));
    }
  }

  ghost predicate Settled(r: Fst<Weight>, s0: nat, h: seq<Weight>, n: nat, t: Tree, x: nat, q: seq<Edge>, u: nat)
    requires Known(t, x) && Real(r, s0, t.nodes[x]) && IsPath(r, t.nodes[x].at, q, u)
  {
    Out(t, t.nodes[x].path + q, u) || Beaten(r, s0, h, n, t, Whole(r, s0, t.nodes[x], q, u))
  }

  /** A waiting complete node is beaten; any other one is out. */
  lemma StopSettled(r: Fst<Weight>, s0: nat, h: seq<Weight>, n: nat, t: Tree, x: nat)
    requires Sorted(r, s0, t) && Grown(r, s0, t) && Over(r, s0, h, n, t) && x in t.expanded && Known(t, x)
             && Real(r, s0, t.nodes[x])
    requires t.nodes[x].at < |r.states| && FinalWeight(r, t.nodes[x].at) != ZERO
    ensures IsPath(r, t.nodes[x].at, [], t.nodes[x].at) && Settled(r, s0, h, n, t, x, [], t.nodes[x].at)
  {
    hide Real, Borne, PrioAt;
    var a := t.nodes[x];
    var c := Node(a.path, a.at, true);
    StopChild(r, t, x);
    var y: nat :| Known(t, y) && t.nodes[y] == c;
    assert a.path + [] == a.path;
    StopPrio(r, s0, h, t, x, y);
    hide Grown, Whole;
    if y in t.waiting {
      assert Beaten(r, s0, h, n, t, PrioAt(r, s0, h, t, y));
    } else {
      assert y in t.emitted;
    }
  }

  lemma StopChild(r: Fst<Weight>, t: Tree, x: nat)
    requires Fertile(r, t, x) && Known(t, x) && FinalWeight(r, t.nodes[x].at) != ZERO
    ensures Created(t, Node(t.nodes[x].path, t.nodes[x].at, true))
  {
    var kids := Children(r, t.nodes[x]);
    assert kids[|kids|-1] in kids;
  }

  lemma StopPrio(r: Fst<Weight>, s0: nat, h: seq<Weight>, t: Tree, x: nat, y: nat)
    requires Sorted(r, s0, t) && Known(t, x) && Real(r, s0, t.nodes[x]) && t.nodes[x].at < |r.states|
    requires Known(t, y) && t.nodes[y] == Node(t.nodes[x].path, t.nodes[x].at, true)
    ensures IsPath(r, t.nodes[x].at, [], t.nodes[x].at)
            && PrioAt(r, s0, h, t, y) == Whole(r, s0, t.nodes[x], [], t.nodes[x].at)
  {
    assert Real(r, s0, t.nodes[y]);
  }

  lemma SuffixCancels(a: seq<Edge>, b: seq<Edge>, q: seq<Edge>)
    requires a + q == b + q
    ensures a == b
  {
    assert |a| == |b|;
    assert (a + q)[..|a|] == a && (b + q)[..|b|] == b;
  }

  lemma TwinsApart(t: Tree, y: nat, z: nat, q: seq<Edge>)
    requires Unique(t) && Known(t, y) && Known(t, z) && y != z && t.nodes[y].at == t.nodes[z].at && !t.nodes[y].done
             && !t.nodes[z].done
    ensures t.nodes[z].path + q != t.nodes[y].path + q
  {
    assert t.nodes[z] != t.nodes[y];
    if t.nodes[z].path + q == t.nodes[y].path + q {
      SuffixCancels(t.nodes[z].path, t.nodes[y].path, q);
    }
  }

  /** Paths with `n` twins at the same state, all out, are beaten: the cap only drops what `n`
      emitted paths are no heavier than. */
  lemma {:induction false} TwinsOut(r: Fst<Weight>, s0: nat, t: Tree, twins: set<nat>, v: nat, q: seq<Edge>, u: nat)
    returns (ids: set<nat>)
    requires Unique(t) && forall y :: y in twins ==>
        Known(t, y) && t.nodes[y].at == v && !t.nodes[y].done && Out(t, t.nodes[y].path + q, u)
    ensures |ids| == |twins| && forall x :: x in ids ==> x in t.emitted && TwinOf(t, twins, x, q, u)
    decreases |twins|
  {
    if twins == {} {
      ids := {};
    } else {
      hide Unique;
      var y :| y in twins;
      var before := TwinsOut(r, s0, t, twins - {y}, v, q, u);
      assert Out(t, t.nodes[y].path + q, u);
      var x: nat :| x in t.emitted && Known(t, x) && t.nodes[x] == Node(t.nodes[y].path + q, u, true);
      forall z: nat | z in twins - {y} && Known(t, z) ensures t.nodes[x] != Node(t.nodes[z].path + q, u, true) {
        TwinsApart(t, y, z, q);
      }
      assert x !in before;
      ids := before + {x};
      forall i | i in ids ensures TwinOf(t, twins, i, q, u) {
        if i in before {
          assert TwinOf(t, twins - {y}, i, q, u);
        }
      }
    }
  }

  ghost predicate TwinOf(t: Tree, twins: set<nat>, x: nat, q: seq<Edge>, u: nat) {
    Known(t, x) && exists z: nat :: z in twins && Known(t, z) && t.nodes[x] == Node(t.nodes[z].path + q, u, true)
  }

  /** An expanded node settles each completion, given that its children do. */
  lemma ExpandedSettles(r: Fst<Weight>, s0: nat, h: seq<Weight>, n: nat, t: Tree, last: Weight, x: nat, q: seq<Edge>,
                        u: nat)
    requires WellFormed(r) && Exact(r, h) && s0 < |r.states| && Explored(r, s0, h, n, t, last) && Over(r, s0, h, n, t)
             && n > 0
    requires x in t.expanded && Known(t, x) && Real(r, s0, t.nodes[x]) && t.nodes[x].at < |r.states|
    requires IsPath(r, t.nodes[x].at, q, u) && FinalWeight(r, u) != ZERO
    ensures Settled(r, s0, h, n, t, x, q, u)
    decreases |q|, 0
  {
    hide Sorted, Ordered, Capped, Grown, Unique, Prio, PrioAt, Exact, WellFormed, Over;
    var a := t.nodes[x];
    if q == [] {
      StopReady(r, s0, h, n, t, last, x);
      StopSettled(r, s0, h, n, t, x);
    } else {
      var e, rest := q[0], q[1..];
      var y := ArcChild(r, s0, h, n, t, last, x, e.pos);
      assert a.path + q == (a.path + [e]) + rest;
      AllSettled(r, s0, h, n, t, last, y, rest, u);
    }
  }

  lemma StopReady(r: Fst<Weight>, s0: nat, h: seq<Weight>, n: nat, t: Tree, last: Weight, x: nat)
    requires Explored(r, s0, h, n, t, last) && x in t.expanded && Known(t, x)
    ensures Sorted(r, s0, t) && Grown(r, s0, t)
  {
  }

  /** The child along arc `i`, with the same completions. */
  lemma ArcChild(r: Fst<Weight>, s0: nat, h: seq<Weight>, n: nat, t: Tree, last: Weight, x: nat, i: nat)
    returns (y: nat)
    requires WellFormed(r) && Explored(r, s0, h, n, t, last) && x in t.expanded && Known(t, x)
             && Real(r, s0, t.nodes[x])
    requires t.nodes[x].at < |r.states| && i < |r.states[t.nodes[x].at].trs|
    ensures var a := t.nodes[x]; var tr := r.states[a.at].trs[i];
            && Known(t, y) && t.nodes[y] == Node(a.path + [Edge(a.at, i)], tr.nextstate, false)
              && tr.nextstate < |r.states|
            && Real(r, s0, t.nodes[y])
            && Cost(r, s0, t.nodes[y].path, tr.nextstate) == Times(Cost(r, s0, a.path, a.at), tr.weight)
  {
    hide Ordered, Capped, Unique, Borne;
    var a := t.nodes[x];
    var c := Node(a.path + [Edge(a.at, i)], r.states[a.at].trs[i].nextstate, false);
    assert Fertile(r, t, x);
    assert Children(r, a)[i] == c;
    assert c in Children(r, a) && Created(t, c);
    y :| Known(t, y) && t.nodes[y] == c;
    CostSnoc(r, s0, a.path, a.at, i);
  }

  /** Every completion of every partial path ever created is out or beaten. */
  lemma AllSettled(r: Fst<Weight>, s0: nat, h: seq<Weight>, n: nat, t: Tree, last: Weight, x: nat, q: seq<Edge>, u: nat)
    requires WellFormed(r) && Exact(r, h) && s0 < |r.states| && Explored(r, s0, h, n, t, last) && Over(r, s0, h, n, t)
             && n > 0
    requires Known(t, x) && Real(r, s0, t.nodes[x]) && !t.nodes[x].done && t.nodes[x].at < |r.states|
    requires IsPath(r, t.nodes[x].at, q, u) && FinalWeight(r, u) != ZERO
    ensures Settled(r, s0, h, n, t, x, q, u)
    decreases |q|, 1
  {
    hide Ordered, Grown, Unique, Exact, WellFormed, Prio, Whole, Real, CappedAt;
    if x in t.waiting {
      Admissible(r, s0, h, t.nodes[x], q, u);
      WaitingBeaten(r, s0, h, n, t, x, Whole(r, s0, t.nodes[x], q, u));
    } else if x in t.expanded {
      ExpandedSettles(r, s0, h, n, t, last, x, q, u);
    } else {
      assert x in t.capped && CappedAt(r, s0, h, t, n, x);
      var twins := ExpandedAt(t, t.nodes[x].at);
      forall y | y in twins ensures TwinReady(r, s0, h, t, x, y, q, u) && Settled(r, s0, h, n, t, y, q, u) {
        TwinLighter(r, s0, h, n, t, last, x, y, q, u);
        ExpandedSettles(r, s0, h, n, t, last, y, q, u);
      }
      CapSettles(r, s0, h, n, t, last, x, q, u);
    }
  }

  lemma WaitingBeaten(r: Fst<Weight>, s0: nat, h: seq<Weight>, n: nat, t: Tree, x: nat, w: Weight)
    requires Over(r, s0, h, n, t) && x in t.waiting && Known(t, x) && Real(r, s0, t.nodes[x])
             && Leq(Prio(r, s0, h, t.nodes[x]), w)
    ensures Beaten(r, s0, h, n, t, w)
  {
    assert Beaten(r, s0, h, n, t, PrioAt(r, s0, h, t, x));
  }

  /** A twin expanded earlier: no heavier, so each completion of it is no heavier either. */
  ghost predicate TwinReady(r: Fst<Weight>, s0: nat, h: seq<Weight>, t: Tree, x: nat, y: nat, q: seq<Edge>, u: nat)
    requires Known(t, x) && Real(r, s0, t.nodes[x]) && IsPath(r, t.nodes[x].at, q, u)
  {
    && y in t.expanded && Known(t, y) && Real(r, s0, t.nodes[y]) && t.nodes[y].at == t.nodes[x].at && !t.nodes[y].done
    && Leq(Whole(r, s0, t.nodes[y], q, u), Whole(r, s0, t.nodes[x], q, u))
  }

  lemma TwinLighter(r: Fst<Weight>, s0: nat, h: seq<Weight>, n: nat, t: Tree, last: Weight, x: nat, y: nat,
                    q: seq<Edge>, u: nat)
    requires WellFormed(r) && Exact(r, h) && s0 < |r.states| && Explored(r, s0, h, n, t, last)
    requires Known(t, x) && Real(r, s0, t.nodes[x]) && !t.nodes[x].done && t.nodes[x].at < |r.states|
    requires IsPath(r, t.nodes[x].at, q, u) && FinalWeight(r, u) != ZERO
    requires CappedAt(r, s0, h, t, n, x) && y in ExpandedAt(t, t.nodes[x].at)
    ensures TwinReady(r, s0, h, t, x, y, q, u)
  {
    hide Ordered, Capped, Grown, Unique, Exact, WellFormed;
    assert Leq(PrioAt(r, s0, h, t, y), PrioAt(r, s0, h, t, x));
    Admissible(r, s0, h, t.nodes[x], q, u);
  }

  lemma CapSettles(r: Fst<Weight>, s0: nat, h: seq<Weight>, n: nat, t: Tree, last: Weight, x: nat, q: seq<Edge>, u: nat)
    requires Explored(r, s0, h, n, t, last) && n > 0
    requires Known(t, x) && Real(r, s0, t.nodes[x]) && IsPath(r, t.nodes[x].at, q, u) && CappedAt(r, s0, h, t, n, x)
    requires forall y :: y in ExpandedAt(t, t.nodes[x].at) ==>
        TwinReady(r, s0, h, t, x, y, q, u) && Settled(r, s0, h, n, t, y, q, u)
    ensures Settled(r, s0, h, n, t, x, q, u)
  {
    hide Explored, CappedAt, Out, Real, PrioAt, Whole, ExpandedAt;
    var twins := ExpandedAt(t, t.nodes[x].at);
    if y :| y in twins && !Out(t, t.nodes[y].path + q, u) {
      assert TwinReady(r, s0, h, t, x, y, q, u) && Settled(r, s0, h, n, t, y, q, u);
    } else {
      AllTwinsOut(r, s0, h, n, t, last, x, q, u);
    }
  }

  /** When the completions of all the twins have come out, the last of them bounds the rest. */
  lemma AllTwinsOut(r: Fst<Weight>, s0: nat, h: seq<Weight>, n: nat, t: Tree, last: Weight, x: nat, q: seq<Edge>,
                    u: nat)
    requires Explored(r, s0, h, n, t, last) && n > 0
    requires Known(t, x) && Real(r, s0, t.nodes[x]) && IsPath(r, t.nodes[x].at, q, u) && CappedAt(r, s0, h, t, n, x)
    requires forall y :: y in ExpandedAt(t, t.nodes[x].at) ==>
        TwinReady(r, s0, h, t, x, y, q, u) && Out(t, t.nodes[y].path + q, u)
    ensures Settled(r, s0, h, n, t, x, q, u)
  {
    hide Real, Ordered, Grown, Out;
    var v := t.nodes[x].at;
    var twins := ExpandedAt(t, v);
    var ids := TwinsOut(r, s0, t, twins, v, q, u);
    var l := LastIn(t, ids, n);
    assert TwinOf(t, twins, l, q, u);
    var z: nat :| z in twins && Known(t, z) && t.nodes[l] == Node(t.nodes[z].path + q, u, true);
    assert TwinReady(r, s0, h, t, x, z, q, u);
    LastPrio(r, s0, h, t, l, z, q, u);
  }

  /** If `n` emitted paths are in a set, the last of at most `n` is. */
  lemma LastIn(t: Tree, ids: set<nat>, n: nat) returns (l: nat)
    requires |ids| == n > 0 && |t.emitted| <= n && forall x :: x in ids ==> x in t.emitted
    ensures |t.emitted| == n && l == t.emitted[n-1] && l in ids
  {
    var all := Elements(t.emitted);
    SubsetEqual(ids, all);
    l := t.emitted[n-1];
    assert l in all;
  }

  lemma {:induction false} Elements(s: seq<nat>) returns (all: set<nat>)
    ensures |all| <= |s| && forall x :: x in all <==> x in s
  {
    if s == [] {
      all := {};
    } else {
      var m := |s| - 1;
      all := Elements(s[..m]);
      all := all + {s[m]};
      assert s == s[..m] + [s[m]];
    }
  }

  lemma {:induction false} SubsetEqual(a: set<nat>, b: set<nat>)
    requires a <= b
    ensures |a| <= |b| && (|a| == |b| ==> a == b)
  {
    if a != {} {
      var x :| x in a;
      SubsetEqual(a - {x}, b - {x});
      assert a == (a - {x}) + {x} && b == (b - {x}) + {x};
    }
  }

  lemma LastPrio(r: Fst<Weight>, s0: nat, h: seq<Weight>, t: Tree, l: nat, z: nat, q: seq<Edge>, u: nat)
    requires Sorted(r, s0, t) && Known(t, l) && Known(t, z) && t.nodes[l] == Node(t.nodes[z].path + q, u, true)
    requires Real(r, s0, t.nodes[z]) && IsPath(r, t.nodes[z].at, q, u)
    ensures PrioAt(r, s0, h, t, l) == Whole(r, s0, t.nodes[z], q, u)
  {
    assert Real(r, s0, t.nodes[l]);
    CostConcat(r, s0, t.nodes[z].path, t.nodes[z].at, q, u);
  }
}
