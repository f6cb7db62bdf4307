/** The queue of `n_shortest_path`: `ShortestPathCompare` and the binary `Heap`. */
module Heaps {
  import opened Fsts
  import opened Weights

  /** An output state stands for a partial path to an input state, or for a complete path. */
  datatype Pair = Pair(state: Option<nat>, weight: Weight)

  function PWeight(distance: seq<Weight>, state: Option<nat>): Weight {
    if state.Some? then (if state.value < |distance| then distance[state.value] else ZERO) else ONE
  }

  /** The least total that the pair may still reach. */
  function Priority(distance: seq<Weight>, p: Pair): Weight {
    Times(PWeight(distance, p.state), p.weight)
  }

  /** `compare`: whether `px` waits behind `py`. */
  predicate PairLess(distance: seq<Weight>, px: Pair, py: Pair) {
    var wx, wy := Priority(distance, px), Priority(distance, py);
    if px.state.None? && py.state.Some? then NaturalLess(wy, wx) || wx == wy
    else if px.state.Some? && py.state.None? then NaturalLess(wy, wx) && wx != wy
    else NaturalLess(wy, wx)
  }

  /** Heavier pairs wait, and complete paths wait for partial ones of the same weight. */
  lemma PairLessExact(distance: seq<Weight>, px: Pair, py: Pair)
    ensures var wx, wy := Priority(distance, px), Priority(distance, py);
            PairLess(distance, px, py) <==> !Leq(wx, wy) || (wx == wy && px.state.None? && py.state.Some?)
  {
  }

  lemma NotLessTransitive(distance: seq<Weight>, x: Pair, y: Pair, z: Pair)
    requires !PairLess(distance, x, y) && !PairLess(distance, y, z)
    ensures !PairLess(distance, x, z)
  {
  }

  lemma LessAsymmetric(distance: seq<Weight>, x: Pair, y: Pair)
    requires PairLess(distance, x, y)
    ensures !PairLess(distance, y, x) && !PairLess(distance, x, x)
  {
  }

  predicate Indexed(pairs: seq<Pair>, data: seq<nat>) {
    forall i :: 0 <= i < |data| ==> data[i] < |pairs|
  }

  predicate Less(distance: seq<Weight>, pairs: seq<Pair>, x: nat, y: nat)
    requires x < |pairs| && y < |pairs|
  {
    PairLess(distance, pairs[x], pairs[y])
  }

  function Parent(i: nat): nat
    requires i > 0
  {
    (i - 1) / 2
  }

  /** No element waits behind its child, except possibly at the child `hole`. */
  ghost predicate HeapButUp(distance: seq<Weight>, pairs: seq<Pair>, data: seq<nat>, hole: nat)
    requires Indexed(pairs, data)
  {
    && (forall i: nat :: 0 < i < |data| && i != hole ==> InOrder(distance, pairs, data, Parent(i), i))
    && (forall i: nat :: 0 < i < |data| && Parent(i) == hole && hole > 0 ==>
        InOrder(distance, pairs, data, Parent(hole), i))
  }

  ghost predicate InOrder(distance: seq<Weight>, pairs: seq<Pair>, data: seq<nat>, i: nat, j: nat)
    requires Indexed(pairs, data)
  {
    i < |data| && j < |data| && !Less(distance, pairs, data[i], data[j])
  }

  ghost predicate IsHeap(distance: seq<Weight>, pairs: seq<Pair>, data: seq<nat>)
    requires Indexed(pairs, data)
  {
    forall i: nat :: 0 < i < |data| ==> InOrder(distance, pairs, data, Parent(i), i)
  }

  /** The parents of a position are in order, except possibly the children of `hole`. */
  ghost predicate HeapButDown(distance: seq<Weight>, pairs: seq<Pair>, data: seq<nat>, hole: nat)
    requires Indexed(pairs, data)
  {
    && (forall i: nat :: 0 < i < |data| && Parent(i) != hole ==> InOrder(distance, pairs, data, Parent(i), i))
    && (forall i: nat :: 0 < i < |data| && Parent(i) == hole && hole > 0 ==>
        InOrder(distance, pairs, data, Parent(hole), i))
  }

  function Swap(data: seq<nat>, i: nat, j: nat): (r: seq<nat>)
    requires i < |data| && j < |data|
    ensures |r| == |data| && multiset(r) == multiset(data)
  {
    data[i := data[j]][j := data[i]]
  }

  /** The first element of a heap waits behind none. */
  lemma {:induction false} TopIsFirst(distance: seq<Weight>, pairs: seq<Pair>, data: seq<nat>, i: nat)
    requires Indexed(pairs, data) && IsHeap(distance, pairs, data) && i < |data|
    ensures !Less(distance, pairs, data[0], data[i])
  {
    if i > 0 {
      TopIsFirst(distance, pairs, data, Parent(i));
      assert InOrder(distance, pairs, data, Parent(i), i);
      NotLessTransitive(distance, pairs[data[0]], pairs[data[Parent(i)]], pairs[data[i]]);
    }
  }

  class Heap {
    var data: seq<nat>

    constructor ()
      ensures data == []
    {
      data := [];
    }

    method SiftUp(distance: seq<Weight>, pairs: seq<Pair>, idx: nat)
      requires Indexed(pairs, data) && idx < |data| && HeapButUp(distance, pairs, data, idx)
      modifies this
      ensures Indexed(pairs, data) && IsHeap(distance, pairs, data) && multiset(data) == old(multiset(data))
      decreases idx
    {
      if idx > 0 {
        var parent := (idx - 1) / 2;
        if Less(distance, pairs, data[parent], data[idx]) {
          UpStep(distance, pairs, data, idx);
          data := Swap(data, idx, parent);
          SiftUp(distance, pairs, parent);
        } else {
          assert InOrder(distance, pairs, data, Parent(idx), idx);
        }
      }
    }

    method Push(distance: seq<Weight>, pairs: seq<Pair>, v: nat)
      requires Indexed(pairs, data) && IsHeap(distance, pairs, data) && v < |pairs|
      modifies this
      ensures Indexed(pairs, data) && IsHeap(distance, pairs, data)
              && multiset(data) == old(multiset(data)) + multiset{v}
    {
      data := data + [v];
      PushGap(distance, pairs, old(data), v);
      SiftUp(distance, pairs, |data| - 1);
    }

    method SiftDown(distance: seq<Weight>, pairs: seq<Pair>, idx: nat)
      requires Indexed(pairs, data) && idx < |data| && HeapButDown(distance, pairs, data, idx)
      modifies this
      ensures Indexed(pairs, data) && IsHeap(distance, pairs, data) && multiset(data) == old(multiset(data))
      decreases |data| - idx
    {
      hide Less, HeapButDown, IsHeap, InOrder, Parent;
      var curVal := data[idx];
      var child1, child2 := 2 * idx + 1, 2 * idx + 2;
      if child1 >= |data| {
        NoChildren(distance, pairs, data, idx);
        return;
      }
      var biggest := if child2 >= |data| then child1
                     else if Less(distance, pairs, data[child1], data[child2]) then child2 else child1;
      BiggestChild(distance, pairs, data, idx, biggest);
      if !Less(distance, pairs, data[biggest], curVal) {
        DownStep(distance, pairs, data, idx, biggest);
        data := Swap(data, idx, biggest);
        SiftDown(distance, pairs, biggest);
      } else {
        DownDone(distance, pairs, data, idx, biggest);
      }
    }

    /** Takes out an element that waits behind none. */
    method Pop(distance: seq<Weight>, pairs: seq<Pair>) returns (top: nat)
      requires Indexed(pairs, data) && IsHeap(distance, pairs, data) && data != []
      modifies this
      ensures Indexed(pairs, data) && IsHeap(distance, pairs, data)
              && multiset(data) + multiset{top} == old(multiset(data))
      ensures top < |pairs| && forall x :: x in old(data) ==> x < |pairs| && !Less(distance, pairs, top, x)
    {
      hide *;
      TopBeatsAll(distance, pairs, data);
      top := data[0];
      if |data| == 1 {
        assert data == [top];
        data := [];
        EmptyHeap(distance, pairs);
      } else {
        var last := data[|data|-1];
        PopGap(distance, pairs, data);
        data := data[..|data|-1][0 := last];
        SiftDown(distance, pairs, 0);
      }
    }
  }

  lemma TopBeatsAll(distance: seq<Weight>, pairs: seq<Pair>, data: seq<nat>)
    requires Indexed(pairs, data) && IsHeap(distance, pairs, data) && data != []
    ensures data[0] < |pairs| && forall x :: x in data ==> x < |pairs| && !Less(distance, pairs, data[0], x)
  {
    hide Less;
    forall i: nat | i < |data| ensures !Less(distance, pairs, data[0], data[i]) {
      TopIsFirst(distance, pairs, data, i);
    }
  }

  lemma EmptyHeap(distance: seq<Weight>, pairs: seq<Pair>)
    ensures Indexed(pairs, []) && IsHeap(distance, pairs, [])
  {
  }

  lemma UpStep(distance: seq<Weight>, pairs: seq<Pair>, data: seq<nat>, idx: nat)
    requires Indexed(pairs, data) && 0 < idx < |data| && HeapButUp(distance, pairs, data, idx)
             && Less(distance, pairs, data[Parent(idx)], data[idx])
    ensures var d := Swap(data, idx, Parent(idx)); Indexed(pairs, d) && HeapButUp(distance, pairs, d, Parent(idx))
  {
    var p := Parent(idx);
    var d := Swap(data, idx, p);
    LessAsymmetric(distance, pairs[data[p]], pairs[data[idx]]);
    forall i: nat | 0 < i < |d| && i != p ensures InOrder(distance, pairs, d, Parent(i), i) {
      if i != idx {
        assert InOrder(distance, pairs, data, Parent(i), i);
        if Parent(i) == p {
          NotLessTransitive(distance, pairs[data[idx]], pairs[data[p]], pairs[data[i]]);
        }
      }
    }
    forall i: nat | 0 < i < |d| && Parent(i) == p && p > 0 ensures InOrder(distance, pairs, d, Parent(p), i) {
      assert InOrder(distance, pairs, data, Parent(p), p);
      if i != idx {
        assert InOrder(distance, pairs, data, Parent(i), i);
        NotLessTransitive(distance, pairs[data[Parent(p)]], pairs[data[p]], pairs[data[i]]);
      }
    }
  }

  lemma PushGap(distance: seq<Weight>, pairs: seq<Pair>, data: seq<nat>, v: nat)
    requires Indexed(pairs, data) && IsHeap(distance, pairs, data) && v < |pairs|
    ensures Indexed(pairs, data + [v]) && HeapButUp(distance, pairs, data + [v], |data|)
  {
    forall i: nat | 0 < i < |data| ensures InOrder(distance, pairs, data + [v], Parent(i), i) {
      assert InOrder(distance, pairs, data, Parent(i), i);
    }
  }

  lemma BiggestChild(distance: seq<Weight>, pairs: seq<Pair>, data: seq<nat>, idx: nat, big: nat)
    requires Indexed(pairs, data) && 2 * idx + 1 < |data|
    requires var c1, c2 := 2 * idx + 1, 2 * idx + 2;
             big == if c2 >= |data| then c1 else if Less(distance, pairs, data[c1], data[c2]) then c2 else c1
    ensures idx < big < |data| && Parent(big) == idx
    ensures forall i: nat :: 0 < i < |data| && Parent(i) == idx ==> InOrder(distance, pairs, data, big, i)
  {
    hide PairLess;
    var c1, c2 := 2 * idx + 1, 2 * idx + 2;
    NeverBehindItself(distance, pairs[data[c1]]);
    if c2 < |data| {
      NeverBehindItself(distance, pairs[data[c2]]);
      if Less(distance, pairs, data[c1], data[c2]) {
        LessAsymmetric(distance, pairs[data[c1]], pairs[data[c2]]);
      }
    }
    forall i: nat | 0 < i < |data| && Parent(i) == idx ensures i == c1 || i == c2 {
    }
  }

  lemma NeverBehindItself(distance: seq<Weight>, x: Pair)
    ensures !PairLess(distance, x, x)
  {
  }

  lemma NoChildren(distance: seq<Weight>, pairs: seq<Pair>, data: seq<nat>, idx: nat)
    requires Indexed(pairs, data) && HeapButDown(distance, pairs, data, idx) && 2 * idx + 1 >= |data|
    ensures IsHeap(distance, pairs, data)
  {
  }

  lemma DownStep(distance: seq<Weight>, pairs: seq<Pair>, data: seq<nat>, idx: nat, big: nat)
    requires Indexed(pairs, data) && idx < big < |data| && Parent(big) == idx && HeapButDown(distance, pairs, data, idx)
    requires !Less(distance, pairs, data[big], data[idx])
    requires forall i: nat :: 0 < i < |data| && Parent(i) == idx ==> InOrder(distance, pairs, data, big, i)
    ensures var d := Swap(data, idx, big); Indexed(pairs, d) && HeapButDown(distance, pairs, d, big)
  {
    var d := Swap(data, idx, big);
    forall i: nat | 0 < i < |d| && Parent(i) != big ensures InOrder(distance, pairs, d, Parent(i), i) {
      if Parent(i) == idx {
        assert InOrder(distance, pairs, data, big, i);
      } else {
        assert InOrder(distance, pairs, data, Parent(i), i);
        if i == idx {
          assert InOrder(distance, pairs, data, Parent(idx), big);
        }
      }
    }
    forall i: nat | 0 < i < |d| && Parent(i) == big ensures InOrder(distance, pairs, d, Parent(big), i) {
      assert InOrder(distance, pairs, data, Parent(i), i);
    }
  }

  lemma DownDone(distance: seq<Weight>, pairs: seq<Pair>, data: seq<nat>, idx: nat, big: nat)
    requires Indexed(pairs, data) && idx < big < |data| && Parent(big) == idx && HeapButDown(distance, pairs, data, idx)
    requires Less(distance, pairs, data[big], data[idx])
    requires forall i: nat :: 0 < i < |data| && Parent(i) == idx ==> InOrder(distance, pairs, data, big, i)
    ensures IsHeap(distance, pairs, data)
  {
    LessAsymmetric(distance, pairs[data[big]], pairs[data[idx]]);
    forall i: nat | 0 < i < |data| && Parent(i) == idx ensures InOrder(distance, pairs, data, idx, i) {
      NotLessTransitive(distance, pairs[data[idx]], pairs[data[big]], pairs[data[i]]);
    }
  }

  lemma PopGap(distance: seq<Weight>, pairs: seq<Pair>, data: seq<nat>)
    requires Indexed(pairs, data) && IsHeap(distance, pairs, data) && |data| > 1
    ensures var d := data[..|data|-1][0 := data[|data|-1]];
            Indexed(pairs, d) && HeapButDown(distance, pairs, d, 0) && multiset(d) + multiset{data[0]} == multiset(data)
  {
    var n := |data| - 1;
    var d := data[..n][0 := data[n]];
    assert data == [data[0]] + data[1..n] + [data[n]];
    assert d == [data[n]] + data[1..n];
    forall i: nat | 0 < i < |d| && Parent(i) != 0 ensures InOrder(distance, pairs, d, Parent(i), i) {
      assert InOrder(distance, pairs, data, Parent(i), i);
    }
  }
}
