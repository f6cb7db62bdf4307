/** `single_shortest_path` and its backtrace. */
module ShortestPaths {
  import opened Fsts
  import opened Relaxations
  import opened Weights

  type Parents = seq<Option<(nat, nat)>>

  // ------------------------------------------------ parent pointers

  /** `k` parent steps lead from `v` to the source. */
  predicate Rooted(parent: Parents, source: nat, v: nat, k: nat)
    decreases k
  {
    if k == 0 then v == source
    else v < |parent| && parent[v].Some? && Rooted(parent, source, parent[v].value.0, k - 1)
  }

  ghost predicate HasRoot(parent: Parents, source: nat, v: nat) {
    exists k: nat :: Rooted(parent, source, v, k)
  }

  /** The parent arc of `v` ends there, and `v` is no closer than it says. */
  ghost predicate ParentArc(f: Fst<Weight>, d: seq<Weight>, parent: Parents, v: nat)
    requires v < |parent| && parent[v].Some? && v < |d|
  {
    var e := Edge(parent[v].value.0, parent[v].value.1);
    IsEdge(f, e) && Arc(f, e).nextstate == v && e.src < |d| && d[e.src].Fin? && Arc(f, e).weight.Fin?
      && Leq(Times(d[e.src], Arc(f, e).weight), d[v])
  }

  ghost predicate ParentTree(f: Fst<Weight>, source: nat, d: seq<Weight>, parent: Parents) {
    && |parent| == |d| == |f.states| && source < |d| && parent[source] == None
    && forall v :: 0 <= v < |d| ==>
         && (parent[v].Some? ==> ParentArc(f, d, parent, v))
         && (d[v].Fin? ==> HasRoot(parent, source, v))
  }

  /** A state strictly closer than `v` does not have `v` among its ancestors, so a new parent for `v` leaves its chain
      alone. */
  lemma {:induction false} CloserKeeps(f: Fst<Weight>, source: nat, d: seq<Weight>, parent: Parents, u: nat, k: nat,
                                       v: nat, new_: (nat, nat))
    requires ParentTree(f, source, d, parent) && NonNegativeArcs(f) && Rooted(parent, source, u, k)
    requires u < |d| && v < |d| && !Leq(d[v], d[u])
    ensures Rooted(parent[v := Some(new_)], source, u, k)
    decreases k
  {
    if k > 0 {
      assert ParentArc(f, d, parent, u);
      var e := Edge(parent[u].value.0, parent[u].value.1);
      assert NonNegative(Arc(f, e).weight);
      CloserKeeps(f, source, d, parent, e.src, k - 1, v, new_);
    }
  }

  /** Chains through `v` continue with its new parent. */
  lemma {:induction false} ChainsKeep(parent: Parents, source: nat, x: nat, k: nat, v: nat, new_: (nat, nat), ku: nat)
    returns (k': nat)
    requires v < |parent| && Rooted(parent, source, x, k) && Rooted(parent[v := Some(new_)], source, new_.0, ku)
    ensures Rooted(parent[v := Some(new_)], source, x, k')
    decreases k
  {
    if x == v {
      k' := ku + 1;
    } else if k == 0 {
      k' := 0;
    } else {
      k' := ChainsKeep(parent, source, parent[x].value.0, k - 1, v, new_, ku);
      k' := k' + 1;
    }
  }

  /** Improving `v` through arc `i` of `u` keeps the pointers a tree: zero-weight cycles cannot close a loop. */
  lemma ImproveTree(f: Fst<Weight>, source: nat, d: seq<Weight>, parent: Parents, u: nat, i: nat)
    requires WellFormed(f) && ParentTree(f, source, d, parent) && NonNegativeArcs(f) && u < |d| && i < |f.states[u].trs|
    requires var tr := f.states[u].trs[i]; var w := Times(d[u], tr.weight);
             tr.nextstate != source && w.Fin? && !Leq(d[tr.nextstate], w)
    ensures var tr := f.states[u].trs[i]; var t := tr.nextstate;
            ParentTree(f, source, d[t := Times(d[u], tr.weight)], parent[t := Some((u, i))])
  {
    var tr := f.states[u].trs[i];
    var t := tr.nextstate;
    var w := Times(d[u], tr.weight);
    var d', parent' := d[t := w], parent[t := Some((u, i))];
    assert NonNegative(tr.weight);
    var ku: nat :| Rooted(parent, source, u, ku);
    CloserKeeps(f, source, d, parent, u, ku, t, (u, i));
    forall v | 0 <= v < |d'| && d'[v].Fin? ensures HasRoot(parent', source, v) {
      if v == t {
        assert Rooted(parent', source, v, ku + 1);
      } else {
        assert HasRoot(parent, source, v);
        var k: nat :| Rooted(parent, source, v, k);
        var k' := ChainsKeep(parent, source, v, k, t, (u, i), ku);
      }
    }
    forall v | 0 <= v < |d'| && parent'[v].Some? ensures ParentArc(f, d', parent', v) {
      assert v != t ==> ParentArc(f, d, parent, v);
    }
  }

  // ------------------------------------------------ the best final state

  /** `fd` is at most the cost of stopping at any clean state, and is paid by stopping at `fp`. */
  ghost predicate BestFinal(f: Fst<Weight>, d: seq<Weight>, dirty: set<nat>, fd: Weight, fp: Option<nat>) {
    && |d| == |f.states|
    && (forall u :: 0 <= u < |d| && u !in dirty ==> Leq(fd, Times(d[u], FinalWeight(f, u))))
    && match fp {
         case None => fd == ZERO
         case Some(p) => p < |d| && fd.Fin? && IsFinal(f, p) && Leq(Times(d[p], FinalWeight(f, p)), fd)
       }
  }

  ghost predicate SearchInv(f: Fst<Weight>, source: nat, d: seq<Weight>, parent: Parents, enqueued: seq<bool>,
                            queue: set<nat>) {
    && ParentTree(f, source, d, parent) && |enqueued| == |f.states|
    && (forall v :: v in queue ==> v < |enqueued|)
    && forall v :: 0 <= v < |enqueued| ==> (enqueued[v] <==> v in queue)
  }

  /** Between two arcs of the dequeued state `s`. */
  ghost predicate Searching(f: Fst<Weight>, source: nat, d: seq<Weight>, parent: Parents, enqueued: seq<bool>,
                            queue: set<nat>, s: nat, pos: nat, fd: Weight, fp: Option<nat>)
  {
    Scanning(f, source, d, queue, s, pos) && SearchInv(f, source, d, parent, enqueued, queue)
      && BestFinal(f, d, queue, fd, fp)
  }

  /** The next arc offers nothing. */
  lemma SearchStay(f: Fst<Weight>, source: nat, d: seq<Weight>, parent: Parents, enqueued: seq<bool>, queue: set<nat>,
                   s: nat, pos: nat, fd: Weight, fp: Option<nat>)
    requires WellFormed(f) && NonNegativeArcs(f) && Searching(f, source, d, parent, enqueued, queue, s, pos, fd, fp)
    requires s < |f.states| && pos < |f.states[s].trs|
    ensures s < |d| == |parent| == |enqueued| == |f.states| && f.states[s].trs[pos].nextstate < |d|
    ensures enqueued[f.states[s].trs[pos].nextstate] ==> f.states[s].trs[pos].nextstate in queue
    ensures var tr := f.states[s].trs[pos];
            Leq(d[tr.nextstate], Times(d[s], tr.weight)) ==>
                Searching(f, source, d, parent, enqueued, queue, s, pos + 1, fd, fp)
  {
    hide Scanning, NonNegativeArcs, BestFinal;
    ScanArc(f, source, d, queue, s, pos);
  }

  /** The next arc improves its target. */
  lemma SearchImprove(f: Fst<Weight>, source: nat, d: seq<Weight>, parent: Parents, enqueued: seq<bool>,
                      queue: set<nat>, s: nat, pos: nat, fd: Weight, fp: Option<nat>, t: nat, w: Weight)
    requires WellFormed(f) && NonNegativeArcs(f) && Searching(f, source, d, parent, enqueued, queue, s, pos, fd, fp)
    requires s < |f.states| == |d| == |parent| == |enqueued| && pos < |f.states[s].trs|
    requires t == f.states[s].trs[pos].nextstate < |d| && w == Times(d[s], f.states[s].trs[pos].weight) && !Leq(d[t], w)
    ensures t != s && NonNegative(d[t]) && w.Fin? && w.v >= 0
    ensures Searching(f, source, d[t := w], parent[t := Some((s, pos))], enqueued[t := true], queue + {t}, s, pos + 1,
                      fd, fp)
  {
    hide Scanning, NonNegativeArcs, BestFinal, ParentTree;
    ScanArc(f, source, d, queue, s, pos);
    ImproveTree(f, source, d, parent, s, pos);
    ImproveBest(f, d, queue, fd, fp, t, w);
  }

  lemma ImproveBest(f: Fst<Weight>, d: seq<Weight>, dirty: set<nat>, fd: Weight, fp: Option<nat>, t: nat, w: Weight)
    requires BestFinal(f, d, dirty, fd, fp) && t < |d| && !Leq(d[t], w)
    ensures BestFinal(f, d[t := w], dirty + {t}, fd, fp)
  {
  }

  /** Scans the arcs of a dequeued state. */
  method ScanArcs(f: Fst<Weight>, source: nat, s: nat, distance0: seq<Weight>, parent0: Parents, enqueued0: seq<bool>,
                  queue0: set<nat>, ghost fd: Weight, ghost fp: Option<nat>)
    returns (distance: seq<Weight>, parent: Parents, enqueued: seq<bool>, queue: set<nat>)
    requires WellFormed(f) && NonNegativeArcs(f) && s < |f.states| == |distance0|
    requires Searching(f, source, distance0, parent0, enqueued0, queue0, s, 0, fd, fp)
    ensures Searching(f, source, distance, parent, enqueued, queue, s, |f.states[s].trs|, fd, fp)
    ensures Progressed(distance0, queue0, distance, queue)
  {
    distance, parent, enqueued, queue := distance0, parent0, enqueued0, queue0;
    hide Searching, WellFormed, NonNegativeArcs, Unreached, SumOf;
    for pos := 0 to |f.states[s].trs|
      invariant |distance| == |f.states| && distance[s] == distance0[s]
      invariant Searching(f, source, distance, parent, enqueued, queue, s, pos, fd, fp)
      invariant Progressed(distance0, queue0, distance, queue)
    {
      var tr := f.states[s].trs[pos];
      SearchStay(f, source, distance, parent, enqueued, queue, s, pos, fd, fp);
      var weight := Times(distance0[s], tr.weight);
      if distance[tr.nextstate] != Plus(distance[tr.nextstate], weight) {
        SearchImprove(f, source, distance, parent, enqueued, queue, s, pos, fd, fp, tr.nextstate, weight);
        Improvement(distance, tr.nextstate, weight);
        assert enqueued[tr.nextstate] ==> queue + {tr.nextstate} == queue && enqueued[tr.nextstate := true] == enqueued;
        distance := distance[tr.nextstate := Plus(distance[tr.nextstate], weight)];
        parent := parent[tr.nextstate := Some((s, pos))];
        if !enqueued[tr.nextstate] {
          queue := queue + {tr.nextstate};
          enqueued := enqueued[tr.nextstate := true];
        }
      }
    }
  }

  /** What holds between two turns of the queue loop. */
  ghost predicate Between(f: Fst<Weight>, source: nat, d: seq<Weight>, parent: Parents, enqueued: seq<bool>,
                          queue: set<nat>, fd: Weight, fp: Option<nat>)
  {
    Estimates(f, source, d, queue) && SearchInv(f, source, d, parent, enqueued, queue) && BestFinal(f, d, queue, fd, fp)
  }

  lemma StartSearch(f: Fst<Weight>, source: nat)
    requires WellFormed(f) && source < |f.states|
    ensures var n := |f.states|;
            Between(f, source, seq(n, _ => ZERO)[source := ONE], seq(n, _ => None), seq(n, _ => false)[source := true],
                    {source}, ZERO, None)
  {
    var n := |f.states|;
    InitialEstimates(f, source);
    var d, parent: Parents := seq(n, _ => ZERO)[source := ONE], seq(n, _ => None);
    assert Rooted(parent, source, source, 0);
    assert HasRoot(parent, source, source);
    assert ParentTree(f, source, d, parent);
  }

  lemma StartTurn(f: Fst<Weight>, source: nat, d: seq<Weight>, parent: Parents, enqueued: seq<bool>, queue: set<nat>,
                  fd: Weight, fp: Option<nat>, s: nat)
    requires Between(f, source, d, parent, enqueued, queue, fd, fp) && s in queue
    ensures s < |enqueued| == |d| == |f.states|
    ensures var plus := Plus(fd, Times(d[s], FinalWeight(f, s)));
            Searching(f, source, d, parent, enqueued[s := false], queue - {s}, s, 0, plus, if fd != plus then Some(s)
                      else fp)
  {
    hide Estimates, Scanning, ParentTree;
    StartScan(f, source, d, queue, s);
  }

  lemma EndTurn(f: Fst<Weight>, source: nat, d: seq<Weight>, parent: Parents, enqueued: seq<bool>, queue: set<nat>,
                fd: Weight, fp: Option<nat>, s: nat)
    requires s < |f.states| && Searching(f, source, d, parent, enqueued, queue, s, |f.states[s].trs|, fd, fp)
    ensures Between(f, source, d, parent, enqueued, queue, fd, fp)
  {
    EndScan(f, source, d, queue, s);
  }

  /** Exact distances with a tree of tight parent arcs, and the best final state. */
  ghost predicate Searched(f: Fst<Weight>, source: nat, d: seq<Weight>, parent: Parents, fd: Weight, fp: Option<nat>) {
    Estimates(f, source, d, {}) && ParentTree(f, source, d, parent) && BestFinal(f, d, {}, fd, fp)
  }

  /** Relaxes from the start state until the queue, served in any order, is empty. */
  method SingleShortestPath(f: Fst<Weight>)
    returns (distance: seq<Weight>, parent: Parents, fDistance: Weight, fParent: Option<nat>)
    requires WellFormed(f) && NonNegativeArcs(f)
    ensures f.start.None? ==> distance == [] && parent == [] && fParent == None
    ensures f.start.Some? ==> Searched(f, f.start.value, distance, parent, fDistance, fParent)
  {
    distance, parent, fDistance, fParent := [], [], ZERO, None;
    if f.start.None? {
      return;
    }
    var source, n := f.start.value, |f.states|;
    StartSearch(f, source);
    distance := seq(n, _ => ZERO)[source := ONE];
    parent := seq(n, _ => None);
    var enqueued := seq(n, _ => false)[source := true];
    var queue := {source};
    hide Between, Searching, WellFormed, NonNegativeArcs;
    while queue != {}
      invariant Between(f, source, distance, parent, enqueued, queue, fDistance, fParent)
      decreases Unreached(distance), SumOf(distance), queue
    {
      var s :| s in queue;
      ghost var queue0, distance0 := queue, distance;
      StartTurn(f, source, distance, parent, enqueued, queue, fDistance, fParent, s);
      queue := queue - {s};
      enqueued := enqueued[s := false];
      var plus := Plus(fDistance, Times(distance[s], FinalWeight(f, s)));
      if fDistance != plus {
        fDistance, fParent := plus, Some(s);
      }
      distance, parent, enqueued, queue := ScanArcs(f, source, s, distance, parent, enqueued, queue, fDistance,
                                                    fParent);
      EndTurn(f, source, distance, parent, enqueued, queue, fDistance, fParent, s);
    }
    EndSearch(f, source, distance, parent, enqueued, fDistance, fParent);
  }

  lemma EndSearch(f: Fst<Weight>, source: nat, d: seq<Weight>, parent: Parents, enqueued: seq<bool>, fd: Weight,
                  fp: Option<nat>)
    requires Between(f, source, d, parent, enqueued, {}, fd, fp)
    ensures Searched(f, source, d, parent, fd, fp)
  {
  }

  // ------------------------------------------------ backtrace

  /** `out` is the path `p`, which ends in `t`, laid out backwards: state `|p|` starts it, state 0 is final. */
  ghost predicate IsChain(f: Fst<Weight>, p: seq<Edge>, t: nat, out: Fst<Weight>) {
    && out.start == Some(|p|) && t < |f.states| && ChainStates(f, p, t, out.states)
  }

  ghost predicate ChainStates(f: Fst<Weight>, p: seq<Edge>, t: nat, states: seq<State<Weight>>)
    requires t < |f.states|
  {
    && |states| == |p| + 1 && states[0] == State(f.states[t].finalWeight, [])
    && forall i :: 0 <= i < |p|
         ==> IsEdge(f, p[i]) && states[|p|-i] == State(None, [Arc(f, p[i]).(nextstate := |p|-1-i)])
  }

  /** With exact distances parent arcs are tight. */
  lemma TightArc(f: Fst<Weight>, source: nat, d: seq<Weight>, parent: Parents, v: nat) returns (e: Edge)
    requires Estimates(f, source, d, {}) && ParentTree(f, source, d, parent) && v < |d| && parent[v].Some?
    ensures e == Edge(parent[v].value.0, parent[v].value.1) && IsEdge(f, e) && Arc(f, e).nextstate == v
    ensures d[v] == Times(d[e.src], Arc(f, e).weight) && d[v].Fin? && d[e.src].Fin?
  {
    e := Edge(parent[v].value.0, parent[v].value.1);
    assert ParentArc(f, d, parent, v);
    assert Relaxed(f, d, e.src, e.pos);
  }

  /** One more state in front of the chain. */
  lemma ChainGrows(f: Fst<Weight>, p: seq<Edge>, t: nat, states: seq<State<Weight>>, e: Edge)
    requires t < |f.states| && ChainStates(f, p, t, states) && IsEdge(f, e)
    ensures ChainStates(f, [e] + p, t, states + [State(None, [Arc(f, e).(nextstate := |p|)])])
  {
    var q, states' := [e] + p, states + [State(None, [Arc(f, e).(nextstate := |p|)])];
    forall i | 0 <= i < |q| ensures IsEdge(f, q[i])
      && states'[|q|-i] == State(None, [Arc(f, q[i]).(nextstate := |q|-1-i)]) {
      if i > 0 {
        assert q[i] == p[i-1];
      }
    }
  }

  /** The chain built so far: `p` leads from the last state visited, `v`, to `t`. */
  ghost predicate Traced(f: Fst<Weight>, source: nat, d: seq<Weight>, parent: Parents, v: nat, k: nat, p: seq<Edge>,
                         t: nat, states: seq<State<Weight>>) {
    && v < |d| && t < |d| == |f.states| && Rooted(parent, source, v, k)
    && IsPath(f, v, p, t) && Times(d[v], Cost(f, v, p, t)) == d[t] && ChainStates(f, p, t, states)
  }

  lemma TraceBack(f: Fst<Weight>, source: nat, d: seq<Weight>, parent: Parents, v: nat, k: nat, p: seq<Edge>, t: nat,
                  states: seq<State<Weight>>)
    requires Estimates(f, source, d, {}) && ParentTree(f, source, d, parent)
             && Traced(f, source, d, parent, v, k, p, t, states)
    requires v < |parent| && parent[v].Some?
    ensures var e := Edge(parent[v].value.0, parent[v].value.1);
            k > 0 && IsEdge(f, e) && |states| == |p| + 1
            && Traced(f, source, d, parent, e.src, k - 1, [e] + p, t,
                      states + [State(None, [Arc(f, e).(nextstate := |p|)])])
  {
    var e := TightArc(f, source, d, parent, v);
    ChainGrows(f, p, t, states, e);
    assert ([e] + p)[1..] == p;
    assert IsPath(f, e.src, [e] + p, t);
  }

  lemma TraceStart(f: Fst<Weight>, source: nat, d: seq<Weight>, parent: Parents, fd: Weight, t: nat) returns (k: nat)
    requires Searched(f, source, d, parent, fd, Some(t))
    ensures Estimates(f, source, d, {}) && ParentTree(f, source, d, parent) && t < |d| == |parent| == |f.states|
    ensures Traced(f, source, d, parent, t, k, [], t, [State(f.states[t].finalWeight, [])])
  {
    k := RootOf(f, source, d, parent, fd, t);
    hide Estimates, ParentTree, BestFinal, Rooted;
  }

  /** The trace ends at the source. */
  lemma TraceEnd(f: Fst<Weight>, source: nat, d: seq<Weight>, parent: Parents, v: nat, k: nat, p: seq<Edge>, t: nat,
                 states: seq<State<Weight>>)
    requires Traced(f, source, d, parent, v, k, p, t, states) && source < |d| && d[source] == ONE && v < |parent|
             && parent[v].None?
    ensures t < |d| && IsPath(f, source, p, t) && Cost(f, source, p, t) == d[t] && states != []
            && IsChain(f, p, t, Fst(states, Some(|states| - 1)))
  {
  }

  lemma SourceAtOne(f: Fst<Weight>, source: nat, d: seq<Weight>, parent: Parents)
    requires Estimates(f, source, d, {}) && ParentTree(f, source, d, parent)
    ensures source < |d| && d[source] == ONE && |parent| == |d|
  {
  }

  method Backtrace(f: Fst<Weight>, fParent: Option<nat>, parent: Parents, ghost source: nat, ghost d: seq<Weight>,
                   ghost fd: Weight)
    returns (out: Fst<Weight>, ghost p: seq<Edge>)
    requires Searched(f, source, d, parent, fd, fParent) || (fParent == None && parent == [])
    ensures fParent.None? ==> out == Fst([], None)
    ensures fParent.Some? ==> var t := fParent.value;
              t < |d| && IsPath(f, source, p, t) && Cost(f, source, p, t) == d[t] && IsChain(f, p, t, out)
  {
    hide Searched, Estimates, ParentTree, Traced, IsChain, IsPath, Cost;
    var states: seq<State<Weight>> := [];
    var last: Option<nat> := None;
    var nextstate := fParent;
    ghost var k := 0;
    p := [];
    if fParent.Some? {
      k := TraceStart(f, source, d, parent, fd, fParent.value);
      SourceAtOne(f, source, d, parent);
    }
    while nextstate.Some?
      invariant last.None? ==> states == [] && p == [] && nextstate == fParent
      invariant last.None? && fParent.Some? ==>
                  Traced(f, source, d, parent, fParent.value, k, [], fParent.value,
                         [State(f.states[fParent.value].finalWeight, [])])
      invariant last.Some? ==>
        fParent.Some? && last.value < |parent| && Traced(f, source, d, parent, last.value, k, p, fParent.value, states)
      invariant last.Some? ==> nextstate == (match parent[last.value] case Some(e) => Some(e.0) case None => None)
      decreases if last.None? then k + 1 else k
    {
      var state := nextstate.value;
      if last.Some? {
        TraceBack(f, source, d, parent, last.value, k, p, fParent.value, states);
        var pos := parent[last.value].value.1;
        p := [Edge(state, pos)] + p;
        k := k - 1;
        states := states + [State(None, [f.states[state].trs[pos].(nextstate := |states| - 1)])];
      } else {
        states := [State(f.states[state].finalWeight, [])];
      }
      last := nextstate;
      nextstate := match parent[state] case Some(e) => Some(e.0) case None => None;
    }
    if fParent.Some? {
      TraceEnd(f, source, d, parent, last.value, k, p, fParent.value, states);
    }
    out := Fst(states, if states == [] then None else Some(|states| - 1));
  }

  lemma RootOf(f: Fst<Weight>, source: nat, d: seq<Weight>, parent: Parents, fd: Weight, t: nat) returns (k: nat)
    requires Searched(f, source, d, parent, fd, Some(t))
    ensures t < |d| == |parent| == |f.states| && Rooted(parent, source, t, k) && d[source] == ONE
  {
    assert HasRoot(parent, source, t);
    k :| Rooted(parent, source, t, k);
  }

  // ------------------------------------------------ the single shortest path

  /** No successful path is cheaper. */
  ghost predicate Cheapest(f: Fst<Weight>, p: seq<Edge>, t: nat) {
    Successful(f, p, t) && Total(f, p, t).Fin? &&
         forall q, u :: Successful(f, q, u) ==> Leq(Total(f, p, t), Total(f, q, u))
  }

  lemma BestIsCheapest(f: Fst<Weight>, d: seq<Weight>, parent: Parents, fd: Weight, fp: Option<nat>)
    requires f.start.Some? && Searched(f, f.start.value, d, parent, fd, fp)
    ensures forall q, u :: Successful(f, q, u) ==> Leq(fd, Total(f, q, u))
    ensures fp.Some? ==> var t := fp.value; t < |d| && IsFinal(f, t) && fd.Fin? && Times(d[t], FinalWeight(f, t)) == fd
  {
    hide ParentTree, Relaxed, Witnessed;
    forall q, u: nat | Successful(f, q, u) ensures Leq(fd, Total(f, q, u)) {
      PathBound(f, f.start.value, d, f.start.value, q, u);
      LeqTimes(d[u], Cost(f, f.start.value, q, u), FinalWeight(f, u));
      assert Leq(fd, Times(d[u], FinalWeight(f, u)));
    }
  }

  /** `shortest_path` with one path asked for: the chain of a cheapest successful path, or
      the empty machine exactly when no successful path has finite weight. */
  method ShortestPath(f: Fst<Weight>) returns (out: Fst<Weight>, ghost p: seq<Edge>, ghost t: nat)
    requires WellFormed(f) && NonNegativeArcs(f)
    ensures out.states == [] <==> forall q, u :: Successful(f, q, u) ==> Total(f, q, u) == ZERO
    ensures if out.states == [] then out == Fst([], None) else Cheapest(f, p, t) && IsChain(f, p, t, out)
  {
    var distance, parent, fDistance, fParent := SingleShortestPath(f);
    ghost var source := if f.start.Some? then f.start.value else 0;
    out, p := Backtrace(f, fParent, parent, source, distance, fDistance);
    t := if fParent.Some? then fParent.value else 0;
    if f.start.Some? {
      BestIsCheapest(f, distance, parent, fDistance, fParent);
      hide Estimates, ParentTree;
      assert fParent.Some? ==> Cheapest(f, p, t);
    }
  }
}
