/** `fst_depth`: heights of the states of an acyclic machine. */
module Depths {
  import opened Fsts
  import opened Acceptors
  import opened Minimals

  /** One more than the highest target, or 0 without arcs. */
  ghost predicate HeightAt<W>(f: Fst<W>, heights: seq<int>, s: nat)
    requires s < |f.states|
  {
    && s < |heights| && heights[s] >= 0
    && (forall i :: 0 <= i < |f.states[s].trs| ==> Lower(f, heights, s, i))
    && (heights[s] == 0 ||
         exists i :: 0 <= i < |f.states[s].trs| && Lower(f, heights, s, i)
           && heights[f.states[s].trs[i].nextstate] == heights[s] - 1)
  }

  ghost predicate Lower<W>(f: Fst<W>, heights: seq<int>, s: nat, i: nat)
    requires s < |f.states| && i < |f.states[s].trs|
  {
    var t := f.states[s].trs[i].nextstate;
    s < |heights| && t < |heights| && 0 <= heights[t] < heights[s]
  }

  ghost predicate Heights<W>(f: Fst<W>, heights: seq<int>) {
    |heights| == |f.states| && forall s :: 0 <= s < |f.states| ==> HeightAt(f, heights, s)
  }

  // ------------------------------------------------ the recursion

  /** Examined states have their height; the open ones lead to the state about to be visited. */
  ghost predicate DepthInv<W>(f: Fst<W>, accessible: set<nat>, examined: set<nat>, heights: seq<int>) {
    && examined <= accessible && |heights| <= |f.states|
    && (forall v :: v in accessible ==> v < |f.states| && v < |heights|)
    && (forall v :: v in examined ==> v < |f.states| && HeightAt(f, heights, v))
    && (forall v, i :: v in examined && 0 <= i < |f.states[v].trs| ==> f.states[v].trs[i].nextstate in examined)
  }

  ghost predicate OpenReach<W>(f: Fst<W>, open: set<nat>, s: nat) {
    forall v :: v in open ==> Reach(f, v, s)
  }

  lemma ArcBack<W>(f: Fst<W>, s: nat, i: nat)
    requires WellFormed(f) && Acyclic(f) && s < |f.states| && i < |f.states[s].trs|
    ensures !Reach(f, f.states[s].trs[i].nextstate, s)
  {
    var t := f.states[s].trs[i].nextstate;
    if Reach(f, t, s) {
      var p := ReachPath(f, t, s);
      assert ([Edge(s, i)] + p)[1..] == p;
      assert IsPath(f, s, [Edge(s, i)] + p, s);
      assert false;
    }
  }

  lemma HeightKept<W>(f: Fst<W>, h: seq<int>, h': seq<int>, examined: set<nat>)
    requires forall v :: v in examined ==> v < |f.states| && HeightAt(f, h, v)
    requires forall v, i :: v in examined && 0 <= i < |f.states[v].trs| ==> f.states[v].trs[i].nextstate in examined
    requires forall v :: v in examined ==> v < |h| && v < |h'| && h'[v] == h[v]
    ensures forall v :: v in examined ==> HeightAt(f, h', v)
  {
    forall v | v in examined ensures HeightAt(f, h', v) {
      assert HeightAt(f, h, v);
      forall i | 0 <= i < |f.states[v].trs| ensures Lower(f, h', v, i) {
        assert Lower(f, h, v, i) && f.states[v].trs[i].nextstate in examined;
      }
      if h[v] != 0 {
        var i :| 0 <= i < |f.states[v].trs| && Lower(f, h, v, i) && h[f.states[v].trs[i].nextstate] == h[v] - 1;
        assert Lower(f, h', v, i);
      }
    }
  }

  ghost function Unseen<W>(f: Fst<W>, accessible: set<nat>): set<nat> {
    set v: nat | v < |f.states| && v !in accessible
  }

  /** Every state that becomes accessible is examined, and examined states keep their heights. */
  ghost predicate DepthFrame(accessible0: set<nat>, examined0: set<nat>, heights0: seq<int>, accessible: set<nat>,
                             examined: set<nat>, heights: seq<int>) {
    && examined0 <= examined && accessible0 <= accessible && accessible - examined == accessible0 - examined0
    && |heights0| <= |heights| && forall v :: v in examined0 ==> v < |heights0| && heights[v] == heights0[v]
  }

  method FstDepth<W>(f: Fst<W>, s: nat, accessible0: set<nat>, examined0: set<nat>, heights0: seq<int>)
    returns (accessible: set<nat>, examined: set<nat>, heights: seq<int>)
    requires WellFormed(f) && Acyclic(f) && s < |f.states| && s !in accessible0
    requires DepthInv(f, accessible0, examined0, heights0) && OpenReach(f, accessible0 - examined0, s)
    ensures DepthInv(f, accessible, examined, heights) && s in examined
    ensures DepthFrame(accessible0, examined0, heights0, accessible, examined, heights)
    decreases Unseen(f, accessible0), 0
  {
    hide HeightAt, ArcsBelow, OpenReach, Acyclic, WellFormed;
    accessible, examined := accessible0 + {s}, examined0;
    heights := GrowTo(heights0, s);
    HeightKept(f, heights0, heights, examined0);
    assert s in Unseen(f, accessible0) && s !in Unseen(f, accessible);
    assert (accessible - examined) - {s} == accessible0 - examined0;
    var height;
    accessible, examined, heights, height := VisitArcs(f, s, accessible, examined, heights);
    CloseState(f, accessible, examined, heights, s, height);
    examined := examined + {s};
    heights := heights[s := height];
  }

  /** The loop over the arcs of `s`. */
  method VisitArcs<W>(f: Fst<W>, s: nat, accessible0: set<nat>, examined0: set<nat>, heights0: seq<int>)
    returns (accessible: set<nat>, examined: set<nat>, heights: seq<int>, height: int)
    requires WellFormed(f) && Acyclic(f) && s in accessible0 && s !in examined0 && s < |f.states|
    requires DepthInv(f, accessible0, examined0, heights0) && OpenReach(f, accessible0 - examined0 - {s}, s)
    ensures DepthInv(f, accessible, examined, heights)
    ensures DepthFrame(accessible0, examined0, heights0, accessible, examined, heights)
    ensures ArcsBelow(f, examined, heights, s, |f.states[s].trs|, height)
    decreases Unseen(f, accessible0), 1
  {
    hide *;
    accessible, examined, heights, height := accessible0, examined0, heights0, 0;
    var trs := f.states[s].trs;
    NoArcsBelow(f, examined, heights, s);
    ghost var open := accessible0 - examined0 - {s};
    assert accessible - examined == open + {s};
    FrameRefl(f, accessible, examined, heights);
    for i := 0 to |trs|
      invariant DepthInv(f, accessible, examined, heights)
      invariant DepthFrame(accessible0, examined0, heights0, accessible, examined, heights)
      invariant ArcsBelow(f, examined, heights, s, i, height)
    {
      ghost var accessible1, examined1, heights1 := accessible, examined, heights;
      var nextstate := trs[i].nextstate;
      NextReady(f, open, s, i, accessible0, examined0, heights0, accessible, examined, heights);
      FrameRefl(f, accessible, examined, heights);
      if nextstate !in accessible {
        accessible, examined, heights := FstDepth(f, nextstate, accessible, examined, heights);
      }
      FrameTrans(accessible0, examined0, heights0, accessible1, examined1, heights1, accessible, examined, heights);
      ArcsBelowNext(f, accessible1, examined1, heights1, accessible, examined, heights, s, i, height);
      height := if height > 1 + heights[nextstate] then height else 1 + heights[nextstate];
    }
  }

  lemma FrameRefl<W>(f: Fst<W>, accessible: set<nat>, examined: set<nat>, heights: seq<int>)
    requires DepthInv(f, accessible, examined, heights)
    ensures DepthFrame(accessible, examined, heights, accessible, examined, heights)
  {
  }

  lemma FrameTrans(a0: set<nat>, e0: set<nat>, h0: seq<int>, a1: set<nat>, e1: set<nat>, h1: seq<int>, a2: set<nat>,
                   e2: set<nat>, h2: seq<int>)
    requires DepthFrame(a0, e0, h0, a1, e1, h1) && DepthFrame(a1, e1, h1, a2, e2, h2)
    ensures DepthFrame(a0, e0, h0, a2, e2, h2)
  {
  }

  /** What is open leads to the next target, which is not open itself. */
  lemma NextReady<W>(f: Fst<W>, open: set<nat>, s: nat, i: nat, a0: set<nat>, e0: set<nat>, h0: seq<int>, a: set<nat>,
                     e: set<nat>, h: seq<int>)
    requires WellFormed(f) && Acyclic(f) && s < |f.states| && i < |f.states[s].trs| && OpenReach(f, open, s)
    requires a0 - e0 == open + {s} && DepthFrame(a0, e0, h0, a, e, h) && DepthInv(f, a, e, h)
    ensures var t := f.states[s].trs[i].nextstate; t < |f.states| && OpenReach(f, a - e, t) && (t in a ==> t in e)
    ensures Unseen(f, a) <= Unseen(f, a0) && forall v :: v in e ==> v < |h|
  {
    OpenNext(f, open, s, i);
  }

  /** `height` is one more than the highest of the first `i` targets. */
  ghost predicate ArcsBelow<W>(f: Fst<W>, examined: set<nat>, heights: seq<int>, s: nat, i: nat, height: int) {
    && s < |f.states| && i <= |f.states[s].trs| && height >= 0
    && (forall j :: 0 <= j < i ==> LowerArc(f, examined, heights, s, j, height))
    && (height == 0 ||
         exists j :: 0 <= j < i && LowerArc(f, examined, heights, s, j, height)
           && heights[f.states[s].trs[j].nextstate] == height - 1)
  }

  ghost predicate LowerArc<W>(f: Fst<W>, examined: set<nat>, heights: seq<int>, s: nat, j: nat, height: int)
    requires s < |f.states| && j < |f.states[s].trs|
  {
    var t := f.states[s].trs[j].nextstate;
    t in examined && t < |heights| && 0 <= heights[t] < height
  }

  lemma NoArcsBelow<W>(f: Fst<W>, examined: set<nat>, heights: seq<int>, s: nat)
    requires s < |f.states|
    ensures ArcsBelow(f, examined, heights, s, 0, 0)
  {
  }

  lemma ArcsBelowNext<W>(f: Fst<W>, accessible: set<nat>, examined: set<nat>, heights: seq<int>, accessible': set<nat>,
                         examined': set<nat>, heights': seq<int>, s: nat, i: nat, height: int)
    requires ArcsBelow(f, examined, heights, s, i, height) && i < |f.states[s].trs|
             && f.states[s].trs[i].nextstate in examined'
    requires DepthInv(f, accessible', examined', heights')
             && DepthFrame(accessible, examined, heights, accessible', examined', heights')
    ensures f.states[s].trs[i].nextstate < |heights'|
    ensures var h := 1 + heights'[f.states[s].trs[i].nextstate]; ArcsBelow(f, examined', heights', s, i + 1,
        if height > h then height else h)
  {
    var t := f.states[s].trs[i].nextstate;
    assert HeightAt(f, heights', t);
    hide HeightAt, DepthInv;
    var height' := if height > 1 + heights'[t] then height else 1 + heights'[t];
    forall j | 0 <= j < i + 1 ensures LowerArc(f, examined', heights', s, j, height') {
      if j < i {
        assert LowerArc(f, examined, heights, s, j, height);
      }
    }
    if height' == height && height != 0 {
      var j :| 0 <= j < i && LowerArc(f, examined, heights, s, j, height)
        && heights[f.states[s].trs[j].nextstate] == height - 1;
      assert LowerArc(f, examined', heights', s, j, height');
    } else {
      assert LowerArc(f, examined', heights', s, i, height');
    }
  }

  method GrowTo(heights0: seq<int>, s: nat) returns (heights: seq<int>)
    ensures |heights| == (if |heights0| <= s then s + 1 else |heights0|) && heights[..|heights0|] == heights0
    ensures forall v :: 0 <= v < |heights0| ==> heights[v] == heights0[v]
  {
    heights := heights0;
    while |heights| <= s
      invariant |heights0| <= |heights| && (|heights| <= s + 1 || heights == heights0)
                && heights[..|heights0|] == heights0
    {
      heights := heights + [-1];
    }
    assert forall v :: 0 <= v < |heights0| ==> heights[v] == heights[..|heights0|][v];
  }

  lemma CloseState<W>(f: Fst<W>, accessible: set<nat>, examined: set<nat>, heights: seq<int>, s: nat, height: int)
    requires s < |f.states| && DepthInv(f, accessible, examined, heights) && s in accessible && s !in examined
    requires ArcsBelow(f, examined, heights, s, |f.states[s].trs|, height)
    ensures s < |heights| && DepthInv(f, accessible, examined + {s}, heights[s := height])
  {
    hide HeightAt, ArcsBelow, OpenReach, Acyclic;
    HeightKept(f, heights, heights[s := height], examined);
    NewHeight(f, examined, heights, s, height);
  }

  lemma NewHeight<W>(f: Fst<W>, examined: set<nat>, heights: seq<int>, s: nat, height: int)
    requires s < |f.states| && s < |heights| && s !in examined
             && ArcsBelow(f, examined, heights, s, |f.states[s].trs|, height)
    ensures HeightAt(f, heights[s := height], s)
    ensures forall i :: 0 <= i < |f.states[s].trs| ==> f.states[s].trs[i].nextstate in examined
  {
    var h := heights[s := height];
    forall i | 0 <= i < |f.states[s].trs| ensures Lower(f, h, s, i) && f.states[s].trs[i].nextstate in examined {
      assert LowerArc(f, examined, heights, s, i, height);
    }
    if height != 0 {
      var j :| 0 <= j < |f.states[s].trs| && LowerArc(f, examined, heights, s, j, height)
        && heights[f.states[s].trs[j].nextstate] == height - 1;
      assert Lower(f, h, s, j);
    }
  }

  /** What is open leads to the target of the arc; the target itself is not open. */
  lemma OpenNext<W>(f: Fst<W>, open: set<nat>, s: nat, i: nat)
    requires WellFormed(f) && Acyclic(f) && s < |f.states| && i < |f.states[s].trs| && OpenReach(f, open, s)
    ensures f.states[s].trs[i].nextstate !in open + {s} && OpenReach(f, open + {s}, f.states[s].trs[i].nextstate)
  {
    var t := f.states[s].trs[i].nextstate;
    ReachEdge(f, s, i);
    ArcBack(f, s, i);
    ReachRefl(f, s);
    forall v | v in open ensures Reach(f, v, t) && v != t {
      ReachTrans(f, v, s, t);
    }
  }

  // ------------------------------------------------ what heights mean

  /** A path descends at least one level per arc. */
  lemma {:induction false} PathDescends<W>(f: Fst<W>, heights: seq<int>, s: nat, p: seq<Edge>, t: nat)
    requires Heights(f, heights) && IsPath(f, s, p, t)
    ensures s < |f.states| && t < |f.states| && |p| <= heights[s] - heights[t]
    decreases |p|
  {
    if p != [] {
      assert HeightAt(f, heights, s) && Lower(f, heights, s, p[0].pos);
      PathDescends(f, heights, Arc(f, p[0]).nextstate, p[1..], t);
    }
  }

  lemma ArcsAboveZero<W>(f: Fst<W>, heights: seq<int>, s: nat)
    requires s < |f.states| && HeightAt(f, heights, s) && f.states[s].trs != []
    ensures heights[s] > 0
  {
    assert Lower(f, heights, s, 0);
  }

  /** And some path descends one level per arc, down to a state without arcs: heights are
      the lengths of the longest paths. */
  lemma {:induction false} LongestPath<W>(f: Fst<W>, heights: seq<int>, s: nat) returns (p: seq<Edge>, t: nat)
    requires Heights(f, heights) && s < |f.states|
    ensures IsPath(f, s, p, t) && |p| == heights[s] && t < |f.states| && f.states[t].trs == []
    decreases heights[s]
  {
    assert HeightAt(f, heights, s);
    if f.states[s].trs != [] {
      ArcsAboveZero(f, heights, s);
    }
    if heights[s] == 0 {
      p, t := [], s;
    } else {
      var i :| 0 <= i < |f.states[s].trs| && Lower(f, heights, s, i)
        && heights[f.states[s].trs[i].nextstate] == heights[s] - 1;
      p, t := LongestPath(f, heights, f.states[s].trs[i].nextstate);
      assert ([Edge(s, i)] + p)[1..] == p;
      p := [Edge(s, i)] + p;
    }
  }

  /** Every level up to the height of a state is the height of some state. */
  lemma {:induction false} LevelsFilled<W>(f: Fst<W>, heights: seq<int>, s: nat, k: nat) returns (t: nat)
    requires Heights(f, heights) && s < |f.states| && k <= heights[s]
    ensures t < |f.states| && heights[t] == k
    decreases heights[s]
  {
    assert HeightAt(f, heights, s);
    if heights[s] == k {
      t := s;
    } else {
      var i :| 0 <= i < |f.states[s].trs| && Lower(f, heights, s, i)
        && heights[f.states[s].trs[i].nextstate] == heights[s] - 1;
      t := LevelsFilled(f, heights, f.states[s].trs[i].nextstate, k);
    }
  }

  /** The word along a path. */
  lemma {:induction false} PathOfWord<W>(f: Fst<W>, s: nat, w: seq<Label>) returns (p: seq<Edge>, t: nat)
    requires WellFormed(f) && s < |f.states| && Accepts(f, s, w)
    ensures IsPath(f, s, p, t) && |p| == |w|
    decreases |w|
  {
    if w == [] {
      p, t := [], s;
    } else {
      var i := AcceptsArc(f, s, w);
      p, t := PathOfWord(f, f.states[s].trs[i].nextstate, w[1..]);
      assert ([Edge(s, i)] + p)[1..] == p;
      p := [Edge(s, i)] + p;
    }
  }

  lemma HeightBound<W>(f: Fst<W>, heights: seq<int>, p: nat, q: nat)
    requires WellFormed(f) && Trim(f) && Heights(f, heights) && p < |f.states| && q < |f.states| && Nerode(f, p, q)
    ensures heights[p] <= heights[q]
  {
    var path, t := LongestPath(f, heights, p);
    assert CoReach(f, t);
    var u :| Reach(f, t, u) && IsFinal(f, u);
    var rest := ReachPath(f, t, u);
    assert rest == [] && t == u;
    var w := PathWord(f, p, path, t);
    var path', t' := PathOfWord(f, q, w);
    PathDescends(f, heights, q, path', t');
    assert HeightAt(f, heights, t');
  }

  /** In a trim machine equivalent states have the same height. */
  lemma NerodeHeight<W>(f: Fst<W>, heights: seq<int>, p: nat, q: nat)
    requires WellFormed(f) && Trim(f) && Heights(f, heights) && p < |f.states| && q < |f.states| && Nerode(f, p, q)
    ensures heights[p] == heights[q]
  {
    HeightBound(f, heights, p, q);
    assert Nerode(f, q, p);
    HeightBound(f, heights, q, p);
  }

  /** All states are accessible, so one call from the start state measures them all. */
  method DepthFromStart<W>(f: Fst<W>) returns (heights: seq<int>)
    requires WellFormed(f) && Acyclic(f) && Trim(f) && f.start.Some?
    ensures Heights(f, heights)
  {
    var accessible, examined;
    accessible, examined, heights := FstDepth(f, f.start.value, {}, {}, []);
    forall s | 0 <= s < |f.states| ensures s in examined {
      assert Accessible(f, s);
      var p := ReachPath(f, f.start.value, s);
      ClosedPath(f, examined, f.start.value, p, s);
    }
    assert |f.states| - 1 in examined;
  }
}
