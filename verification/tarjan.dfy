/** Snapshots of the depth-first search that drives `ConnectVisitor`, and what every step of it keeps. */
module Tarjan {
  import opened Fsts

  datatype Color = White | Grey | Black

  datatype Frame = Frame(state: nat, pos: nat)

  /** Search and visitor state together. For the proof, `done[v]` counts the examined
      arcs of `v`, `owner[v]` is the frame under which `v` was discovered, counting a
      finished frame with the one below it, and `via[v]` a state whose number is the lowlink. */
  datatype Scan = Scan(color: seq<Color>, stack: seq<Frame>, dfnumber: seq<int>, lowlink: seq<int>, scc: seq<nat>,
                       coaccess: seq<bool>, nstates: nat, done: seq<nat>, owner: seq<nat>, via: seq<nat>)

  ghost predicate Sized<W>(f: Fst<W>, s: Scan) {
    |s.color| == |s.dfnumber| == |s.lowlink| == |s.coaccess| == |s.done| == |s.owner| == |s.via| == |f.states|
  }

  // ------------------------------------------------ the invariant

  predicate Examined<W>(f: Fst<W>, s: Scan, v: nat, j: nat)
  {
    v < |f.states| && v < |s.done| && j < s.done[v] && j < |f.states[v].trs|
      && f.states[v].trs[j].nextstate < |f.states|
  }

  function Target<W>(f: Fst<W>, v: nat, j: nat): nat
    requires v < |f.states| && j < |f.states[v].trs|
  {
    f.states[v].trs[j].nextstate
  }

  /** Discovery numbers, colours and examined arcs. */
  ghost predicate Numbers<W>(f: Fst<W>, s: Scan)
    requires Sized(f, s)
  {
    && (forall v :: 0 <= v < |f.states|
         ==> -1 <= s.dfnumber[v] < s.nstates && (s.color[v] == White <==> s.dfnumber[v] == -1))
    && (forall v :: 0 <= v < |f.states| ==>
          && s.done[v] <= |f.states[v].trs|
          && (s.color[v] == White ==> s.done[v] == 0)
          && (s.color[v] == Black ==> s.done[v] == |f.states[v].trs|))
    && (forall v: nat, j: nat :: Examined(f, s, v, j) ==> s.color[Target(f, v, j)] != White)
  }

  /** The frames are the grey states, each reached from the one below by its current arc. */
  ghost predicate Frames<W>(f: Fst<W>, s: Scan)
    requires Sized(f, s)
  {
    && (forall i :: 0 <= i < |s.stack| ==> FrameOk(f, s, i))
    && (forall v :: 0 <= v < |f.states| && s.color[v] == Grey
         ==> s.owner[v] < |s.stack| && s.stack[s.owner[v]].state == v)
    && (forall i, j :: 0 <= i < j < |s.stack| && s.stack[i].state < |f.states| && s.stack[j].state < |f.states|
                       ==> s.dfnumber[s.stack[i].state] < s.dfnumber[s.stack[j].state])
    && (forall i :: 0 <= i < |s.stack| - 1 ==> Link(f, s, i))
  }

  ghost predicate FrameOk<W>(f: Fst<W>, s: Scan, i: nat)
    requires Sized(f, s) && i < |s.stack|
  {
    var v := s.stack[i].state;
    v < |f.states| && s.color[v] == Grey && s.done[v] == s.stack[i].pos && s.owner[v] == i
  }

  ghost predicate Link<W>(f: Fst<W>, s: Scan, i: nat)
    requires i < |s.stack| - 1
  {
    var v := s.stack[i].state;
    v < |f.states| && s.stack[i].pos < |f.states[v].trs| && Target(f, v, s.stack[i].pos) == s.stack[i+1].state
  }

  /** The component stack lists visited states in order of discovery and has every grey one. */
  ghost predicate SccStack<W>(f: Fst<W>, s: Scan)
    requires Sized(f, s)
  {
    && (forall k :: 0 <= k < |s.scc| ==> s.scc[k] < |f.states| && s.color[s.scc[k]] != White)
    && (forall k, l :: 0 <= k < l < |s.scc| && s.scc[k] < |f.states| && s.scc[l] < |f.states|
                       ==> s.dfnumber[s.scc[k]] < s.dfnumber[s.scc[l]])
    && (forall v :: 0 <= v < |f.states| && s.color[v] == Grey ==> v in s.scc)
  }

  predicate Popped<W>(f: Fst<W>, s: Scan, v: nat)
    requires Sized(f, s)
  {
    v < |f.states| && s.color[v] != White && v !in s.scc
  }

  predicate Pending<W>(f: Fst<W>, s: Scan, v: nat)
  {
    v < |f.states| && v in s.scc
  }

  /** A component already taken off the stack is closed and its verdict is exact. */
  ghost predicate Settled<W>(f: Fst<W>, s: Scan)
    requires Sized(f, s)
  {
    && (forall v: nat, j: nat :: Popped(f, s, v) && Examined(f, s, v, j) ==> Popped(f, s, Target(f, v, j)))
    && (forall v: nat :: Popped(f, s, v) ==> (s.coaccess[v] <==> CoReach(f, v)))
  }

  /** `x` belongs to the frame `owner[x]`: discovered after it and before the next ones, and
      able to reach it; its lowlink is witnessed on the component stack. */
  ghost predicate Owned<W>(f: Fst<W>, s: Scan, x: nat)
    requires Sized(f, s) && x < |f.states|
  {
    && s.owner[x] < |s.stack|
    && var g := s.stack[s.owner[x]].state;
    && g < |f.states| && s.dfnumber[g] <= s.dfnumber[x] && Reach(f, x, g)
    && s.lowlink[x] <= s.dfnumber[x]
    && s.via[x] < |f.states| && s.via[x] in s.scc && s.dfnumber[s.via[x]] == s.lowlink[x] && Reach(f, x, s.via[x])
  }

  ghost predicate Owners<W>(f: Fst<W>, s: Scan)
    requires Sized(f, s)
  {
    forall x: nat :: Pending(f, s, x) ==> Owned(f, s, x)
  }

  /** Later frames were discovered later, and a frame reaches all that was discovered under it. */
  ghost predicate Segments<W>(f: Fst<W>, s: Scan)
    requires Sized(f, s)
  {
    forall i, x: nat :: 0 <= i < |s.stack| && Pending(f, s, x) ==> InSegment(f, s, i, x)
  }

  ghost predicate InSegment<W>(f: Fst<W>, s: Scan, i: nat, x: nat)
    requires Sized(f, s) && i < |s.stack| && x < |f.states|
  {
    var g := s.stack[i].state;
    g < |f.states| && if i <= s.owner[x] then Reach(f, g, x) else s.dfnumber[x] < s.dfnumber[g]
  }

  /** The lowlink of a frame is below every examined arc of its segment that stays on the
      component stack; examined arcs of earlier segments end before the next frames. */
  ghost predicate LowBounds<W>(f: Fst<W>, s: Scan)
    requires Sized(f, s)
  {
    forall x: nat, j: nat :: Pending(f, s, x) && Examined(f, s, x, j) && Pending(f, s, Target(f, x, j)) ==>
      && s.owner[x] < |s.stack| && s.stack[s.owner[x]].state < |f.states|
      && s.lowlink[s.stack[s.owner[x]].state] <= s.dfnumber[Target(f, x, j)]
  }

  ghost predicate Earlier<W>(f: Fst<W>, s: Scan)
    requires Sized(f, s)
  {
    forall i, x: nat, j: nat :: 0 <= i < |s.stack| && Pending(f, s, x) && Examined(f, s, x, j)
                                && s.owner[x] < i && s.stack[i].state < |f.states|
                                ==> s.dfnumber[Target(f, x, j)] < s.dfnumber[s.stack[i].state]
  }

  /** Verdicts are sound; they have seen settled targets and, for black states, finality. */
  ghost predicate Verdicts<W>(f: Fst<W>, s: Scan)
    requires Sized(f, s)
  {
    && (forall v :: 0 <= v < |f.states| && s.coaccess[v] ==> CoReach(f, v))
    && (forall x: nat, j: nat ::
          Pending(f, s, x) && Examined(f, s, x, j) && Popped(f, s, Target(f, x, j)) && s.coaccess[Target(f, x, j)] ==>
            s.coaccess[x])
    && (forall x: nat :: Pending(f, s, x) && s.color[x] == Black && IsFinal(f, x) ==> s.coaccess[x])
  }

  ghost predicate Inv<W>(f: Fst<W>, s: Scan) {
    && Sized(f, s) && Numbers(f, s) && Frames(f, s) && SccStack(f, s) && Settled(f, s)
    && Owners(f, s) && Segments(f, s) && LowBounds(f, s) && Earlier(f, s) && Verdicts(f, s)
  }

  function Top(s: Scan): nat
    requires s.stack != []
  {
    s.stack[|s.stack|-1].state
  }

  // ------------------------------------------------ discovering a state

  function Discover(s: Scan, t: nat): Scan
    requires t < |s.color| == |s.dfnumber| == |s.lowlink| == |s.owner| == |s.via|
  {
    s.(color := s.color[t := Grey], stack := s.stack + [Frame(t, 0)],
       dfnumber := s.dfnumber[t := s.nstates], lowlink := s.lowlink[t := s.nstates],
       scc := s.scc + [t], nstates := s.nstates + 1, owner := s.owner[t := |s.stack|], via := s.via[t := t])
  }

  /** `t` is white and is the target of the current arc of the top frame, if there is one. */
  ghost predicate CanDiscover<W>(f: Fst<W>, s: Scan, t: nat)
    requires Sized(f, s)
  {
    && t < |f.states| && s.color[t] == White
    && (s.stack != [] ==>
          var v, p := Top(s), s.stack[|s.stack|-1].pos;
          v < |f.states| && p < |f.states[v].trs| && Target(f, v, p) == t)
  }

  lemma DiscoverNumbers<W>(f: Fst<W>, s: Scan, t: nat)
    requires Sized(f, s) && Numbers(f, s) && CanDiscover(f, s, t)
    ensures Numbers(f, Discover(s, t))
  {
    var s' := Discover(s, t);
    forall v: nat, j: nat | Examined(f, s', v, j) ensures s'.color[Target(f, v, j)] != White {
      assert Examined(f, s, v, j);
    }
  }

  lemma DiscoverLinks<W>(f: Fst<W>, s: Scan, t: nat)
    requires Sized(f, s) && Frames(f, s) && CanDiscover(f, s, t)
    ensures forall i :: 0 <= i < |s.stack| ==> Link(f, Discover(s, t), i)
  {
    var s' := Discover(s, t);
    forall i | 0 <= i < |s.stack| ensures Link(f, s', i) {
      if i < |s.stack| - 1 {
        assert Link(f, s, i);
      }
    }
  }

  lemma DiscoverFrames<W>(f: Fst<W>, s: Scan, t: nat)
    requires Sized(f, s) && Numbers(f, s) && Frames(f, s) && CanDiscover(f, s, t)
    ensures Frames(f, Discover(s, t))
  {
    var s' := Discover(s, t);
    var m := |s.stack|;
    forall i | 0 <= i < |s'.stack| ensures FrameOk(f, s', i) {
      if i < m {
        assert FrameOk(f, s, i);
      }
    }
    DiscoverLinks(f, s, t);
    forall i, j | 0 <= i < j < |s'.stack| && s'.stack[i].state < |f.states| && s'.stack[j].state < |f.states|
      ensures s'.dfnumber[s'.stack[i].state] < s'.dfnumber[s'.stack[j].state]
    {
      assert FrameOk(f, s, i);
      if j < m {
        assert FrameOk(f, s, j);
      }
    }
  }

  lemma DiscoverScc<W>(f: Fst<W>, s: Scan, t: nat)
    requires Sized(f, s) && Numbers(f, s) && SccStack(f, s) && CanDiscover(f, s, t)
    ensures SccStack(f, Discover(s, t)) && t !in s.scc
    ensures forall x: nat :: Pending(f, Discover(s, t), x) <==> Pending(f, s, x) || x == t
    ensures forall x: nat :: Popped(f, Discover(s, t), x) <==> Popped(f, s, x)
  {
    var s' := Discover(s, t);
    assert forall v: nat :: v in s'.scc <==> v in s.scc || v == t;
  }

  lemma DiscoverOwners<W>(f: Fst<W>, s: Scan, t: nat)
    requires Sized(f, s) && Numbers(f, s) && Frames(f, s) && SccStack(f, s) && Owners(f, s) && CanDiscover(f, s, t)
    ensures Owners(f, Discover(s, t))
  {
    hide Reach, SccStack, Numbers;
    DiscoverScc(f, s, t);
    ReachRefl(f, t);
    var s' := Discover(s, t);
    forall x: nat | Pending(f, s', x) ensures Owned(f, s', x) {
      if x != t {
        assert Owned(f, s, x) && FrameOk(f, s, s.owner[x]);
      }
    }
  }

  lemma FramesReachTarget<W>(f: Fst<W>, s: Scan, t: nat, i: nat)
    requires Sized(f, s) && Frames(f, s) && SccStack(f, s) && Segments(f, s)
    requires CanDiscover(f, s, t) && WellFormed(f) && i < |s.stack|
    ensures s.stack[i].state < |f.states| && Reach(f, s.stack[i].state, t)
  {
    var m := |s.stack|;
    assert FrameOk(f, s, m - 1) && Pending(f, s, Top(s));
    hide Reach, SccStack, Frames;
    assert InSegment(f, s, i, Top(s));
    ReachEdge(f, Top(s), s.stack[m-1].pos);
    ReachTrans(f, s.stack[i].state, Top(s), t);
  }

  lemma DiscoverSegments<W>(f: Fst<W>, s: Scan, t: nat)
    requires Sized(f, s) && Numbers(f, s) && Frames(f, s) && SccStack(f, s) && Owners(f, s) && Segments(f, s)
    requires CanDiscover(f, s, t) && WellFormed(f)
    ensures Segments(f, Discover(s, t))
  {
    hide Reach, SccStack, WellFormed;
    DiscoverScc(f, s, t);
    ReachRefl(f, t);
    var s' := Discover(s, t);
    var m := |s.stack|;
    forall i | 0 <= i < m ensures s.stack[i].state < |f.states| && Reach(f, s.stack[i].state, t) {
      FramesReachTarget(f, s, t, i);
    }
    forall i, x: nat | 0 <= i < |s'.stack| && Pending(f, s', x) ensures InSegment(f, s', i, x) {
      if x != t {
        assert Owned(f, s, x);
        if i < m {
          assert InSegment(f, s, i, x) && FrameOk(f, s, i);
        }
      }
    }
  }

  lemma DiscoverLowBounds<W>(f: Fst<W>, s: Scan, t: nat)
    requires Sized(f, s) && Numbers(f, s) && Frames(f, s) && SccStack(f, s) && Owners(f, s) && LowBounds(f, s)
             && CanDiscover(f, s, t)
    ensures LowBounds(f, Discover(s, t))
  {
    hide Reach, SccStack;
    DiscoverScc(f, s, t);
    var s' := Discover(s, t);
    forall x: nat, j: nat | Pending(f, s', x) && Examined(f, s', x, j) && Pending(f, s', Target(f, x, j))
      ensures s'.owner[x] < |s'.stack| && s'.stack[s'.owner[x]].state < |f.states|
      ensures s'.lowlink[s'.stack[s'.owner[x]].state] <= s'.dfnumber[Target(f, x, j)]
    {
      assert Examined(f, s, x, j) && x != t && Target(f, x, j) != t;
      assert Owned(f, s, x) && FrameOk(f, s, s.owner[x]);
    }
  }

  lemma DiscoverEarlier<W>(f: Fst<W>, s: Scan, t: nat)
    requires Sized(f, s) && Numbers(f, s) && Frames(f, s) && SccStack(f, s) && Earlier(f, s) && CanDiscover(f, s, t)
    ensures Earlier(f, Discover(s, t))
  {
    hide SccStack;
    DiscoverScc(f, s, t);
    var s' := Discover(s, t);
    forall i, x: nat, j: nat | 0 <= i < |s'.stack| && Pending(f, s', x) && Examined(f, s', x, j)
                               && s'.owner[x] < i && s'.stack[i].state < |f.states|
      ensures s'.dfnumber[Target(f, x, j)] < s'.dfnumber[s'.stack[i].state]
    {
      assert Examined(f, s, x, j) && Target(f, x, j) != t && x != t;
      if i < |s.stack| {
        assert FrameOk(f, s, i);
      } else {
        assert s'.stack[i].state == t;
      }
    }
  }

  lemma DiscoverVerdicts<W>(f: Fst<W>, s: Scan, t: nat)
    requires Sized(f, s) && Numbers(f, s) && SccStack(f, s) && Settled(f, s) && Verdicts(f, s) && CanDiscover(f, s, t)
    ensures Settled(f, Discover(s, t)) && Verdicts(f, Discover(s, t))
  {
    hide CoReach, SccStack;
    DiscoverScc(f, s, t);
    var s' := Discover(s, t);
    assert forall v: nat, j: nat :: Examined(f, s', v, j) <==> Examined(f, s, v, j);
    assert forall j: nat :: !Examined(f, s, t, j);
  }

  lemma DiscoverInv<W>(f: Fst<W>, s: Scan, t: nat)
    requires Inv(f, s) && CanDiscover(f, s, t) && WellFormed(f)
    ensures Inv(f, Discover(s, t))
  {
    hide Numbers, Frames, SccStack, Settled, Owners, Segments, LowBounds, Earlier, Verdicts, WellFormed;
    DiscoverNumbers(f, s, t);
    DiscoverFrames(f, s, t);
    DiscoverScc(f, s, t);
    DiscoverOwners(f, s, t);
    DiscoverSegments(f, s, t);
    DiscoverLowBounds(f, s, t);
    DiscoverEarlier(f, s, t);
    DiscoverVerdicts(f, s, t);
  }

  // ------------------------------------------------ examining an arc to a visited state

  /** `back_tr` and `forward_or_cross_tr` have the same effect: the lowlink takes the number of a
      pending target, the verdict that of the target. */
  function Examine<W>(f: Fst<W>, s: Scan): Scan
    requires s.stack != [] && Top(s) < |f.states| && s.stack[|s.stack|-1].pos < |f.states[Top(s)].trs|
    requires var t := Target(f, Top(s), s.stack[|s.stack|-1].pos);
             Top(s) < |s.lowlink| == |s.dfnumber| == |s.coaccess| == |s.done| == |s.via| && t < |s.dfnumber|
  {
    var m, v, p := |s.stack|, Top(s), s.stack[|s.stack|-1].pos;
    var t := Target(f, v, p);
    var lower := t in s.scc && s.dfnumber[t] < s.lowlink[v];
    s.(stack := s.stack[m-1 := Frame(v, p + 1)], done := s.done[v := p + 1],
       lowlink := if lower then s.lowlink[v := s.dfnumber[t]] else s.lowlink,
       via := if lower then s.via[v := t] else s.via,
       coaccess := s.coaccess[v := s.coaccess[v] || s.coaccess[t]])
  }

  ghost predicate CanExamine<W>(f: Fst<W>, s: Scan)
    requires Sized(f, s)
  {
    && s.stack != [] && Top(s) < |f.states| && s.stack[|s.stack|-1].pos < |f.states[Top(s)].trs|
    && Target(f, Top(s), s.stack[|s.stack|-1].pos) < |f.states|
    && s.color[Target(f, Top(s), s.stack[|s.stack|-1].pos)] != White
  }

  /** The fields of an examined snapshot. */
  lemma ExamineFacts<W>(f: Fst<W>, s: Scan) returns (s': Scan, m: nat, v: nat, p: nat, t: nat)
    requires Sized(f, s) && Frames(f, s) && CanExamine(f, s)
    ensures s' == Examine(f, s) && m == |s.stack| - 1 && v == Top(s) && p == s.stack[m].pos
            && t == Target(f, v, p) < |f.states|
    ensures Sized(f, s') && FrameOk(f, s, m) && s.color[v] == Grey && s.done[v] == p && s.owner[v] == m
    ensures s'.color == s.color && s'.scc == s.scc && s'.dfnumber == s.dfnumber && s'.nstates == s.nstates
            && s'.owner == s.owner
    ensures s'.stack == s.stack[m := Frame(v, p + 1)] && s'.done == s.done[v := p + 1]
    ensures forall i :: 0 <= i <= m ==> s'.stack[i].state == s.stack[i].state
    ensures forall x :: 0 <= x < |f.states| && x != v ==>
              s'.coaccess[x] == s.coaccess[x] && s'.lowlink[x] == s.lowlink[x] && s'.via[x] == s.via[x]
    ensures s'.coaccess == s.coaccess[v := s.coaccess[v] || s.coaccess[t]]
    ensures s'.lowlink == if t in s.scc && s.dfnumber[t] < s.lowlink[v] then s.lowlink[v := s.dfnumber[t]]
            else s.lowlink
    ensures if t in s.scc && s.dfnumber[t] < s.lowlink[v] then s'.lowlink[v] == s.dfnumber[t] && s'.via[v] == t
            else s'.lowlink[v] == s.lowlink[v] && s'.via[v] == s.via[v]
    ensures forall x: nat :: Pending(f, s', x) <==> Pending(f, s, x)
    ensures forall x: nat :: Popped(f, s', x) <==> Popped(f, s, x)
    ensures forall x: nat, j: nat :: Examined(f, s', x, j) <==> Examined(f, s, x, j) || (x == v && j == p)
    ensures !Examined(f, s, v, p)
  {
    s', m := Examine(f, s), |s.stack| - 1;
    v, p := Top(s), s.stack[m].pos;
    t := Target(f, v, p);
    assert FrameOk(f, s, m);
  }

  lemma ExamineNumbers<W>(f: Fst<W>, s: Scan)
    requires Sized(f, s) && Numbers(f, s) && Frames(f, s) && SccStack(f, s) && CanExamine(f, s)
    ensures Sized(f, Examine(f, s)) && Numbers(f, Examine(f, s)) && SccStack(f, Examine(f, s))
  {
    hide Examine, Frames;
    var s', m, v, p, t := ExamineFacts(f, s);
    forall x: nat, j: nat | Examined(f, s', x, j) ensures s'.color[Target(f, x, j)] != White {
      assert Examined(f, s, x, j) || (x == v && j == p);
    }
  }

  lemma ExamineFrames<W>(f: Fst<W>, s: Scan)
    requires Sized(f, s) && Frames(f, s) && CanExamine(f, s)
    ensures Sized(f, Examine(f, s)) && Frames(f, Examine(f, s))
  {
    hide Examine;
    var s', m, v, p, t := ExamineFacts(f, s);
    forall i | 0 <= i < |s'.stack| ensures FrameOk(f, s', i) {
      assert FrameOk(f, s, i);
    }
    forall i | 0 <= i < |s'.stack| - 1 ensures Link(f, s', i) {
      assert Link(f, s, i);
    }
  }

  lemma ExamineOwners<W>(f: Fst<W>, s: Scan)
    requires Sized(f, s) && Frames(f, s) && Owners(f, s) && Segments(f, s) && CanExamine(f, s) && WellFormed(f)
    ensures Sized(f, Examine(f, s)) && Owners(f, Examine(f, s)) && Segments(f, Examine(f, s))
  {
    hide Examine, Reach, Frames, WellFormed;
    var s', m, v, p, t := ExamineFacts(f, s);
    ReachEdge(f, v, p);
    forall x: nat | Pending(f, s', x) ensures Owned(f, s', x) {
      assert Owned(f, s, x);
    }
    forall i, x: nat | 0 <= i < |s'.stack| && Pending(f, s', x) ensures InSegment(f, s', i, x) {
      assert Pending(f, s, x) && InSegment(f, s, i, x);
    }
  }

  lemma ExamineLowBounds<W>(f: Fst<W>, s: Scan)
    requires Sized(f, s) && Frames(f, s) && LowBounds(f, s) && Earlier(f, s) && CanExamine(f, s)
    ensures Sized(f, Examine(f, s)) && LowBounds(f, Examine(f, s)) && Earlier(f, Examine(f, s))
  {
    hide Examine, Frames;
    var s', m, v, p, t := ExamineFacts(f, s);
    forall x: nat, j: nat | Pending(f, s', x) && Examined(f, s', x, j) && Pending(f, s', Target(f, x, j))
      ensures s'.owner[x] < |s'.stack| && s'.stack[s'.owner[x]].state < |f.states|
      ensures s'.lowlink[s'.stack[s'.owner[x]].state] <= s'.dfnumber[Target(f, x, j)]
    {
      assert Pending(f, s, x) && Pending(f, s, Target(f, x, j));
      assert Examined(f, s, x, j) || (x == v && j == p);
    }
    forall i, x: nat, j: nat | 0 <= i < |s'.stack| && Pending(f, s', x) && Examined(f, s', x, j)
                               && s'.owner[x] < i && s'.stack[i].state < |f.states|
      ensures s'.dfnumber[Target(f, x, j)] < s'.dfnumber[s'.stack[i].state]
    {
      assert Pending(f, s, x) && Examined(f, s, x, j);
    }
  }

  lemma ExamineVerdicts<W>(f: Fst<W>, s: Scan)
    requires Sized(f, s) && Frames(f, s) && SccStack(f, s) && Settled(f, s) && Verdicts(f, s) && CanExamine(f, s)
             && WellFormed(f)
    ensures Sized(f, Examine(f, s)) && Settled(f, Examine(f, s)) && Verdicts(f, Examine(f, s))
  {
    hide Examine, Reach, CoReach, Frames, WellFormed, CanExamine;
    var s', m, v, p, t := ExamineFacts(f, s);
    assert !Popped(f, s, v);
    ReachEdge(f, v, p);
    if s.coaccess[t] {
      CoReachBack(f, v, t);
    }
    forall x: nat, j: nat | Pending(f, s', x) && Examined(f, s', x, j) && Popped(f, s', Target(f, x, j))
      && s'.coaccess[Target(f, x, j)]
      ensures s'.coaccess[x]
    {
      assert Pending(f, s, x) && Popped(f, s, Target(f, x, j));
      assert Examined(f, s, x, j) || (x == v && j == p);
    }
    forall x: nat, j: nat | Popped(f, s', x) && Examined(f, s', x, j) ensures Popped(f, s', Target(f, x, j)) {
      assert Popped(f, s, x) && Examined(f, s, x, j);
    }
  }

  lemma ExamineInv<W>(f: Fst<W>, s: Scan)
    requires Inv(f, s) && CanExamine(f, s) && WellFormed(f)
    ensures Inv(f, Examine(f, s))
  {
    hide Numbers, Frames, SccStack, Settled, Owners, Segments, LowBounds, Earlier, Verdicts, WellFormed;
    ExamineNumbers(f, s);
    ExamineFrames(f, s);
    ExamineOwners(f, s);
    ExamineLowBounds(f, s);
    ExamineVerdicts(f, s);
  }

  // ------------------------------------------------ finishing a state

  /** The parent takes over the lowlink of the finishing state. */
  function Lower(s: Scan): Scan
    requires |s.stack| >= 2 && |s.lowlink| == |s.via|
    requires s.stack[|s.stack|-2].state < |s.lowlink| && Top(s) < |s.lowlink|
  {
    var p, v := s.stack[|s.stack|-2].state, Top(s);
    if s.lowlink[v] < s.lowlink[p] then s.(lowlink := s.lowlink[p := s.lowlink[v]], via := s.via[p := s.via[v]]) else s
  }

  /** The top frame and the one below, linked by the current arc of the lower. */
  lemma LowerReady<W>(f: Fst<W>, s: Scan)
    requires Inv(f, s) && |s.stack| >= 2 && WellFormed(f)
    ensures FrameOk(f, s, |s.stack| - 2) && FrameOk(f, s, |s.stack| - 1)
    ensures var p, v := s.stack[|s.stack|-2].state, Top(s);
            p != v && s.lowlink[v] <= s.dfnumber[v] && s.done[v] <= |f.states[v].trs|
            && Owned(f, s, p) && Owned(f, s, v) && Reach(f, p, s.via[v])
              && (s.lowlink[v] < s.lowlink[p] ==> CanLower(f, s))
  {
    hide Reach, Settled, Segments, LowBounds, Earlier, Verdicts;
    var m := |s.stack|;
    var p, v := s.stack[m-2].state, Top(s);
    assert FrameOk(f, s, m - 2) && FrameOk(f, s, m - 1) && Link(f, s, m - 2);
    assert p != v && Pending(f, s, p) && Pending(f, s, v);
    assert Owned(f, s, p) && Owned(f, s, v);
    ReachEdge(f, p, s.stack[m-2].pos);
    ReachTrans(f, p, v, s.via[v]);
  }

  lemma LowerInv<W>(f: Fst<W>, s: Scan)
    requires Inv(f, s) && |s.stack| >= 2 && WellFormed(f)
    ensures FrameOk(f, s, |s.stack| - 2) && FrameOk(f, s, |s.stack| - 1) && s.stack[|s.stack|-2].state != Top(s)
    ensures s.lowlink[Top(s)] <= s.dfnumber[Top(s)] && s.done[Top(s)] <= |f.states[Top(s)].trs|
    ensures Inv(f, Lower(s))
    ensures Lower(s).lowlink[s.stack[|s.stack|-2].state] <= Lower(s).lowlink[Top(s)] == s.lowlink[Top(s)]
  {
    hide Numbers, Frames, SccStack, Settled, Owners, Segments, LowBounds, Earlier, Verdicts, WellFormed, Reach,
         CanLower, Owned;
    LowerReady(f, s);
    if s.lowlink[Top(s)] < s.lowlink[s.stack[|s.stack|-2].state] {
      LowerNumbers(f, s);
      LowerFrames(f, s);
      LowerOwners(f, s);
      LowerLowBounds(f, s);
    }
  }

  lemma LowerNumbers<W>(f: Fst<W>, s: Scan)
    requires Sized(f, s) && Numbers(f, s) && SccStack(f, s) && Settled(f, s) && Earlier(f, s) && Verdicts(f, s)
             && CanLower(f, s)
    ensures Sized(f, Lower(s)) && Numbers(f, Lower(s)) && SccStack(f, Lower(s)) && Settled(f, Lower(s))
    ensures Earlier(f, Lower(s)) && Verdicts(f, Lower(s))
  {
    hide CoReach;
    var s' := Lower(s);
    assert forall v: nat, j: nat :: Examined(f, s', v, j) <==> Examined(f, s, v, j);
    assert forall x: nat :: Pending(f, s', x) <==> Pending(f, s, x);
    assert forall x: nat :: Popped(f, s', x) <==> Popped(f, s, x);
  }

  ghost predicate CanLower<W>(f: Fst<W>, s: Scan)
    requires Sized(f, s)
  {
    && |s.stack| >= 2 && FrameOk(f, s, |s.stack| - 2) && FrameOk(f, s, |s.stack| - 1)
    && s.lowlink[Top(s)] < s.lowlink[s.stack[|s.stack|-2].state]
  }

  lemma LowerFrames<W>(f: Fst<W>, s: Scan)
    requires Sized(f, s) && Frames(f, s) && CanLower(f, s)
    ensures Sized(f, Lower(s)) && Frames(f, Lower(s))
  {
    var s' := Lower(s);
    forall i | 0 <= i < |s'.stack| ensures FrameOk(f, s', i) {
      assert FrameOk(f, s, i);
    }
    forall i | 0 <= i < |s'.stack| - 1 ensures Link(f, s', i) {
      assert Link(f, s, i);
    }
  }

  lemma LowerOwners<W>(f: Fst<W>, s: Scan)
    requires Sized(f, s) && Owners(f, s) && Segments(f, s) && CanLower(f, s)
    requires var p, v := s.stack[|s.stack|-2].state, Top(s);
             Owned(f, s, p) && Owned(f, s, v) && Reach(f, p, s.via[v])
    ensures Sized(f, Lower(s)) && Owners(f, Lower(s)) && Segments(f, Lower(s))
  {
    hide Reach;
    var s' := Lower(s);
    forall x: nat | Pending(f, s', x) ensures Owned(f, s', x) {
      assert Pending(f, s, x) && Owned(f, s, x);
    }
    forall i, x: nat | 0 <= i < |s'.stack| && Pending(f, s', x) ensures InSegment(f, s', i, x) {
      assert Pending(f, s, x) && InSegment(f, s, i, x);
    }
  }

  lemma LowerLowBounds<W>(f: Fst<W>, s: Scan)
    requires Sized(f, s) && LowBounds(f, s) && CanLower(f, s)
    ensures Sized(f, Lower(s)) && LowBounds(f, Lower(s))
  {
    var s' := Lower(s);
    forall x: nat, j: nat | Pending(f, s', x) && Examined(f, s', x, j) && Pending(f, s', Target(f, x, j))
      ensures s'.owner[x] < |s'.stack| && s'.stack[s'.owner[x]].state < |f.states|
      ensures s'.lowlink[s'.stack[s'.owner[x]].state] <= s'.dfnumber[Target(f, x, j)]
    {
      assert Pending(f, s, x) && Examined(f, s, x, j) && Pending(f, s, Target(f, x, j));
    }
  }

  /** A finished state leaves the search stack; what it owned passes to the frame below. */
  function Retire(s: Scan, scc: seq<nat>, coaccess: seq<bool>): Scan
    requires s.stack != [] && Top(s) < |s.color|
  {
    var m := |s.stack| - 1;
    s.(color := s.color[Top(s) := Black], stack := s.stack[..m], scc := scc, coaccess := coaccess,
       owner := seq(|s.owner|, x requires 0 <= x < |s.owner| => if s.owner[x] == m && m > 0 then (m - 1) as nat
                    else s.owner[x]))
  }

  ghost predicate CanRetire<W>(f: Fst<W>, s: Scan)
    requires Sized(f, s)
  {
    && s.stack != [] && Top(s) < |f.states| && s.done[Top(s)] == |f.states[Top(s)].trs|
    && (s.lowlink[Top(s)] < s.dfnumber[Top(s)] && |s.stack| >= 2 && s.stack[|s.stack|-2].state < |f.states| ==>
          s.lowlink[s.stack[|s.stack|-2].state] <= s.lowlink[Top(s)])
  }

  /** The verdicts once the finality of the top state is noted. */
  function NoteFinal<W>(f: Fst<W>, s: Scan): seq<bool>
    requires s.stack != [] && Top(s) < |s.coaccess|
  {
    s.coaccess[Top(s) := s.coaccess[Top(s)] || IsFinal(f, Top(s))]
  }

  lemma RetireFacts<W>(f: Fst<W>, s: Scan, scc: seq<nat>, co: seq<bool>) returns (s': Scan, m: nat, v: nat)
    requires Sized(f, s) && Frames(f, s) && SccStack(f, s) && Owners(f, s) && CanRetire(f, s) && |co| == |f.states|
    ensures m == |s.stack| - 1 && v == Top(s) && s' == Retire(s, scc, co)
    ensures Sized(f, s') && FrameOk(f, s, m) && s.color[v] == Grey && s.owner[v] == m && Pending(f, s, v)
            && Owned(f, s, v)
    ensures s'.color == s.color[v := Black] && s'.dfnumber == s.dfnumber && s'.lowlink == s.lowlink
            && s'.nstates == s.nstates
    ensures s'.done == s.done && s'.via == s.via && s'.scc == scc && s'.coaccess == co && s'.stack == s.stack[..m]
    ensures forall x :: 0 <= x < |f.states| ==> s'.owner[x] == if s.owner[x] == m && m > 0 then (m - 1) as nat
            else s.owner[x]
    ensures forall x: nat, j: nat :: Examined(f, s', x, j) <==> Examined(f, s, x, j)
  {
    m, v := |s.stack| - 1, Top(s);
    s' := Retire(s, scc, co);
    assert FrameOk(f, s, m);
  }

  lemma RetireFrames<W>(f: Fst<W>, s: Scan, scc: seq<nat>, co: seq<bool>)
    requires Sized(f, s) && Frames(f, s) && SccStack(f, s) && Owners(f, s) && Numbers(f, s) && CanRetire(f, s)
             && |co| == |f.states|
    ensures Sized(f, Retire(s, scc, co)) && Frames(f, Retire(s, scc, co)) && Numbers(f, Retire(s, scc, co))
  {
    hide Retire, Owners, SccStack;
    var s', m, v := RetireFacts(f, s, scc, co);
    forall x: nat, j: nat | Examined(f, s', x, j) ensures s'.color[Target(f, x, j)] != White {
      assert Examined(f, s, x, j);
    }
    forall i | 0 <= i < |s'.stack| ensures FrameOk(f, s', i) {
      assert FrameOk(f, s, i);
    }
    forall i | 0 <= i < |s'.stack| - 1 ensures Link(f, s', i) {
      assert Link(f, s, i);
    }
    forall x | 0 <= x < |f.states| && s'.color[x] == Grey
      ensures s'.owner[x] < |s'.stack| && s'.stack[s'.owner[x]].state == x
    {
      assert x != v && s.color[x] == Grey && s.owner[x] != m;
    }
  }

  // ---- not the root of its component

  /** The finishing state, through its lowlink, reaches the frame below. */
  lemma InnerReach<W>(f: Fst<W>, s: Scan)
    requires Sized(f, s) && Frames(f, s) && SccStack(f, s) && Owners(f, s) && Segments(f, s)
    requires s.stack != [] && Top(s) < |f.states| && s.lowlink[Top(s)] < s.dfnumber[Top(s)]
    ensures |s.stack| >= 2 && FrameOk(f, s, |s.stack| - 2) && FrameOk(f, s, |s.stack| - 1)
    ensures var below := s.stack[|s.stack|-2].state;
            s.dfnumber[below] < s.dfnumber[Top(s)]
            && forall x: nat :: Pending(f, s, x) && s.owner[x] == |s.stack| - 1 ==> Reach(f, x, below)
  {
    hide Reach;
    var m, v := |s.stack| - 1, Top(s);
    var y := s.via[v];
    assert FrameOk(f, s, m) && Pending(f, s, v) && Owned(f, s, v);
    assert Pending(f, s, y) && Owned(f, s, y);
    assert s.owner[y] < m by {
      assert FrameOk(f, s, s.owner[y]);
    }
    var below := s.stack[m-1].state;
    assert FrameOk(f, s, m - 1) && Pending(f, s, below);
    var h := s.stack[s.owner[y]].state;
    assert InSegment(f, s, s.owner[y], below);
    ReachTrans(f, v, y, h);
    ReachTrans(f, v, h, below);
    hide Frames, SccStack, Segments;
    forall x: nat | Pending(f, s, x) && s.owner[x] == m ensures Reach(f, x, below) {
      assert Owned(f, s, x);
      ReachTrans(f, x, v, below);
    }
  }

  lemma InnerOwners<W>(f: Fst<W>, s: Scan, co: seq<bool>)
    requires Sized(f, s) && Frames(f, s) && SccStack(f, s) && Owners(f, s) && Segments(f, s) && CanRetire(f, s)
             && |co| == |f.states|
    requires s.lowlink[Top(s)] < s.dfnumber[Top(s)]
    ensures |s.stack| >= 2
    ensures Sized(f, Retire(s, s.scc, co)) && Owners(f, Retire(s, s.scc, co))
  {
    hide Retire, Reach, SccStack, Frames, Segments;
    InnerReach(f, s);
    var s', m, v := RetireFacts(f, s, s.scc, co);
    forall x: nat | Pending(f, s', x) ensures Owned(f, s', x) {
      assert Pending(f, s, x) && Owned(f, s, x);
    }
  }

  lemma InnerSegments<W>(f: Fst<W>, s: Scan, co: seq<bool>)
    requires Sized(f, s) && Frames(f, s) && SccStack(f, s) && Owners(f, s) && Segments(f, s) && CanRetire(f, s)
             && |co| == |f.states|
    ensures Sized(f, Retire(s, s.scc, co)) && Segments(f, Retire(s, s.scc, co))
  {
    hide Retire, Reach, SccStack, Frames, Owners;
    var s', m, v := RetireFacts(f, s, s.scc, co);
    forall i, x: nat | 0 <= i < |s'.stack| && Pending(f, s', x) ensures InSegment(f, s', i, x) {
      assert Pending(f, s, x) && InSegment(f, s, i, x);
    }
  }

  lemma InnerBounds<W>(f: Fst<W>, s: Scan, co: seq<bool>)
    requires Sized(f, s) && Frames(f, s) && SccStack(f, s) && Owners(f, s) && LowBounds(f, s) && Earlier(f, s)
    requires CanRetire(f, s) && |co| == |f.states| && |s.stack| >= 2 && s.lowlink[Top(s)] < s.dfnumber[Top(s)]
    ensures Sized(f, Retire(s, s.scc, co)) && LowBounds(f, Retire(s, s.scc, co)) && Earlier(f, Retire(s, s.scc, co))
  {
    hide Retire, Reach, SccStack;
    var s', m, v := RetireFacts(f, s, s.scc, co);
    assert FrameOk(f, s, m - 1);
    hide Frames;
    forall x: nat, j: nat | Pending(f, s', x) && Examined(f, s', x, j) && Pending(f, s', Target(f, x, j))
      ensures s'.owner[x] < |s'.stack| && s'.stack[s'.owner[x]].state < |f.states|
      ensures s'.lowlink[s'.stack[s'.owner[x]].state] <= s'.dfnumber[Target(f, x, j)]
    {
      assert Pending(f, s, x) && Pending(f, s, Target(f, x, j)) && Examined(f, s, x, j) && Owned(f, s, x);
    }
    forall i, x: nat, j: nat | 0 <= i < |s'.stack| && Pending(f, s', x) && Examined(f, s', x, j)
                               && s'.owner[x] < i && s'.stack[i].state < |f.states|
      ensures s'.dfnumber[Target(f, x, j)] < s'.dfnumber[s'.stack[i].state]
    {
      assert Pending(f, s, x) && Examined(f, s, x, j);
    }
  }

  lemma InnerVerdicts<W>(f: Fst<W>, s: Scan)
    requires Sized(f, s) && Frames(f, s) && SccStack(f, s) && Owners(f, s) && Settled(f, s) && Verdicts(f, s)
             && CanRetire(f, s)
    ensures var s' := Retire(s, s.scc, NoteFinal(f, s));
        Sized(f, s') && Settled(f, s') && Verdicts(f, s') && SccStack(f, s')
  {
    hide Retire, CoReach, Frames, Owners;
    var s', m, v := RetireFacts(f, s, s.scc, NoteFinal(f, s));
    if IsFinal(f, v) {
      CoReachFinal(f, v);
    }
    assert forall x: nat :: Pending(f, s', x) <==> Pending(f, s, x);
    assert forall x: nat :: Popped(f, s', x) <==> Popped(f, s, x);
    forall x: nat, j: nat | Popped(f, s', x) && Examined(f, s', x, j) ensures Popped(f, s', Target(f, x, j)) {
      assert Popped(f, s, x) && Examined(f, s, x, j);
    }
    forall x: nat, j: nat | Pending(f, s', x) && Examined(f, s', x, j) && Popped(f, s', Target(f, x, j))
      && s'.coaccess[Target(f, x, j)]
      ensures s'.coaccess[x]
    {
      assert Pending(f, s, x) && Examined(f, s, x, j) && Popped(f, s, Target(f, x, j));
    }
  }

  lemma InnerInv<W>(f: Fst<W>, s: Scan)
    requires Inv(f, s) && CanRetire(f, s) && s.lowlink[Top(s)] < s.dfnumber[Top(s)]
    ensures |s.stack| >= 2 && Inv(f, Retire(s, s.scc, NoteFinal(f, s)))
  {
    hide Numbers, Frames, SccStack, Settled, Owners, Segments, LowBounds, Earlier, Verdicts;
    RetireFrames(f, s, s.scc, NoteFinal(f, s));
    InnerOwners(f, s, NoteFinal(f, s));
    InnerSegments(f, s, NoteFinal(f, s));
    InnerBounds(f, s, NoteFinal(f, s));
    InnerVerdicts(f, s);
  }

  // ---- the root of its component

  /** `k` is the place of the root on the component stack; `co` gives the states from there on
      the verdict `b`, which is true iff one of them is final or was seen to be co-accessible. */
  ghost predicate Verdict<W>(f: Fst<W>, s: Scan, k: nat, co: seq<bool>, b: bool)
    requires Sized(f, s)
  {
    && s.stack != [] && Top(s) < |f.states| && k < |s.scc| && s.scc[k] == Top(s) && |co| == |f.states|
    && (forall x :: 0 <= x < |f.states| ==> co[x] == if x in s.scc[k..] then b else s.coaccess[x])
    && (b <==> exists u :: u in s.scc[k..] && u < |f.states| && NoteFinal(f, s)[u])
  }

  /** The component on top of the stack is what the root owns. */
  lemma RootGroup<W>(f: Fst<W>, s: Scan, k: nat)
    requires Sized(f, s) && Frames(f, s) && SccStack(f, s) && Owners(f, s) && Segments(f, s)
    requires s.stack != [] && k < |s.scc| && s.scc[k] == Top(s)
    ensures forall x: nat :: Pending(f, s, x) ==>
              && (x in s.scc[..k] <==> s.owner[x] < |s.stack| - 1) && (x in s.scc[k..] <==> s.owner[x] == |s.stack| - 1)
              && (x in s.scc[..k] <==> s.dfnumber[x] < s.dfnumber[s.scc[k]])
    ensures forall x: nat :: x in s.scc[..k] || x in s.scc[k..] ==> Pending(f, s, x)
  {
    hide Reach, Frames, Owners, Segments, FrameOk;
    forall x: nat | Pending(f, s, x)
      ensures x in s.scc[..k] <==> s.owner[x] < |s.stack| - 1
      ensures x in s.scc[k..] <==> s.owner[x] == |s.stack| - 1
      ensures x in s.scc[..k] <==> s.dfnumber[x] < s.dfnumber[s.scc[k]]
    {
      var l :| 0 <= l < |s.scc| && s.scc[l] == x;
      GroupFrom(f, s, k, l);
      assert l < k ==> x == s.scc[..k][l];
      assert l >= k ==> x == s.scc[k..][l-k];
    }
  }

  /** The component that ends at the top frame lies on the stack from the top state on. */
  lemma GroupFrom<W>(f: Fst<W>, s: Scan, k: nat, l: nat)
    requires Sized(f, s) && Frames(f, s) && SccStack(f, s) && Owners(f, s) && Segments(f, s)
    requires s.stack != [] && k < |s.scc| && s.scc[k] == Top(s) && l < |s.scc|
    ensures var x := s.scc[l]; x < |f.states| && (if l < k then s.owner[x] < |s.stack| - 1
                                                  && s.dfnumber[x] < s.dfnumber[s.scc[k]]
                                else s.owner[x] == |s.stack| - 1 && s.dfnumber[x] >= s.dfnumber[s.scc[k]])
  {
    hide Reach;
    var m, x := |s.stack| - 1, s.scc[l];
    assert FrameOk(f, s, m) && Pending(f, s, x);
    assert Owned(f, s, x) && InSegment(f, s, m, x);
  }
  lemma PendingBounds<W>(f: Fst<W>, s: Scan)
    requires Sized(f, s) && SccStack(f, s) && Owners(f, s) && |s.stack| > 0
    ensures forall x: nat :: Pending(f, s, x) ==> s.owner[x] <= |s.stack| - 1 && s.color[x] != White
  {
    forall x: nat | Pending(f, s, x) ensures s.owner[x] <= |s.stack| - 1 && s.color[x] != White {
      assert Owned(f, s, x);
    }
  }

  lemma RootSets<W>(f: Fst<W>, s: Scan, k: nat, co: seq<bool>)
    requires Sized(f, s) && Frames(f, s) && SccStack(f, s) && Owners(f, s) && Segments(f, s)
    requires CanRetire(f, s) && k < |s.scc| && s.scc[k] == Top(s) && |co| == |f.states|
    ensures var s' := Retire(s, s.scc[..k], co);
            && Sized(f, s')
            && (forall x: nat :: Pending(f, s', x) <==> Pending(f, s, x) && s.owner[x] < |s.stack| - 1)
            && (forall x: nat :: Popped(f, s', x)
                 <==> Popped(f, s, x) || (Pending(f, s, x) && s.owner[x] == |s.stack| - 1))
  {
    hide Retire, Reach, Frames, Segments, CanRetire, Owners, SccStack;
    var s', m, v := RetireFacts(f, s, s.scc[..k], co);
    RootGroup(f, s, k);
    PendingBounds(f, s);
    forall x: nat
      ensures Pending(f, s', x) <==> Pending(f, s, x) && s.owner[x] < m
      ensures Popped(f, s', x) <==> Popped(f, s, x) || (Pending(f, s, x) && s.owner[x] == m)
    {
      assert x in s.scc[..k] ==> Pending(f, s, x);
    }
  }

  lemma RootScc<W>(f: Fst<W>, s: Scan, k: nat, co: seq<bool>)
    requires Sized(f, s) && Frames(f, s) && SccStack(f, s) && Owners(f, s) && Segments(f, s)
    requires CanRetire(f, s) && k < |s.scc| && s.scc[k] == Top(s) && |co| == |f.states|
    ensures var s' := Retire(s, s.scc[..k], co); Sized(f, s') && SccStack(f, s')
  {
    hide Retire, Reach, Owners, Segments;
    var s', m, v := RetireFacts(f, s, s.scc[..k], co);
    RootSets(f, s, k, co);
    forall x | 0 <= x < |f.states| && s'.color[x] == Grey ensures x in s'.scc {
      assert Pending(f, s, x) && x != v;
      assert FrameOk(f, s, s.owner[x]);
      assert Pending(f, s', x);
    }
  }

  /** The lowlink of a state below the component is witnessed below it. */
  lemma ViaBelow<W>(f: Fst<W>, s: Scan, k: nat, x: nat)
    requires Sized(f, s) && Frames(f, s) && SccStack(f, s) && Owners(f, s) && Segments(f, s)
    requires s.stack != [] && k < |s.scc| && s.scc[k] == Top(s) && Pending(f, s, x) && s.owner[x] < |s.stack| - 1
    ensures Owned(f, s, x) && s.via[x] in s.scc[..k]
  {
    hide Frames, SccStack, Segments, Reach;
    RootGroup(f, s, k);
    assert Owned(f, s, x) && x in s.scc[..k] && Pending(f, s, s.via[x]);
  }

  lemma RootOwners<W>(f: Fst<W>, s: Scan, k: nat, co: seq<bool>)
    requires Sized(f, s) && Frames(f, s) && SccStack(f, s) && Owners(f, s) && Segments(f, s)
    requires CanRetire(f, s) && k < |s.scc| && s.scc[k] == Top(s) && |co| == |f.states|
    ensures var s' := Retire(s, s.scc[..k], co); Sized(f, s') && Owners(f, s')
  {
    hide Retire, Reach, SccStack, Frames, Segments, CanRetire;
    var s', m, v := RetireFacts(f, s, s.scc[..k], co);
    RootSets(f, s, k, co);
    forall x: nat | Pending(f, s', x) ensures Owned(f, s', x) {
      ViaBelow(f, s, k, x);
    }
  }

  lemma RootSegments<W>(f: Fst<W>, s: Scan, k: nat, co: seq<bool>)
    requires Sized(f, s) && Frames(f, s) && SccStack(f, s) && Owners(f, s) && Segments(f, s)
    requires CanRetire(f, s) && k < |s.scc| && s.scc[k] == Top(s) && |co| == |f.states|
    ensures var s' := Retire(s, s.scc[..k], co); Sized(f, s') && Segments(f, s')
  {
    hide Retire, Reach, SccStack, Frames, Owners;
    var s', m, v := RetireFacts(f, s, s.scc[..k], co);
    RootSets(f, s, k, co);
    forall i, x: nat | 0 <= i < |s'.stack| && Pending(f, s', x) ensures InSegment(f, s', i, x) {
      assert Pending(f, s, x) && InSegment(f, s, i, x);
    }
  }

  lemma RootBounds<W>(f: Fst<W>, s: Scan, k: nat, co: seq<bool>)
    requires Sized(f, s) && Frames(f, s) && SccStack(f, s) && Owners(f, s) && Segments(f, s) && LowBounds(f, s)
             && Earlier(f, s)
    requires CanRetire(f, s) && k < |s.scc| && s.scc[k] == Top(s) && |co| == |f.states|
    ensures var s' := Retire(s, s.scc[..k], co); Sized(f, s') && LowBounds(f, s') && Earlier(f, s')
  {
    hide Retire, Reach, SccStack, Segments, CanRetire;
    var s', m, v := RetireFacts(f, s, s.scc[..k], co);
    RootSets(f, s, k, co);
    hide Frames, Owners;
    forall x: nat, j: nat | Pending(f, s', x) && Examined(f, s', x, j) && Pending(f, s', Target(f, x, j))
      ensures s'.owner[x] < |s'.stack| && s'.stack[s'.owner[x]].state < |f.states|
      ensures s'.lowlink[s'.stack[s'.owner[x]].state] <= s'.dfnumber[Target(f, x, j)]
    {
      assert Pending(f, s, x) && Pending(f, s, Target(f, x, j)) && Examined(f, s, x, j);
    }
    forall i, x: nat, j: nat | 0 <= i < |s'.stack| && Pending(f, s', x) && Examined(f, s', x, j)
                               && s'.owner[x] < i && s'.stack[i].state < |f.states|
      ensures s'.dfnumber[Target(f, x, j)] < s'.dfnumber[s'.stack[i].state]
    {
      assert Pending(f, s, x) && Examined(f, s, x, j);
    }
  }

  ghost predicate InGroup<W>(f: Fst<W>, s: Scan, x: nat)
    requires Sized(f, s)
  {
    Pending(f, s, x) && s.owner[x] == |s.stack| - 1
  }

  /** Every arc of the component stays in it or ends in a settled one. */
  ghost predicate GroupClosed<W>(f: Fst<W>, s: Scan)
    requires Sized(f, s)
  {
    forall x: nat, j: nat :: InGroup(f, s, x) && j < |f.states[x].trs| ==>
      Examined(f, s, x, j) && (Popped(f, s, Target(f, x, j)) || InGroup(f, s, Target(f, x, j)))
  }

  /** A final state of the component, or an arc from it to a settled co-accessible state, shows in the verdicts. */
  ghost predicate GroupNoted<W>(f: Fst<W>, s: Scan)
    requires Sized(f, s)
  {
    && s.stack != [] && Top(s) < |f.states|
    && (forall x: nat :: InGroup(f, s, x) && IsFinal(f, x) ==> NoteFinal(f, s)[x])
    && (forall x: nat, j: nat ::
          InGroup(f, s, x) && j < |f.states[x].trs| && Popped(f, s, Target(f, x, j)) && s.coaccess[Target(f, x, j)] ==>
            NoteFinal(f, s)[x])
  }

  lemma RootClosed<W>(f: Fst<W>, s: Scan)
    requires Sized(f, s) && Numbers(f, s) && Frames(f, s) && SccStack(f, s) && Owners(f, s) && Segments(f, s)
             && LowBounds(f, s)
    requires CanRetire(f, s) && s.lowlink[Top(s)] == s.dfnumber[Top(s)] && WellFormed(f)
    ensures GroupClosed(f, s)
  {
    hide Reach;
    var m, v := |s.stack| - 1, Top(s);
    assert FrameOk(f, s, m);
    forall x: nat, j: nat | InGroup(f, s, x) && j < |f.states[x].trs|
      ensures Examined(f, s, x, j) && (Popped(f, s, Target(f, x, j)) || InGroup(f, s, Target(f, x, j)))
    {
      var z := Target(f, x, j);
      assert s.color[x] == Black || x == v;
      assert Examined(f, s, x, j);
      if Pending(f, s, z) {
        assert Owned(f, s, z) && InSegment(f, s, m, z);
      }
    }
  }

  lemma RootNoted<W>(f: Fst<W>, s: Scan)
    requires Sized(f, s) && Frames(f, s) && SccStack(f, s) && Verdicts(f, s) && GroupClosed(f, s) && CanRetire(f, s)
    ensures GroupNoted(f, s)
  {
    hide CoReach;
    var m, v := |s.stack| - 1, Top(s);
    assert FrameOk(f, s, m);
    forall x: nat | InGroup(f, s, x) ensures s.color[x] == Black || x == v {
    }
  }

  /** If a final state can be reached from the component, some member is noted. */
  lemma {:induction false} RootComplete<W>(f: Fst<W>, s: Scan, x: nat, p: seq<Edge>, t: nat) returns (u: nat)
    requires Sized(f, s) && Settled(f, s) && GroupClosed(f, s) && GroupNoted(f, s)
    requires InGroup(f, s, x) && IsPath(f, x, p, t) && IsFinal(f, t)
    ensures InGroup(f, s, u) && NoteFinal(f, s)[u]
    decreases |p|
  {
    u := x;
    if p != [] {
      assert Examined(f, s, x, p[0].pos);
      var z := Target(f, x, p[0].pos);
      if Popped(f, s, z) {
        assert Reach(f, z, t);
        assert CoReach(f, z);
      } else {
        u := RootComplete(f, s, z, p[1..], t);
      }
    }
  }

  /** Members of the component reach each other. */
  lemma GroupReach<W>(f: Fst<W>, s: Scan, x: nat, u: nat)
    requires Sized(f, s) && Frames(f, s) && Owners(f, s) && Segments(f, s) && InGroup(f, s, x) && InGroup(f, s, u)
    ensures Reach(f, x, u)
  {
    hide Reach;
    var m := |s.stack| - 1;
    assert Owned(f, s, x) && InSegment(f, s, m, u);
    ReachTrans(f, x, s.stack[m].state, u);
  }

  /** All states of the component are co-accessible exactly if one of them is noted. */
  lemma RootExact<W>(f: Fst<W>, s: Scan, x: nat, b: bool)
    requires Sized(f, s) && Frames(f, s) && Owners(f, s) && Segments(f, s) && Settled(f, s) && Verdicts(f, s)
    requires GroupClosed(f, s) && GroupNoted(f, s) && InGroup(f, s, x)
    requires b <==> exists u: nat :: InGroup(f, s, u) && NoteFinal(f, s)[u]
    ensures b <==> CoReach(f, x)
  {
    if b {
      var u: nat :| InGroup(f, s, u) && NoteFinal(f, s)[u];
      hide Reach, CoReach, Frames, Settled, GroupClosed, GroupNoted, Owners, Segments;
      if IsFinal(f, u) {
        CoReachFinal(f, u);
      }
      GroupReach(f, s, x, u);
      CoReachBack(f, x, u);
    } else if CoReach(f, x) {
      var t :| Reach(f, x, t) && IsFinal(f, t);
      var p :| IsPath(f, x, p, t);
      hide Frames, Settled, GroupClosed, GroupNoted, Owners, Segments, Verdicts;
      var u := RootComplete(f, s, x, p, t);
    }
  }

  /** The verdict of the component is exact for each of its members. */
  ghost predicate GroupExact<W>(f: Fst<W>, s: Scan, b: bool)
    requires Sized(f, s)
  {
    forall x: nat :: InGroup(f, s, x) ==> (b <==> CoReach(f, x))
  }

  lemma RootGroupExact<W>(f: Fst<W>, s: Scan, k: nat, co: seq<bool>, b: bool)
    requires Sized(f, s) && Frames(f, s) && SccStack(f, s) && Owners(f, s) && Segments(f, s) && Settled(f, s)
             && Verdicts(f, s)
    requires GroupClosed(f, s) && GroupNoted(f, s) && Verdict(f, s, k, co, b)
    ensures GroupExact(f, s, b)
  {
    hide Frames, SccStack, Owners, Segments, Settled, Verdicts, GroupClosed, GroupNoted, CoReach;
    RootGroup(f, s, k);
    assert forall u: nat :: InGroup(f, s, u) <==> u in s.scc[k..] && u < |f.states|;
    forall x: nat | InGroup(f, s, x) ensures b <==> CoReach(f, x) {
      RootExact(f, s, x, b);
    }
  }

  lemma RootSettled<W>(f: Fst<W>, s: Scan, k: nat, co: seq<bool>, b: bool)
    requires Sized(f, s) && Frames(f, s) && SccStack(f, s) && Owners(f, s) && Segments(f, s) && Settled(f, s)
    requires CanRetire(f, s) && GroupClosed(f, s) && GroupExact(f, s, b) && Verdict(f, s, k, co, b)
    ensures var s' := Retire(s, s.scc[..k], co); Sized(f, s') && Settled(f, s')
  {
    hide Retire, CoReach, Frames, SccStack, Owners, Segments, CanRetire;
    var s', m, v := RetireFacts(f, s, s.scc[..k], co);
    RootSets(f, s, k, co);
    RootGroup(f, s, k);
    forall x: nat, j: nat | Popped(f, s', x) && Examined(f, s', x, j) ensures Popped(f, s', Target(f, x, j)) {
      assert Examined(f, s, x, j);
      assert Popped(f, s, x) || InGroup(f, s, x);
    }
    forall x: nat | Popped(f, s', x) ensures s'.coaccess[x] <==> CoReach(f, x) {
      assert Popped(f, s, x) || InGroup(f, s, x);
    }
  }

  lemma RootVerdicts<W>(f: Fst<W>, s: Scan, k: nat, co: seq<bool>, b: bool)
    requires Sized(f, s) && Frames(f, s) && SccStack(f, s) && Owners(f, s) && Segments(f, s)
    requires Earlier(f, s) && Verdicts(f, s) && CanRetire(f, s) && GroupExact(f, s, b) && Verdict(f, s, k, co, b)
    ensures var s' := Retire(s, s.scc[..k], co); Sized(f, s') && Verdicts(f, s')
  {
    hide Retire, CoReach, Frames, SccStack, Owners, Segments, Earlier, CanRetire;
    var s', m, v := RetireFacts(f, s, s.scc[..k], co);
    RootSets(f, s, k, co);
    RootGroup(f, s, k);
    RootEarlier(f, s, k);
    forall x | 0 <= x < |f.states| && s'.coaccess[x] ensures CoReach(f, x) {
      assert x in s.scc[k..] ==> InGroup(f, s, x);
    }
    forall x: nat, j: nat | Pending(f, s', x) && Examined(f, s', x, j) && Popped(f, s', Target(f, x, j))
      && s'.coaccess[Target(f, x, j)]
      ensures s'.coaccess[x]
    {
      var z := Target(f, x, j);
      assert Pending(f, s, x) && Examined(f, s, x, j) && !InGroup(f, s, z);
      assert Popped(f, s, z) && z !in s.scc[k..] && x !in s.scc[k..];
    }
    forall x: nat | Pending(f, s', x) && s'.color[x] == Black && IsFinal(f, x) ensures s'.coaccess[x] {
      assert Pending(f, s, x) && x !in s.scc[k..] && x != v;
    }
  }

  /** No examined arc leads into the component from below it. */
  lemma RootEarlier<W>(f: Fst<W>, s: Scan, k: nat)
    requires Sized(f, s) && Frames(f, s) && SccStack(f, s) && Owners(f, s) && Segments(f, s) && Earlier(f, s)
    requires s.stack != [] && k < |s.scc| && s.scc[k] == Top(s)
    ensures forall x: nat, j: nat :: Pending(f, s, x) && s.owner[x] < |s.stack| - 1 && Examined(f, s, x, j) ==>
        !InGroup(f, s, Target(f, x, j))
  {
    RootGroup(f, s, k);
    assert FrameOk(f, s, |s.stack| - 1);
    hide Frames, SccStack, Owners, Segments;
  }

  lemma RootInv<W>(f: Fst<W>, s: Scan, k: nat, co: seq<bool>, b: bool)
    requires Inv(f, s) && CanRetire(f, s) && s.lowlink[Top(s)] == s.dfnumber[Top(s)] && WellFormed(f)
    requires Verdict(f, s, k, co, b)
    ensures Inv(f, Retire(s, s.scc[..k], co))
  {
    hide Numbers, Frames, SccStack, Settled, Owners, Segments, LowBounds, Earlier, Verdicts, WellFormed, GroupClosed,
         GroupNoted, GroupExact;
    RetireFrames(f, s, s.scc[..k], co);
    RootScc(f, s, k, co);
    RootOwners(f, s, k, co);
    RootSegments(f, s, k, co);
    RootBounds(f, s, k, co);
    RootClosed(f, s);
    RootNoted(f, s);
    RootGroupExact(f, s, k, co, b);
    RootSettled(f, s, k, co, b);
    RootVerdicts(f, s, k, co, b);
  }
}
