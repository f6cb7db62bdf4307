/** `dfs_visit` driving `ConnectVisitor`, and trimming by its verdicts. */
module Connects {
  import opened Fsts
  import opened Tarjan

  class ConnectVisitor<W> {
    const f: Fst<W>
    var access: seq<bool>
    var coaccess: seq<bool>
    var nstates: nat
    var dfnumber: seq<int>
    var lowlink: seq<int>
    var onstack: seq<bool>
    var sccStack: seq<nat>

    ghost predicate Valid()
      reads this
    {
      && |access| == |coaccess| == |dfnumber| == |lowlink| == |onstack| == |f.states|
      && (forall k :: 0 <= k < |sccStack| ==> sccStack[k] < |f.states|)
      && (forall x :: 0 <= x < |onstack| ==> (onstack[x] <==> x in sccStack))
    }

    constructor (fst: Fst<W>)
      ensures Valid() && f == fst && sccStack == [] && nstates == 0
      ensures access == seq(|fst.states|, _ => false) && coaccess == seq(|fst.states|, _ => false)
      ensures dfnumber == seq(|fst.states|, _ => -1) && lowlink == seq(|fst.states|, _ => -1)
    {
      f := fst;
      access, coaccess := seq(|fst.states|, _ => false), seq(|fst.states|, _ => false);
      dfnumber, lowlink := seq(|fst.states|, _ => -1), seq(|fst.states|, _ => -1);
      onstack, sccStack, nstates := seq(|fst.states|, _ => false), [], 0;
    }

    method InitState(s: nat, root: nat)
      requires Valid() && s < |f.states|
      modifies this
      ensures Valid() && sccStack == old(sccStack) + [s] && nstates == old(nstates) + 1
      ensures dfnumber == old(dfnumber)[s := old(nstates)] && lowlink == old(lowlink)[s := old(nstates)]
      ensures access == old(access)[s := f.start == Some(root)] && coaccess == old(coaccess)
    {
      sccStack := sccStack + [s];
      dfnumber := dfnumber[s := nstates];
      lowlink := lowlink[s := nstates];
      onstack := onstack[s := true];
      access := access[s := f.start == Some(root)];
      nstates := nstates + 1;
    }

    method BackTr(s: nat, t: nat)
      requires Valid() && s < |f.states| && t < |f.states|
      modifies this`lowlink, this`coaccess
      ensures lowlink == if dfnumber[t] < old(lowlink[s]) then old(lowlink)[s := dfnumber[t]] else old(lowlink)
      ensures coaccess == old(coaccess)[s := old(coaccess[s] || coaccess[t])]
    {
      if dfnumber[t] < lowlink[s] {
        lowlink := lowlink[s := dfnumber[t]];
      }
      if coaccess[t] {
        coaccess := coaccess[s := true];
      }
    }

    method ForwardOrCrossTr(s: nat, t: nat)
      requires Valid() && s < |f.states| && t < |f.states|
      modifies this`lowlink, this`coaccess
      ensures lowlink == if dfnumber[t] < dfnumber[s] && t in sccStack && dfnumber[t] < old(lowlink[s])
                         then old(lowlink)[s := dfnumber[t]] else old(lowlink)
      ensures coaccess == old(coaccess)[s := old(coaccess[s] || coaccess[t])]
    {
      if dfnumber[t] < dfnumber[s] && onstack[t] && dfnumber[t] < lowlink[s] {
        lowlink := lowlink[s := dfnumber[t]];
      }
      if coaccess[t] {
        coaccess := coaccess[s := true];
      }
    }

    /** Whether some state of the component, from the top of the stack down to `s`, is co-accessible. */
    method ComponentVerdict(s: nat) returns (k: nat, sccCoaccess: bool)
      requires Valid() && s < |f.states| && s in sccStack
      ensures k < |sccStack| && sccStack[k] == s
      ensures sccCoaccess <==> exists u :: u in sccStack[k..] && u < |f.states| && coaccess[u]
    {
      sccCoaccess := false;
      k := |sccStack|;
      while true
        invariant k <= |sccStack| && s !in sccStack[k..]
        invariant sccCoaccess <==> exists u :: u in sccStack[k..] && u < |f.states| && coaccess[u]
        decreases k
      {
        assert sccStack[0..] == sccStack;
        k := k - 1;
        var t := sccStack[k];
        assert sccStack[k..] == [t] + sccStack[k+1..];
        if coaccess[t] {
          sccCoaccess := true;
        }
        if s == t {
          break;
        }
      }
    }

    /** Takes the component of its root `s` off the stack, with one verdict for all of it. */
    method PopComponent(s: nat, sccCoaccess: bool, ghost k: nat)
      requires Valid() && s < |f.states| && k < |sccStack| && sccStack[k] == s
      requires forall i, j :: 0 <= i < j < |sccStack| ==> sccStack[i] != sccStack[j]
      modifies this`sccStack, this`coaccess, this`onstack
      ensures Valid() && sccStack == old(sccStack)[..k]
      ensures forall x :: 0 <= x < |f.states| ==> coaccess[x] == (old(coaccess)[x]
                                                                  || (sccCoaccess && x in old(sccStack)[k..]))
    {
      ghost var scc0 := sccStack;
      while true
        invariant k < |sccStack| <= |scc0| && Valid() && sccStack == scc0[..|sccStack|]
        invariant forall x :: 0 <= x < |f.states| ==> coaccess[x] == (old(coaccess)[x]
                                                                      || (sccCoaccess && x in scc0[|sccStack|..]))
        decreases |sccStack|
      {
        ghost var m := |sccStack| - 1;
        var t := sccStack[|sccStack|-1];
        assert scc0[m..] == [t] + scc0[m+1..];
        assert sccStack == scc0[..m] + [t] && t !in scc0[..m];
        if sccCoaccess {
          coaccess := coaccess[t := true];
        }
        onstack := onstack[t := false];
        sccStack := sccStack[..|sccStack|-1];
        if s == t {
          assert m == k;
          break;
        }
      }
    }

    /** The first part of `finish_state`: finality, and the component if `s` is its root. */
    method SettleState(s: nat) returns (ghost k: nat, ghost b: bool)
      requires Valid() && s < |f.states| && s in sccStack
      requires forall i, j :: 0 <= i < j < |sccStack| ==> sccStack[i] != sccStack[j]
      modifies this`sccStack, this`coaccess, this`onstack
      ensures Valid()
      ensures var noted := old(coaccess)[s := old(coaccess)[s] || IsFinal(f, s)];
              if dfnumber[s] == lowlink[s] then
                && k < |old(sccStack)| && old(sccStack)[k] == s && sccStack == old(sccStack)[..k]
                && (b <==> exists u :: u in old(sccStack)[k..] && u < |f.states| && noted[u])
                && (forall x :: 0 <= x < |f.states| ==> coaccess[x] == if x in old(sccStack)[k..] then b
                    else old(coaccess)[x])
              else sccStack == old(sccStack) && coaccess == noted
    {
      k, b := 0, false;
      if f.states[s].finalWeight.Some? {
        coaccess := coaccess[s := true];
      }
      if dfnumber[s] == lowlink[s] {
        var k1, sccCoaccess := ComponentVerdict(s);
        k, b := k1, sccCoaccess;
        PopComponent(s, sccCoaccess, k1);
        assert s == old(sccStack)[k..][0];
      }
    }

    /** The second part: the parent takes over verdict and lowlink. */
    method TellParent(s: nat, p: nat)
      requires Valid() && s < |f.states| && p < |f.states| && p != s
      modifies this`coaccess, this`lowlink
      ensures coaccess == old(coaccess)[p := old(coaccess)[p] || old(coaccess)[s]]
      ensures lowlink == if old(lowlink)[s] < old(lowlink)[p] then old(lowlink)[p := old(lowlink)[s]] else old(lowlink)
    {
      if coaccess[s] {
        coaccess := coaccess[p := true];
      }
      if lowlink[s] < lowlink[p] {
        lowlink := lowlink[p := lowlink[s]];
      }
    }
  }

  // ------------------------------------------------ the search

  /** The snapshot `s` shows the search variables and the visitor as they are. */
  ghost predicate Matches<W>(visitor: ConnectVisitor<W>, color: seq<Color>, stack: seq<Frame>, s: Scan)
    reads visitor
  {
    && visitor.Valid()
    && s.color == color && s.stack == stack && s.dfnumber == visitor.dfnumber && s.lowlink == visitor.lowlink
    && s.scc == visitor.sccStack && s.coaccess == visitor.coaccess && s.nstates == visitor.nstates
  }

  /** In the first tree exactly the visited states are marked; afterwards exactly the accessible ones. */
  ghost predicate AccessOk<W>(f: Fst<W>, access: seq<bool>, color: seq<Color>, first: bool) {
    && |access| == |color| == |f.states|
    && forall v :: 0 <= v < |f.states| ==>
         && (access[v] ==> Accessible(f, v))
         && (access[v] ==> color[v] != White)
         && (if first then color[v] != White ==> access[v] else Accessible(f, v) ==> access[v])
  }

  /** Open frames and unread arcs. */
  function StackWork<W>(f: Fst<W>, stack: seq<Frame>): nat {
    if stack == [] then 0
    else
      var top := stack[|stack|-1];
      StackWork(f, stack[..|stack|-1]) + 1 +
      (if top.state < |f.states| && top.pos < |f.states[top.state].trs| then |f.states[top.state].trs| - top.pos else 0)
  }

  ghost function WhiteStates(color: seq<Color>): set<nat> {
    set v: nat | v < |color| && color[v] == White
  }

  /** Advancing a frame past an arc is progress, and so is popping it. */
  lemma WorkAdvance<W>(f: Fst<W>, stack: seq<Frame>)
    requires stack != []
    requires var top := stack[|stack|-1]; top.state < |f.states| && top.pos < |f.states[top.state].trs|
    ensures var m := |stack| - 1; StackWork(f, stack[m := stack[m].(pos := stack[m].pos + 1)]) < StackWork(f, stack)
  {
    var m := |stack| - 1;
    assert stack[m := stack[m].(pos := stack[m].pos + 1)][..m] == stack[..m];
  }

  lemma WorkFinish<W>(f: Fst<W>, stack: seq<Frame>, stack': seq<Frame>)
    requires stack != [] && |stack'| == |stack| - 1
    requires |stack'| > 0 ==> var m := |stack'| - 1; var b := stack[m];
               && stack' == stack[..m+1][m := b.(pos := b.pos + 1)]
               && b.state < |f.states| && b.pos < |f.states[b.state].trs|
    ensures StackWork(f, stack') < StackWork(f, stack)
  {
    if |stack'| > 0 {
      WorkAdvance(f, stack[..|stack'|]);
    }
  }

  lemma DiscoverAccess<W>(f: Fst<W>, access: seq<bool>, s: Scan, t: nat, root: nat)
    requires WellFormed(f) && Sized(f, s) && Frames(f, s) && CanDiscover(f, s, t)
    requires AccessOk(f, access, s.color, f.start == Some(root))
    requires f.start == Some(root) && s.stack == [] ==> t == root
    ensures AccessOk(f, access[t := f.start == Some(root)], s.color[t := Grey], f.start == Some(root))
  {
    hide Reach;
    if f.start == Some(root) {
      if s.stack == [] {
        ReachRefl(f, t);
      } else {
        assert FrameOk(f, s, |s.stack| - 1);
        ReachEdge(f, Top(s), s.stack[|s.stack|-1].pos);
        ReachTrans(f, f.start.value, Top(s), t);
      }
      assert Accessible(f, t);
    }
    hide Accessible, Frames, CanDiscover, WellFormed;
  }

  /** A white state is opened: coloured, pushed and announced to the visitor. */
  method Open<W>(f: Fst<W>, visitor: ConnectVisitor<W>, color: seq<Color>, stack: seq<Frame>, t: nat, root: nat,
                 ghost s: Scan)
    returns (color': seq<Color>, stack': seq<Frame>, ghost s': Scan)
    requires WellFormed(f) && visitor.f == f && Matches(visitor, color, stack, s) && Inv(f, s) && CanDiscover(f, s, t)
    requires AccessOk(f, visitor.access, color, f.start == Some(root))
    requires f.start == Some(root) && stack == [] ==> t == root
    modifies visitor
    ensures Matches(visitor, color', stack', s') && Inv(f, s')
    ensures AccessOk(f, visitor.access, color', f.start == Some(root))
    ensures color' == color[t := Grey] && WhiteStates(color') < WhiteStates(color) && t !in WhiteStates(color')
  {
    DiscoverInv(f, s, t);
    DiscoverAccess(f, visitor.access, s, t, root);
    s' := Discover(s, t);
    hide Inv, AccessOk, WellFormed;
    color' := color[t := Grey];
    stack' := stack + [Frame(t, 0)];
    assert t in WhiteStates(color) && t !in WhiteStates(color');
    visitor.InitState(t, root);
  }

  /** The current arc leads to a visited state: the visitor looks at it and the frame moves on. */
  method ExamineArc<W>(f: Fst<W>, visitor: ConnectVisitor<W>, color: seq<Color>, stack: seq<Frame>, ghost s: Scan)
    returns (stack': seq<Frame>, ghost s': Scan)
    requires WellFormed(f) && visitor.f == f && Matches(visitor, color, stack, s) && Inv(f, s) && CanExamine(f, s)
    modifies visitor`lowlink, visitor`coaccess
    ensures Matches(visitor, color, stack', s') && Inv(f, s')
    ensures StackWork(f, stack') < StackWork(f, stack)
  {
    hide Inv, StackWork;
    WorkAdvance(f, stack);
    var m := |stack| - 1;
    var v, p := stack[m].state, stack[m].pos;
    var t := f.states[v].trs[p].nextstate;
    s' := ExamineStep(f, s, v, p, t);
    hide Examine, WellFormed, CanExamine, Sized;
    if color[t] == Grey {
      visitor.BackTr(v, t);
    } else {
      visitor.ForwardOrCrossTr(v, t);
    }
    stack' := stack[m := Frame(v, p + 1)];
  }

  lemma ExamineStep<W>(f: Fst<W>, s: Scan, v: nat, p: nat, t: nat) returns (s': Scan)
    requires Inv(f, s) && WellFormed(f)
    requires CanExamine(f, s) && v == Top(s) && p == s.stack[|s.stack|-1].pos && t == Target(f, v, p)
    ensures v < |f.states| && t < |f.states| == |s.color| == |s.coaccess| == |s.lowlink| == |s.dfnumber|
    ensures Inv(f, s') && s'.color == s.color && s'.stack == s.stack[|s.stack|-1 := Frame(v, p + 1)]
    ensures s'.dfnumber == s.dfnumber && s'.scc == s.scc && s'.nstates == s.nstates
    ensures s'.coaccess == s.coaccess[v := s.coaccess[v] || s.coaccess[t]]
    ensures s.color[t] == Grey ==> s'.lowlink == if s.dfnumber[t] < s.lowlink[v] then s.lowlink[v := s.dfnumber[t]]
            else s.lowlink
    ensures s'.lowlink == if s.dfnumber[t] < s.dfnumber[v] && t in s.scc && s.dfnumber[t] < s.lowlink[v]
                          then s.lowlink[v := s.dfnumber[t]] else s.lowlink
  {
    s' := ExamineFields(f, s, v, p, t);
    hide *;
    ExamineInv(f, s);
  }

  /** The fields of the next snapshot, in the terms of the two callbacks. */
  lemma ExamineFields<W>(f: Fst<W>, s: Scan, v: nat, p: nat, t: nat) returns (s': Scan)
    requires Sized(f, s) && Frames(f, s) && SccStack(f, s) && Owners(f, s)
    requires CanExamine(f, s) && v == Top(s) && p == s.stack[|s.stack|-1].pos && t == Target(f, v, p)
    ensures v < |f.states| && t < |f.states| == |s.color| == |s.coaccess| == |s.lowlink| == |s.dfnumber|
    ensures s' == Examine(f, s) && s'.color == s.color && s'.stack == s.stack[|s.stack|-1 := Frame(v, p + 1)]
    ensures s'.dfnumber == s.dfnumber && s'.scc == s.scc && s'.nstates == s.nstates
    ensures s'.coaccess == s.coaccess[v := s.coaccess[v] || s.coaccess[t]]
    ensures s.color[t] == Grey ==> s'.lowlink == if s.dfnumber[t] < s.lowlink[v] then s.lowlink[v := s.dfnumber[t]]
            else s.lowlink
    ensures s'.lowlink == if s.dfnumber[t] < s.dfnumber[v] && t in s.scc && s.dfnumber[t] < s.lowlink[v]
                          then s.lowlink[v := s.dfnumber[t]] else s.lowlink
  {
    var m, v0, p0, t0 := 0, 0, 0, 0;
    s', m, v0, p0, t0 := ExamineFacts(f, s);
    assert Pending(f, s, v) && Owned(f, s, v);
    hide Examine, Frames, Owners;
  }

  /** What finishing the top state does to the snapshot. */
  ghost predicate Finished<W>(f: Fst<W>, s: Scan, s': Scan)
    requires Sized(f, s)
  {
    && s.stack != []
    && var m, v := |s.stack| - 1, Top(s);
    && v < |f.states| && s'.color == s.color[v := Black]
    && s'.dfnumber == s.dfnumber && s'.nstates == s.nstates
    && |s'.stack| == m
    && (m > 0 ==> s'.stack == s.stack[..m][m-1 := s.stack[m-1].(pos := s.stack[m-1].pos + 1)])
  }

  /** The snapshot with the verdicts `co` and the component stack `scc` of the settled state,
      before its parent hears of it. */
  ghost predicate SettledTo<W>(f: Fst<W>, s: Scan, scc: seq<nat>, co: seq<bool>, k: nat, b: bool)
    requires Sized(f, s)
  {
    && s.stack != [] && Top(s) < |f.states| && |co| == |f.states|
    && if s.dfnumber[Top(s)] == s.lowlink[Top(s)] then k < |s.scc| && scc == s.scc[..k] && Verdict(f, s, k, co, b)
       else scc == s.scc && co == NoteFinal(f, s)
  }

  lemma SettleInv<W>(f: Fst<W>, s: Scan, scc: seq<nat>, co: seq<bool>, k: nat, b: bool)
    requires Inv(f, s) && CanRetire(f, s) && WellFormed(f) && SettledTo(f, s, scc, co, k, b)
    ensures Inv(f, Retire(s, scc, co))
  {
    assert s.lowlink[Top(s)] <= s.dfnumber[Top(s)] by {
      assert FrameOk(f, s, |s.stack| - 1) && Pending(f, s, Top(s)) && Owned(f, s, Top(s));
    }
    hide Inv, Verdict, WellFormed;
    if s.lowlink[Top(s)] < s.dfnumber[Top(s)] {
      InnerInv(f, s);
    } else {
      RootInv(f, s, k, co, b);
    }
  }

  /** The search root: nothing is below it on the stack. */
  lemma FinishRoot<W>(f: Fst<W>, s: Scan, scc: seq<nat>, co: seq<bool>, k: nat, b: bool) returns (s': Scan)
    requires Inv(f, s) && |s.stack| == 1 && s.stack[0].state < |f.states|
             && s.stack[0].pos >= |f.states[s.stack[0].state].trs|
    requires WellFormed(f) && SettledTo(f, s, scc, co, k, b)
    ensures Inv(f, s') && Finished(f, s, s') && s'.scc == scc && s'.coaccess == co && s'.lowlink == s.lowlink
  {
    assert FrameOk(f, s, 0);
    SettleInv(f, s, scc, co, k, b);
    s' := Retire(s, scc, co);
  }

  /** The parent may hear of the finishing state first. */
  lemma LowerStep<W>(f: Fst<W>, s: Scan, scc: seq<nat>, co: seq<bool>, k: nat, b: bool, p: nat) returns (s1: Scan)
    requires Inv(f, s) && |s.stack| >= 2 && Top(s) < |f.states| && s.stack[|s.stack|-1].pos >= |f.states[Top(s)].trs|
    requires p == s.stack[|s.stack|-2].state && WellFormed(f) && SettledTo(f, s, scc, co, k, b)
    ensures p < |f.states| && p != Top(s) && Inv(f, s1) && CanRetire(f, s1) && SettledTo(f, s1, scc, co, k, b)
    ensures s1.color == s.color && s1.stack == s.stack && s1.dfnumber == s.dfnumber && s1.nstates == s.nstates
    ensures s1.lowlink == if s.lowlink[Top(s)] < s.lowlink[p] then s.lowlink[p := s.lowlink[Top(s)]] else s.lowlink
    ensures s1.lowlink[p] <= s1.lowlink[Top(s)] <= s.dfnumber[Top(s)]
  {
    hide Numbers, Frames, SccStack, Settled, Owners, Segments, LowBounds, Earlier, Verdicts, WellFormed;
    LowerInv(f, s);
    s1 := Lower(s);
    assert NoteFinal(f, s1) == NoteFinal(f, s);
    hide Inv;
  }

  /** Once the state is retired, the tree arc that led to it leads to a black state. */
  lemma RetiredArc<W>(f: Fst<W>, s: Scan, scc: seq<nat>, co: seq<bool>, p: nat) returns (s2: Scan)
    requires Sized(f, s) && Frames(f, s) && |s.stack| >= 2 && Top(s) < |f.states| && |co| == |f.states|
             && p == s.stack[|s.stack|-2].state
    ensures s2 == Retire(s, scc, co) && Sized(f, s2) && CanExamine(f, s2)
    ensures s2.stack == s.stack[..|s.stack|-1] && Top(s2) == p && Target(f, p, s2.stack[|s2.stack|-1].pos) == Top(s)
    ensures s2.color == s.color[Top(s) := Black] && s2.dfnumber == s.dfnumber && s2.nstates == s.nstates
    ensures s2.lowlink == s.lowlink && s2.scc == scc && s2.coaccess == co
  {
    var m := |s.stack| - 1;
    assert FrameOk(f, s, m) && FrameOk(f, s, m - 1) && Link(f, s, m - 1);
    s2 := Retire(s, scc, co);
  }

  /** Any other state: lower the parent, retire, and let the parent examine the tree arc. */
  lemma FinishInner<W>(f: Fst<W>, s: Scan, scc: seq<nat>, co: seq<bool>, k: nat, b: bool, p: nat) returns (s': Scan)
    requires Inv(f, s) && |s.stack| >= 2 && Top(s) < |f.states| && s.stack[|s.stack|-1].pos >= |f.states[Top(s)].trs|
    requires p == s.stack[|s.stack|-2].state && WellFormed(f) && SettledTo(f, s, scc, co, k, b)
    ensures p < |f.states| && p != Top(s) && Inv(f, s') && Finished(f, s, s') && s'.scc == scc
    ensures s'.coaccess == co[p := co[p] || co[Top(s)]]
    ensures s'.lowlink == if s.lowlink[Top(s)] < s.lowlink[p] then s.lowlink[p := s.lowlink[Top(s)]] else s.lowlink
  {
    hide Numbers, Frames, SccStack, Settled, Owners, Segments, LowBounds, Earlier, Verdicts, WellFormed, Retire,
         Examine, Verdict;
    var v := Top(s);
    var s1 := LowerStep(f, s, scc, co, k, b, p);
    SettleInv(f, s1, scc, co, k, b);
    var s2 := RetiredArc(f, s1, scc, co, p);
    s' := ExamineStep(f, s2, p, s2.stack[|s2.stack|-1].pos, v);
  }

  method SettleTop<W>(f: Fst<W>, visitor: ConnectVisitor<W>, ghost s: Scan, v: nat)
    returns (ghost k: nat, ghost b: bool)
    requires visitor.f == f && visitor.Valid() && Inv(f, s) && Sized(f, s) && s.stack != [] && v == Top(s)
             && v < |f.states|
    requires s.dfnumber == visitor.dfnumber && s.lowlink == visitor.lowlink && s.scc == visitor.sccStack
             && s.coaccess == visitor.coaccess
    modifies visitor`sccStack, visitor`coaccess, visitor`onstack
    ensures visitor.Valid() && SettledTo(f, s, visitor.sccStack, visitor.coaccess, k, b)
  {
    hide Inv, SettledTo;
    FinishReady(f, s);
    k, b := visitor.SettleState(v);
    SettledFits(f, s, v, visitor.sccStack, visitor.coaccess, k, b);
  }

  lemma SettledFits<W>(f: Fst<W>, s: Scan, v: nat, scc: seq<nat>, co: seq<bool>, k: nat, b: bool)
    requires Sized(f, s) && s.stack != [] && v == Top(s) && v < |f.states| && |co| == |f.states|
    requires var noted := s.coaccess[v := s.coaccess[v] || IsFinal(f, v)];
             if s.dfnumber[v] == s.lowlink[v] then
               && k < |s.scc| && s.scc[k] == v && scc == s.scc[..k]
               && (b <==> exists u :: u in s.scc[k..] && u < |f.states| && noted[u])
               && (forall x :: 0 <= x < |f.states| ==> co[x] == if x in s.scc[k..] then b else s.coaccess[x])
             else scc == s.scc && co == noted
    ensures SettledTo(f, s, scc, co, k, b)
  {
    assert NoteFinal(f, s) == s.coaccess[v := s.coaccess[v] || IsFinal(f, v)];
  }

  /** The top state is finished: coloured black, settled by the visitor, popped. */
  method Finish<W>(f: Fst<W>, visitor: ConnectVisitor<W>, color: seq<Color>, stack: seq<Frame>, ghost s: Scan)
    returns (color': seq<Color>, stack': seq<Frame>, ghost s': Scan)
    requires WellFormed(f) && visitor.f == f && Matches(visitor, color, stack, s) && Inv(f, s) && Sized(f, s)
    requires stack != [] && var top := stack[|stack|-1]; top.state < |f.states| && top.pos >= |f.states[top.state].trs|
    modifies visitor
    ensures Matches(visitor, color', stack', s') && Inv(f, s') && visitor.access == old(visitor.access)
    ensures stack[|stack|-1].state < |color| && color' == color[stack[|stack|-1].state := Black]
            && StackWork(f, stack') < StackWork(f, stack)
  {
    hide Inv, WellFormed, SettledTo, StackWork;
    FrameFacts(f, visitor, color, stack, s);
    var m := |stack| - 1;
    var v := stack[m].state;
    color' := color[v := Black];
    stack' := stack[..m];
    ghost var k, b := SettleTop(f, visitor, s, v);
    ghost var scc, co := visitor.sccStack, visitor.coaccess;
    if m > 0 {
      var p := stack[m-1].state;
      s' := FinishInner(f, s, scc, co, k, b, p);
      visitor.TellParent(v, p);
      stack' := stack'[m-1 := stack'[m-1].(pos := stack'[m-1].pos + 1)];
    } else {
      s' := FinishRoot(f, s, scc, co, k, b);
    }
    WorkFinish(f, stack, stack');
  }

  lemma FinishReady<W>(f: Fst<W>, s: Scan)
    requires Inv(f, s) && s.stack != []
    ensures Top(s) in s.scc && forall i, j :: 0 <= i < j < |s.scc| ==> s.scc[i] != s.scc[j]
  {
    assert FrameOk(f, s, |s.stack| - 1);
  }

  lemma BlackenKeeps<W>(f: Fst<W>, access: seq<bool>, color: seq<Color>, v: nat, first: bool)
    requires v < |color| && color[v] == Grey && AccessOk(f, access, color, first)
    ensures AccessOk(f, access, color[v := Black], first) && WhiteStates(color[v := Black]) == WhiteStates(color)
  {
    hide Accessible;
  }

  /** One turn of the inner loop: finish the top state, open a white one, or examine an arc. */
  method VisitStep<W>(f: Fst<W>, visitor: ConnectVisitor<W>, color0: seq<Color>, stack0: seq<Frame>, root: nat,
                      ghost s0: Scan)
    returns (color: seq<Color>, stack: seq<Frame>, ghost s: Scan)
    requires WellFormed(f) && visitor.f == f && Matches(visitor, color0, stack0, s0) && Inv(f, s0) && stack0 != []
    requires AccessOk(f, visitor.access, color0, f.start == Some(root))
    modifies visitor
    ensures Matches(visitor, color, stack, s) && Inv(f, s) && |color| == |color0|
    ensures AccessOk(f, visitor.access, color, f.start == Some(root))
    ensures WhiteStates(color) < WhiteStates(color0)
            || (WhiteStates(color) == WhiteStates(color0) && StackWork(f, stack) < StackWork(f, stack0))
  {
    hide *;
    FrameFacts(f, visitor, color0, stack0, s0);
    var top := stack0[|stack0|-1];
    color, stack := color0, stack0;
    if top.pos >= |f.states[top.state].trs| {
      BlackenKeeps(f, visitor.access, color, top.state, f.start == Some(root));
      color, stack, s := Finish(f, visitor, color, stack, s0);
    } else {
      var t := f.states[top.state].trs[top.pos].nextstate;
      ArcReady(f, visitor, color, stack, s0);
      match color[t] {
        case White => color, stack, s := Open(f, visitor, color, stack, t, root, s0);
        case Grey => stack, s := ExamineArc(f, visitor, color, stack, s0);
        case Black => stack, s := ExamineArc(f, visitor, color, stack, s0);
      }
    }
  }

  /** One tree of the search, from `root` until the stack is empty. */
  method VisitTree<W>(f: Fst<W>, visitor: ConnectVisitor<W>, color0: seq<Color>, root: nat, ghost s0: Scan)
    returns (color: seq<Color>, ghost s: Scan)
    requires WellFormed(f) && visitor.f == f && Matches(visitor, color0, [], s0) && Inv(f, s0)
    requires root < |f.states| == |color0| && color0[root] == White
    requires AccessOk(f, visitor.access, color0, f.start == Some(root))
    modifies visitor
    ensures Matches(visitor, color, [], s) && Inv(f, s) && |color| == |color0|
    ensures AccessOk(f, visitor.access, color, f.start == Some(root))
    ensures WhiteStates(color) < WhiteStates(color0) && root !in WhiteStates(color)
  {
    hide *;
    RootReady(f, visitor, color0, s0, root);
    var stack: seq<Frame>;
    color, stack, s := Open(f, visitor, color0, [], root, root, s0);
    while stack != []
      invariant Matches(visitor, color, stack, s) && Inv(f, s) && |color| == |color0|
      invariant AccessOk(f, visitor.access, color, f.start == Some(root))
      invariant WhiteStates(color) < WhiteStates(color0) && root !in WhiteStates(color)
      decreases WhiteStates(color), StackWork(f, stack)
    {
      color, stack, s := VisitStep(f, visitor, color, stack, root, s);
    }
  }

  lemma RootReady<W>(f: Fst<W>, visitor: ConnectVisitor<W>, color: seq<Color>, s: Scan, root: nat)
    requires Matches(visitor, color, [], s) && Inv(f, s) && root < |f.states| == |color| && color[root] == White
    ensures Sized(f, s) && CanDiscover(f, s, root)
  {
  }

  /** The top frame is a grey state. */
  lemma FrameFacts<W>(f: Fst<W>, visitor: ConnectVisitor<W>, color: seq<Color>, stack: seq<Frame>, s: Scan)
    requires Matches(visitor, color, stack, s) && Inv(f, s) && stack != []
    ensures Sized(f, s) && s.stack == stack && s.color == color && |color| == |f.states|
    ensures var top := stack[|stack|-1]; top.state < |f.states| && color[top.state] == Grey
    ensures |stack| >= 2 ==> var b := stack[|stack|-2]; b.state < |f.states| && b.pos < |f.states[b.state].trs|
  {
    var m := |s.stack| - 1;
    assert FrameOk(f, s, m);
    if m > 0 {
      assert FrameOk(f, s, m - 1) && Link(f, s, m - 1);
    }
  }

  lemma ArcReady<W>(f: Fst<W>, visitor: ConnectVisitor<W>, color: seq<Color>, stack: seq<Frame>, s: Scan)
    requires Matches(visitor, color, stack, s) && Inv(f, s) && Sized(f, s) && WellFormed(f) && stack != []
    requires var top := stack[|stack|-1]; top.state < |f.states| && top.pos < |f.states[top.state].trs|
    ensures var top := stack[|stack|-1]; var t := f.states[top.state].trs[top.pos].nextstate;
            t < |f.states| == |color| && if color[t] == White then CanDiscover(f, s, t) else CanExamine(f, s)
  {
  }

  /** The snapshot before the search. */
  function Unvisited<W>(f: Fst<W>): Scan {
    var n := |f.states|;
    Scan(seq(n, _ => White), [], seq(n, _ => -1), seq(n, _ => -1), [], seq(n, _ => false), 0,
         seq(n, _ => 0), seq(n, _ => 0), seq(n, _ => 0))
  }

  lemma UnvisitedSizes<W>(f: Fst<W>, visitor: ConnectVisitor<W>)
    requires Matches(visitor, Unvisited(f).color, [], Unvisited(f)) && |visitor.access| == |f.states|
    ensures |visitor.coaccess| == |f.states|
  {
  }

  lemma UnvisitedReady<W>(f: Fst<W>, visitor: ConnectVisitor<W>, start: nat)
    requires WellFormed(f) && f.start == Some(start) && visitor.access == seq(|f.states|, _ => false)
    ensures Inv(f, Unvisited(f)) && start < |f.states| && AccessOk(f, visitor.access, Unvisited(f).color, true)
    ensures Unvisited(f).color == seq(|f.states|, _ => White)
  {
  }

  /** With no frame left nothing is pending, and the visited states are closed under arcs. */
  lemma TreeDone<W>(f: Fst<W>, s: Scan)
    requires Inv(f, s) && s.stack == [] && WellFormed(f)
    ensures Sized(f, s) && forall v :: 0 <= v < |f.states| && s.color[v] != White ==>
              && (s.coaccess[v] <==> CoReach(f, v))
              && forall i :: 0 <= i < |f.states[v].trs| ==> s.color[f.states[v].trs[i].nextstate] != White
  {
    forall v | 0 <= v < |f.states| && s.color[v] != White
      ensures s.coaccess[v] <==> CoReach(f, v)
      ensures forall i :: 0 <= i < |f.states[v].trs| ==> s.color[f.states[v].trs[i].nextstate] != White
    {
      assert !Pending(f, s, v);
      assert Popped(f, s, v) && s.color[v] == Black;
      forall i | 0 <= i < |f.states[v].trs| ensures s.color[f.states[v].trs[i].nextstate] != White {
        assert Examined(f, s, v, i) && Target(f, v, i) == f.states[v].trs[i].nextstate;
      }
    }
  }

  /** After the first tree every accessible state has been marked. */
  lemma FirstTree<W>(f: Fst<W>, access: seq<bool>, s: Scan, start: nat)
    requires Inv(f, s) && s.stack == [] && WellFormed(f) && f.start == Some(start)
    requires AccessOk(f, access, s.color, true) && s.color[start] != White
    ensures AccessOk(f, access, s.color, false)
  {
    hide Inv;
    TreeDone(f, s);
    var inside := set v: nat | v < |f.states| && s.color[v] != White;
    forall v | 0 <= v < |f.states| && Accessible(f, v) ensures access[v] {
      var p :| IsPath(f, start, p, v);
      ClosedPath(f, inside, start, p, v);
    }
  }

  lemma TreeKept<W>(f: Fst<W>, visitor: ConnectVisitor<W>, color0: seq<Color>, color: seq<Color>, root: nat, s: Scan)
    requires WellFormed(f) && f.start.Some? && root < |f.states| == |color0| == |color|
    requires Matches(visitor, color, [], s) && Inv(f, s) && AccessOk(f, visitor.access, color, f.start == Some(root))
    requires WhiteStates(color) < WhiteStates(color0) && root !in WhiteStates(color)
    ensures AccessOk(f, visitor.access, color, false)
    ensures forall v :: 0 <= v < |f.states| && (color0[v] != White || v == root) ==> color[v] != White
  {
    hide Inv;
    forall v | 0 <= v < |f.states| && (color0[v] != White || v == root) ensures color[v] != White {
      assert v !in WhiteStates(color0) || v == root;
      assert v !in WhiteStates(color);
    }
    if f.start == Some(root) {
      FirstTree(f, visitor.access, s, root);
    }
  }

  lemma EveryStateVisited<W>(f: Fst<W>, visitor: ConnectVisitor<W>, color: seq<Color>, s: Scan)
    requires Matches(visitor, color, [], s) && Inv(f, s) && WellFormed(f) && AccessOk(f, visitor.access, color, false)
    requires |color| == |f.states| && forall v :: 0 <= v < |f.states| ==> color[v] != White
    ensures |visitor.access| == |visitor.coaccess| == |f.states|
    ensures forall v :: 0 <= v < |f.states| ==>
        (visitor.access[v] <==> Accessible(f, v)) && (visitor.coaccess[v] <==> CoReach(f, v))
  {
    hide Accessible, CoReach, Inv;
    TreeDone(f, s);
  }

  /** The next white state, counting up from 0 once the start state is done. */
  method NextRoot(color: seq<Color>, start: nat, root: nat) returns (next: nat)
    requires root < |color| && color[root] != White
    requires root != start ==> forall v :: 0 <= v < root ==> color[v] != White
    ensures next <= |color| && (next < |color| ==> color[next] == White)
    ensures forall v :: 0 <= v < next ==> color[v] != White
  {
    next := if root == start then 0 else root + 1;
    while next < |color| && color[next] != White
      invariant next <= |color| && forall v :: 0 <= v < next ==> color[v] != White
    {
      next := next + 1;
    }
  }

  /** The whole search: a tree from the start state, then one from each state still white. */
  method DfsVisit<W>(f: Fst<W>, visitor: ConnectVisitor<W>)
    requires WellFormed(f) && visitor.f == f && Matches(visitor, Unvisited(f).color, [], Unvisited(f))
    requires visitor.access == seq(|f.states|, _ => false)
    modifies visitor
    ensures |visitor.access| == |visitor.coaccess| == |f.states|
    ensures f.start.None? ==> visitor.access == old(visitor.access) && visitor.coaccess == old(visitor.coaccess)
    ensures f.start.Some? ==> forall v :: 0 <= v < |f.states| ==>
              (visitor.access[v] <==> Accessible(f, v)) && (visitor.coaccess[v] <==> CoReach(f, v))
  {
    hide *;
    if f.start.None? {
      UnvisitedSizes(f, visitor);
      return;
    }
    var start: nat, n := f.start.value, |f.states|;
    var color := seq(n, _ => White);
    ghost var s := Unvisited(f);
    UnvisitedReady(f, visitor, start);
    var root: nat := start;
    while root < n
      invariant root <= n && Matches(visitor, color, [], s) && Inv(f, s) && |color| == n
      invariant root < n ==> color[root] == White
      invariant AccessOk(f, visitor.access, color, root == start)
      invariant root != start ==> color[start] != White && forall v :: 0 <= v < root ==> color[v] != White
      decreases WhiteStates(color)
    {
      ghost var color0 := color;
      color, s := VisitTree(f, visitor, color, root, s);
      TreeKept(f, visitor, color0, color, root, s);
      root := NextRoot(color, start, root);
    }
    EveryStateVisited(f, visitor, color, s);
  }
}
