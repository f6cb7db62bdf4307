/** `top_sort`: depth-first finishing order as a permutation, or a cycle. */
module TopSorts {
  import opened Connects
  import opened Depths
  import opened Fsts
  import opened Properties
  import opened PropertyBits
  import opened Renamings
  import opened StateSorts
  import opened Tarjan
  import opened VectorFsts
  import opened Weights

  class TopOrderVisitor {
    var order: seq<nat>
    var acyclic: bool
    var finish: seq<nat>

    constructor ()
      ensures order == [] && acyclic && finish == []
    {
      order, acyclic, finish := [], true, [];
    }

    /** A back arc ends the search. */
    method BackTr() returns (dfs: bool)
      modifies this`acyclic
      ensures !acyclic && !dfs
    {
      acyclic, dfs := false, false;
    }

    method FinishState(s: nat)
      modifies this`finish
      ensures finish == old(finish) + [s]
    {
      finish := finish + [s];
    }

    /** The last state finished comes first. */
    method FinishVisit()
      requires acyclic ==> forall k :: 0 <= k < |finish| ==> finish[k] < |finish|
      requires acyclic ==> forall k, l :: 0 <= k < l < |finish| ==> finish[k] != finish[l]
      modifies this`order
      ensures if acyclic then |order| == |finish| &&
           forall k :: 0 <= k < |finish| ==> order[finish[k]] == |finish| - 1 - k
              else order == old(order)
    {
      if acyclic {
        order := seq(|finish|, _ => 0);
        for s := 0 to |finish|
          invariant |order| == |finish|
          invariant forall k :: |finish| - s <= k < |finish| ==> order[finish[k]] == |finish| - 1 - k
        {
          order := order[finish[|finish| - s - 1] := s];
        }
      }
    }
  }

  // ------------------------------------------------ the invariant

  /** Frames are in range, and all but the last are at an arc. */
  predicate FramesBelow<W>(f: Fst<W>, stack: seq<Frame>) {
    forall i :: 0 <= i < |stack| ==>
      && stack[i].state < |f.states| && stack[i].pos <= |f.states[stack[i].state].trs|
      && (i + 1 < |stack| ==> stack[i].pos < |f.states[stack[i].state].trs|)
  }

  /** Finished states have all their targets finished before them. */
  ghost predicate FinishOrder<W>(f: Fst<W>, finish: seq<nat>) {
    && (forall k :: 0 <= k < |finish| ==> finish[k] < |f.states|)
    && (forall k, l :: 0 <= k < l < |finish| ==> finish[k] != finish[l])
    && forall k, i :: 0 <= k < |finish| && finish[k] < |f.states| && 0 <= i < |f.states[finish[k]].trs|
                      ==> f.states[finish[k]].trs[i].nextstate in finish[..k]
  }

  /** The grey states are the frames, the black ones the finished. */
  ghost predicate Colored<W>(f: Fst<W>, color: seq<Color>, stack: seq<Frame>, finish: seq<nat>) {
    && |color| == |f.states| && FramesBelow(f, stack)
    && (forall i :: 0 <= i < |stack| ==> color[stack[i].state] == Grey)
    && (forall i, j :: 0 <= i < j < |stack| ==> stack[i].state != stack[j].state)
    && (forall v :: 0 <= v < |color| && color[v] == Grey ==> exists i :: 0 <= i < |stack| && stack[i].state == v)
    && forall v :: 0 <= v < |color| ==> (color[v] == Black <==> v in finish)
  }

  /** Each frame was opened by the current arc of the one below; arcs already passed end in finished states. */
  ghost predicate Nested<W>(f: Fst<W>, stack: seq<Frame>, finish: seq<nat>)
    requires FramesBelow(f, stack)
  {
    forall i :: 0 <= i < |stack| ==> NestedAt(f, stack, finish, i)
  }

  ghost predicate NestedAt<W>(f: Fst<W>, stack: seq<Frame>, finish: seq<nat>, i: nat)
    requires FramesBelow(f, stack) && i < |stack|
  {
    var trs, pos := f.states[stack[i].state].trs, stack[i].pos;
    && (i + 1 < |stack| ==> pos < |trs| && trs[pos].nextstate == stack[i+1].state)
    && forall j :: 0 <= j < pos ==> trs[j].nextstate in finish
  }

  ghost predicate TopInv<W>(f: Fst<W>, color: seq<Color>, stack: seq<Frame>, finish: seq<nat>) {
    Colored(f, color, stack, finish) && Nested(f, stack, finish) && FinishOrder(f, finish)
  }

  lemma OpenTop<W>(f: Fst<W>, color: seq<Color>, stack: seq<Frame>, finish: seq<nat>, t: nat)
    requires TopInv(f, color, stack, finish) && t < |color| && color[t] == White
    requires stack != [] ==> var top := stack[|stack|-1];
         var trs := f.states[top.state].trs; top.pos < |trs| && trs[top.pos].nextstate == t
    ensures TopInv(f, color[t := Grey], stack + [Frame(t, 0)], finish)
  {
    var color', stack' := color[t := Grey], stack + [Frame(t, 0)];
    forall v | 0 <= v < |color'| && color'[v] == Grey ensures exists i :: 0 <= i < |stack'| && stack'[i].state == v {
      if v == t {
        assert stack'[|stack|].state == v;
      } else {
        var i :| 0 <= i < |stack| && stack[i].state == v;
        assert stack'[i].state == v;
      }
    }
    forall i | 0 <= i < |stack'| ensures NestedAt(f, stack', finish, i) {
      if i < |stack| {
        assert NestedAt(f, stack, finish, i);
      }
    }
  }

  lemma AdvanceTop<W>(f: Fst<W>, color: seq<Color>, stack: seq<Frame>, finish: seq<nat>)
    requires TopInv(f, color, stack, finish) && stack != []
    requires var top := stack[|stack|-1]; var trs := f.states[top.state].trs;
             top.pos < |trs| && trs[top.pos].nextstate < |color| && color[trs[top.pos].nextstate] == Black
    ensures var m := |stack| - 1; TopInv(f, color, stack[m := stack[m].(pos := stack[m].pos + 1)], finish)
  {
    hide FinishOrder;
    var m := |stack| - 1;
    var stack' := stack[m := stack[m].(pos := stack[m].pos + 1)];
    SameStates(f, color, stack, stack', finish);
    forall i | 0 <= i < |stack'| ensures NestedAt(f, stack', finish, i) {
      assert NestedAt(f, stack, finish, i);
    }
  }

  lemma SameStates<W>(f: Fst<W>, color: seq<Color>, stack: seq<Frame>, stack': seq<Frame>, finish: seq<nat>)
    requires Colored(f, color, stack, finish) && |stack'| == |stack| && FramesBelow(f, stack')
    requires forall i :: 0 <= i < |stack| ==> stack'[i].state == stack[i].state
    ensures Colored(f, color, stack', finish)
  {
    forall v | 0 <= v < |color| && color[v] == Grey ensures exists i :: 0 <= i < |stack'| && stack'[i].state == v {
      var i :| 0 <= i < |stack| && stack[i].state == v;
      assert stack'[i].state == v;
    }
  }

  /** A state whose arcs are all passed is finished after all its targets. */
  lemma FinishTop<W>(f: Fst<W>, color: seq<Color>, stack: seq<Frame>, finish: seq<nat>)
    requires TopInv(f, color, stack, finish) && stack != []
    requires var top := stack[|stack|-1]; top.pos >= |f.states[top.state].trs|
    ensures var v := stack[|stack|-1].state;
        v < |color| && TopInv(f, color[v := Black], stack[..|stack|-1], finish + [v])
  {
    var m := |stack| - 1;
    var v := stack[m].state;
    var color', stack', finish' := color[v := Black], stack[..m], finish + [v];
    assert NestedAt(f, stack, finish, m);
    forall x | 0 <= x < |color'| && color'[x] == Grey ensures exists i :: 0 <= i < |stack'| && stack'[i].state == x {
      var i :| 0 <= i < |stack| && stack[i].state == x;
      assert i < m && stack'[i].state == x;
    }
    forall i | 0 <= i < |stack'| ensures NestedAt(f, stack', finish', i) {
      assert NestedAt(f, stack, finish, i);
    }
    assert finish'[..|finish|] == finish;
    forall k, i | 0 <= k < |finish'| && 0 <= i < |f.states[finish'[k]].trs|
      ensures f.states[finish'[k]].trs[i].nextstate in finish'[..k] {
      if k < |finish| {
        assert finish'[..k] == finish[..k];
      }
    }
  }

  /** The frame below moves past the arc that opened the finished state. */
  lemma PassFinished<W>(f: Fst<W>, color: seq<Color>, stack: seq<Frame>, finish: seq<nat>, v: nat)
    requires TopInv(f, color, stack, finish) && |stack| > 1 && v == stack[|stack|-1].state
    ensures var b := stack[|stack|-2]; var trs := f.states[b.state].trs; b.pos < |trs| && trs[b.pos].nextstate == v
  {
    assert NestedAt(f, stack, finish, |stack| - 2);
  }

  lemma {:induction false} StackReach<W>(f: Fst<W>, color: seq<Color>, stack: seq<Frame>, finish: seq<nat>, i: nat)
    requires WellFormed(f) && TopInv(f, color, stack, finish) && i < |stack|
    ensures Reach(f, stack[i].state, stack[|stack|-1].state)
    decreases |stack| - i
  {
    if i == |stack| - 1 {
      ReachRefl(f, stack[i].state);
    } else {
      assert NestedAt(f, stack, finish, i);
      ReachEdge(f, stack[i].state, stack[i].pos);
      StackReach(f, color, stack, finish, i + 1);
      ReachTrans(f, stack[i].state, stack[i+1].state, stack[|stack|-1].state);
    }
  }

  /** An arc to a grey state closes a cycle. */
  lemma BackIsCycle<W>(f: Fst<W>, color: seq<Color>, stack: seq<Frame>, finish: seq<nat>)
    requires WellFormed(f) && TopInv(f, color, stack, finish) && stack != []
    requires var top := stack[|stack|-1]; var trs := f.states[top.state].trs;
             top.pos < |trs| && trs[top.pos].nextstate < |color| && color[trs[top.pos].nextstate] == Grey
    ensures !Acyclic(f)
  {
    var top := stack[|stack|-1];
    var t := f.states[top.state].trs[top.pos].nextstate;
    var i :| 0 <= i < |stack| && stack[i].state == t;
    StackReach(f, color, stack, finish, i);
    var p := ReachPath(f, t, top.state);
    var e := Edge(top.state, top.pos);
    assert ([e] + p)[1..] == p;
    assert IsPath(f, top.state, [e] + p, top.state);
  }

  // ------------------------------------------------ the search

  /** While `dfs` holds the invariant does; once it does not there is a cycle. */
  ghost predicate TopState<W>(f: Fst<W>, color: seq<Color>, stack: seq<Frame>, finish: seq<nat>, acyclic: bool,
                              dfs: bool) {
    && |color| == |f.states| && FramesBelow(f, stack) && acyclic == dfs
    && if dfs then TopInv(f, color, stack, finish) else !Acyclic(f)
  }

  lemma StartTop<W>(f: Fst<W>)
    ensures TopInv(f, seq(|f.states|, _ => White), [], [])
  {
  }

  /** The states of the arc the top frame is at. */
  lemma TopArc<W>(f: Fst<W>, color: seq<Color>, stack: seq<Frame>, finish: seq<nat>, acyclic: bool, dfs: bool)
    requires WellFormed(f) && TopState(f, color, stack, finish, acyclic, dfs) && stack != []
    ensures var top := stack[|stack|-1];
            top.state < |f.states| == |color| && (top.pos < |f.states[top.state].trs|
                                                  ==> f.states[top.state].trs[top.pos].nextstate < |color|)
  {
  }

  lemma FinishFrames<W>(f: Fst<W>, stack: seq<Frame>)
    requires FramesBelow(f, stack) && stack != []
    ensures FramesBelow(f, stack[..|stack|-1])
    ensures var m := |stack| - 1;
            m > 0 ==> FramesBelow(f, stack[..m][m-1 := stack[m-1].(pos := stack[m-1].pos + 1)])
  {
  }

  /** The top state finishes, whether or not the search goes on. */
  lemma FinishStep<W>(f: Fst<W>, color: seq<Color>, stack: seq<Frame>, finish: seq<nat>, acyclic: bool, dfs: bool)
    requires TopState(f, color, stack, finish, acyclic, dfs) && stack != []
    requires var top := stack[|stack|-1]; top.state < |f.states| && (dfs ==> top.pos >= |f.states[top.state].trs|)
    ensures var m := |stack| - 1; var v := stack[m].state; v < |color|
    ensures var m := |stack| - 1; var v := stack[m].state;
            m == 0 ==> TopState(f, color[v := Black], [], finish + [v], acyclic, dfs)
    ensures var m := |stack| - 1; var v := stack[m].state;
            m > 0 ==> TopState(f, color[v := Black], stack[..m][m-1 := stack[m-1].(pos := stack[m-1].pos + 1)],
                               finish + [v], acyclic, dfs)
  {
    hide TopInv, FramesBelow, Acyclic;
    FinishFrames(f, stack);
    if dfs {
      FinishTop(f, color, stack, finish);
      var m := |stack| - 1;
      var v := stack[m].state;
      if m > 0 {
        PassFinished(f, color, stack, finish, v);
        AdvanceTop(f, color[v := Black], stack[..m], finish + [v]);
      } else {
        assert stack[..m] == [];
      }
    }
  }

  lemma BlackenWhite(color: seq<Color>, v: nat)
    requires v < |color|
    ensures WhiteStates(color[v := Black]) <= WhiteStates(color)
  {
  }

  lemma GreyWhite(color: seq<Color>, v: nat)
    requires v < |color| && color[v] == White
    ensures WhiteStates(color[v := Grey]) < WhiteStates(color) && v !in WhiteStates(color[v := Grey])
  {
    assert v in WhiteStates(color);
  }

  /** The top frame moves on to its next arc, or a new frame is opened. */
  lemma ArcExamined<W>(f: Fst<W>, color: seq<Color>, stack: seq<Frame>, finish: seq<nat>)
    requires WellFormed(f) && TopState(f, color, stack, finish, true, true) && stack != []
    requires var top := stack[|stack|-1]; top.state < |f.states| && top.pos < |f.states[top.state].trs|
    ensures var top := stack[|stack|-1]; var t := f.states[top.state].trs[top.pos].nextstate; t < |color|
    ensures var m := |stack| - 1; var t := f.states[stack[m].state].trs[stack[m].pos].nextstate;
            match color[t]
            case White => TopState(f, color[t := Grey], stack + [Frame(t, 0)], finish, true, true)
            case Grey => TopState(f, color, stack[m := stack[m].(pos := stack[m].pos + 1)], finish, false, false)
            case Black => TopState(f, color, stack[m := stack[m].(pos := stack[m].pos + 1)], finish, true, true)
  {
    var m := |stack| - 1;
    var t := f.states[stack[m].state].trs[stack[m].pos].nextstate;
    match color[t] {
      case White => OpenTop(f, color, stack, finish, t);
      case Grey => BackIsCycle(f, color, stack, finish);
      case Black => AdvanceTop(f, color, stack, finish);
    }
    hide Nested, FinishOrder, Colored;
  }

  /** One turn of the inner loop. */
  method TopStep<W>(f: Fst<W>, visitor: TopOrderVisitor, color0: seq<Color>, stack0: seq<Frame>, dfs0: bool)
    returns (color: seq<Color>, stack: seq<Frame>, dfs: bool)
    requires WellFormed(f) && TopState(f, color0, stack0, visitor.finish, visitor.acyclic, dfs0) && stack0 != []
    modifies visitor`finish, visitor`acyclic
    ensures TopState(f, color, stack, visitor.finish, visitor.acyclic, dfs) && |color| == |color0|
    ensures WhiteStates(color) <= WhiteStates(color0)
    ensures WhiteStates(color) == WhiteStates(color0) ==> StackWork(f, stack) < StackWork(f, stack0)
  {
    hide TopState, WhiteStates, StackWork;
    color, stack, dfs := color0, stack0, dfs0;
    TopArc(f, color, stack, visitor.finish, visitor.acyclic, dfs);
    Agree(f, color, stack, visitor.finish, visitor.acyclic, dfs);
    var m := |stack| - 1;
    var s, pos := stack[m].state, stack[m].pos;
    if !dfs || pos >= |f.states[s].trs| {
      FinishStep(f, color, stack, visitor.finish, visitor.acyclic, dfs);
      BlackenWhite(color, s);
      color := color[s := Black];
      stack := stack[..m];
      visitor.FinishState(s);
      if m > 0 {
        stack := stack[m-1 := stack[m-1].(pos := stack[m-1].pos + 1)];
      }
      WorkFinish(f, stack0, stack);
    } else {
      var t := f.states[s].trs[pos].nextstate;
      ArcExamined(f, color, stack, visitor.finish);
      WorkAdvance(f, stack);
      match color[t] {
        case White =>
          GreyWhite(color, t);
          color := color[t := Grey];
          stack := stack + [Frame(t, 0)];
        case Grey =>
          dfs := visitor.BackTr();
          stack := stack[m := stack[m].(pos := pos + 1)];
        case Black =>
          stack := stack[m := stack[m].(pos := pos + 1)];
      }
    }
  }

  lemma Agree<W>(f: Fst<W>, color: seq<Color>, stack: seq<Frame>, finish: seq<nat>, acyclic: bool, dfs: bool)
    requires TopState(f, color, stack, finish, acyclic, dfs)
    ensures acyclic == dfs && |color| == |f.states|
    ensures |stack| > 1 ==> var b := stack[|stack|-2]; b.state < |f.states| && b.pos < |f.states[b.state].trs|
  {
  }

  /** One tree, to the end or to the first back arc, and then unwound. */
  method TopTree<W>(f: Fst<W>, visitor: TopOrderVisitor, color0: seq<Color>, root: nat)
    returns (color: seq<Color>, dfs: bool)
    requires WellFormed(f) && TopState(f, color0, [], visitor.finish, visitor.acyclic, true)
    requires root < |color0| && color0[root] == White
    modifies visitor`finish, visitor`acyclic
    ensures TopState(f, color, [], visitor.finish, visitor.acyclic, dfs) && |color| == |color0|
    ensures WhiteStates(color) < WhiteStates(color0) && root !in WhiteStates(color)
  {
    hide TopState, TopInv, WhiteStates, StackWork;
    StartTree(f, color0, visitor.finish, visitor.acyclic, root);
    GreyWhite(color0, root);
    color := color0[root := Grey];
    var stack := [Frame(root, 0)];
    dfs := true;
    while stack != []
      invariant TopState(f, color, stack, visitor.finish, visitor.acyclic, dfs) && |color| == |color0|
      invariant WhiteStates(color) < WhiteStates(color0) && root !in WhiteStates(color)
      decreases WhiteStates(color), StackWork(f, stack)
    {
      color, stack, dfs := TopStep(f, visitor, color, stack, dfs);
    }
  }

  lemma StartTree<W>(f: Fst<W>, color: seq<Color>, finish: seq<nat>, acyclic: bool, root: nat)
    requires TopState(f, color, [], finish, acyclic, true) && root < |color| && color[root] == White
    ensures TopState(f, color[root := Grey], [Frame(root, 0)], finish, acyclic, true)
  {
    OpenTop(f, color, [], finish, root);
    assert [] + [Frame(root, 0)] == [Frame(root, 0)];
  }

  lemma StillVisited(color0: seq<Color>, color: seq<Color>, root: nat)
    requires |color| == |color0| && root < |color| && WhiteStates(color) < WhiteStates(color0)
             && root !in WhiteStates(color)
    ensures forall v :: 0 <= v < |color| && (color0[v] != White || v == root) ==> color[v] != White
  {
    forall v | 0 <= v < |color| && (color0[v] != White || v == root) ensures color[v] != White {
      assert v !in WhiteStates(color0) || v == root;
      assert v !in WhiteStates(color);
    }
  }

  // ------------------------------------------------ the order

  /** Every arc leads to a larger number. */
  ghost predicate Ascending<W>(f: Fst<W>, order: seq<nat>) {
    && IsPermutation(order, |f.states|)
    && forall s, i :: 0 <= s < |f.states| && 0 <= i < |f.states[s].trs|
                      ==> f.states[s].trs[i].nextstate < |order| && order[s] < order[f.states[s].trs[i].nextstate]
  }

  lemma AllFinished<W>(f: Fst<W>, color: seq<Color>, finish: seq<nat>)
    requires TopInv(f, color, [], finish) && forall v :: 0 <= v < |color| ==> color[v] != White
    ensures |finish| == |f.states| && forall v :: 0 <= v < |f.states| ==> v in finish
  {
    forall v | 0 <= v < |f.states| ensures v in finish {
      assert color[v] != Grey;
    }
    var image := ImageSize(finish, |finish|);
    assert finish[..|finish|] == finish;
    var range := RangeSize(|f.states|);
    SubsetSize(image, range);
    SubsetSize(range, image);
  }

  lemma OrderAscends<W>(f: Fst<W>, finish: seq<nat>, order: seq<nat>)
    requires FinishOrder(f, finish) && |finish| == |f.states| == |order| &&
         forall v :: 0 <= v < |f.states| ==> v in finish
    requires forall k :: 0 <= k < |finish| ==> order[finish[k]] == |finish| - 1 - k
    ensures Ascending(f, order)
  {
    hide FinishOrder;
    forall s: nat | s < |f.states| ensures order[s] < |f.states| {
      var k := FinishedAt(f, finish, s);
    }
    forall s: nat, t: nat | s < t < |f.states| ensures order[s] != order[t] {
      var k := FinishedAt(f, finish, s);
      var l := FinishedAt(f, finish, t);
    }
    forall s: nat, i: nat | s < |f.states| && i < |f.states[s].trs|
      ensures f.states[s].trs[i].nextstate < |order| && order[s] < order[f.states[s].trs[i].nextstate]
    {
      var k, l := FinishedBefore(f, finish, s, i);
    }
  }

  lemma FinishedAt<W>(f: Fst<W>, finish: seq<nat>, s: nat) returns (k: nat)
    requires s in finish
    ensures k < |finish| && finish[k] == s
  {
    k :| 0 <= k < |finish| && finish[k] == s;
  }

  /** The target of an arc finishes before its source. */
  lemma FinishedBefore<W>(f: Fst<W>, finish: seq<nat>, s: nat, i: nat) returns (k: nat, l: nat)
    requires FinishOrder(f, finish) && s < |f.states| && s in finish && i < |f.states[s].trs|
    ensures l < k < |finish| && finish[k] == s && finish[l] == f.states[s].trs[i].nextstate < |f.states|
  {
    k := FinishedAt(f, finish, s);
    assert f.states[finish[k]].trs[i].nextstate in finish[..k];
    l :| 0 <= l < |finish[..k]| && finish[..k][l] == f.states[s].trs[i].nextstate;
    assert finish[l] == finish[..k][l];
  }

  lemma {:induction false} AscendingPath<W>(f: Fst<W>, order: seq<nat>, s: nat, p: seq<Edge>, t: nat)
    requires Ascending(f, order) && IsPath(f, s, p, t) && p != []
    ensures s < |order| && t < |order| && order[s] < order[t]
    decreases |p|
  {
    if |p| > 1 {
      AscendingPath(f, order, Arc(f, p[0]).nextstate, p[1..], t);
    }
  }

  lemma AscendingAcyclic<W>(f: Fst<W>, order: seq<nat>)
    requires Ascending(f, order)
    ensures Acyclic(f)
  {
    forall s, p | p != [] ensures !IsPath(f, s, p, s) {
      if IsPath(f, s, p, s) {
        AscendingPath(f, order, s, p, s);
      }
    }
  }

  /** The whole search from the start state on: an ascending order, or a back arc exactly when
      some cycle exists anywhere. */
  method TopOrder<W>(f: Fst<W>, visitor: TopOrderVisitor)
    requires WellFormed(f) && visitor.order == [] && visitor.acyclic && visitor.finish == []
    modifies visitor
    ensures f.start.None? ==> visitor.acyclic && visitor.order == []
    ensures f.start.Some? ==> (visitor.acyclic <==> Acyclic(f)) && (visitor.acyclic ==> Ascending(f, visitor.order))
  {
    hide Acyclic, TopInv, WhiteStates;
    if f.start.None? {
      visitor.FinishVisit();
      return;
    }
    var start: nat, n := f.start.value, |f.states|;
    var color, root: nat, dfs := seq(n, _ => White), start, true;
    StartTop(f);
    while dfs && root < n
      invariant root <= n && TopState(f, color, [], visitor.finish, visitor.acyclic, dfs) && |color| == n
                && visitor.order == []
      invariant dfs && root < n ==> color[root] == White
      invariant dfs && root != start ==> color[start] != White && forall v :: 0 <= v < root ==> color[v] != White
      decreases WhiteStates(color)
    {
      ghost var color0 := color;
      color, dfs := TopTree(f, visitor, color, root);
      StillVisited(color0, color, root);
      root := NextRoot(color, start, root);
    }
    if dfs {
      AllFinished(f, color, visitor.finish);
      FinishFacts(f, color, visitor.finish);
    }
    visitor.FinishVisit();
    if dfs {
      OrderAscends(f, visitor.finish, visitor.order);
      AscendingAcyclic(f, visitor.order);
    }
  }

  lemma FinishFacts<W>(f: Fst<W>, color: seq<Color>, finish: seq<nat>)
    requires TopInv(f, color, [], finish)
    ensures FinishOrder(f, finish)
  {
  }

  /** Every arc goes to a strictly larger state. */
  lemma RenamedTopSorted(f: Fst<Weight>, order: seq<nat>, g: Fst<Weight>)
    requires Renamed(f, order, g) && Ascending(f, order)
    ensures TopSorted(g)
  {
    forall x, i | 0 <= x < |g.states| && 0 <= i < |g.states[x].trs| ensures x < g.states[x].trs[i].nextstate {
      var s := Preimage(order, x);
      assert g.states[order[s]] == MapState(order, f.states[s]);
    }
  }

  /** Sorts in place when the machine is acyclic and leaves it alone otherwise; a machine with
      states but no start state is refused. */
  method TopSort(fst: VectorFst) returns (ok: bool, ghost order: seq<nat>)
    requires WellFormed(fst.Value())
    modifies fst
    ensures ok <==> old(fst.start.Some? || fst.states == [])
    ensures ok && old(Acyclic(fst.Value()) && fst.start.Some?) ==>
              Renamed(old(fst.Value()), order, fst.Value()) && TopSorted(fst.Value())
    ensures ok && old(Acyclic(fst.Value())) ==>
              fst.properties == (if old(fst.start).Some? then old(fst.properties) * STATESORT_PROPERTIES
                                 else old(fst.properties)) + {ACYCLIC, INITIAL_ACYCLIC, TOP_SORTED}
    ensures old(!Acyclic(fst.Value()) || fst.start.None?) ==> fst.Value() == old(fst.Value())
    ensures ok && old(!Acyclic(fst.Value())) ==> fst.properties == old(fst.properties) + {CYCLIC, NOT_TOP_SORTED}
    ensures !ok ==> fst.properties == old(fst.properties)
    ensures old(BitsTrue(fst.Value(), fst.properties)) ==> BitsTrue(fst.Value(), fst.properties)
  {
    hide Acyclic, Renamed, IsPermutation, BitsTrue, STATESORT_PROPERTIES, TopSorted;
    var visitor := new TopOrderVisitor();
    TopOrder(fst.Value(), visitor);
    order := visitor.order;
    if visitor.acyclic {
      OrderFits(fst.Value(), order);
      ok := StateSort(fst, visitor.order);
      if !ok {
        return;
      }
      if old(fst.start).Some? {
        RenamedTopSorted(old(fst.Value()), order, fst.Value());
      } else {
        NoStates(fst.Value());
      }
      SortedBits(fst.Value(), fst.properties);
      fst.properties := fst.properties + {ACYCLIC, INITIAL_ACYCLIC, TOP_SORTED};
    } else {
      ok := true;
      CyclicBits(fst.Value(), fst.properties);
      fst.properties := fst.properties + {CYCLIC, NOT_TOP_SORTED};
    }
  }

  lemma NoStates(f: Fst<Weight>)
    requires f.states == []
    ensures TopSorted(f) && Acyclic(f)
  {
    TopSortedAcyclic(f);
  }

  /** The bits that `top_sort` adds are true, ... */
  lemma SortedBits(f: Fst<Weight>, props: set<Property>)
    requires TopSorted(f)
    ensures BitsTrue(f, props) ==> BitsTrue(f, props + {ACYCLIC, INITIAL_ACYCLIC, TOP_SORTED})
  {
    TopSortedAcyclic(f);
  }

  /** ... also on a machine with a cycle. */
  lemma CyclicBits(f: Fst<Weight>, props: set<Property>)
    requires !Acyclic(f)
    ensures BitsTrue(f, props) ==> BitsTrue(f, props + {CYCLIC, NOT_TOP_SORTED})
  {
    hide Acyclic;
    if TopSorted(f) {
      TopSortedAcyclic(f);
    }
  }

  lemma OrderFits(f: Fst<Weight>, order: seq<nat>)
    requires f.start.Some? ==> Ascending(f, order)
    requires f.start.None? ==> order == []
    ensures |order| == |f.states| ==> IsPermutation(order, |order|)
    ensures f.start.Some? ==> |order| == |f.states|
  {
  }
}
