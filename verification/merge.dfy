/** `merge_states`: every class of a partition collapses into its first state. */
module Merges {
  import opened Fsts
  import opened Acceptors
  import opened Partitions
  import opened Properties
  import opened PropertyBits
  import opened Trims
  import opened VectorFsts
  import opened Weights

  predicate Below(l: seq<nat>, n: nat) {
    forall k :: 0 <= k < |l| ==> l[k] < n
  }

  /** `rep[x]` stands for the class of `x`; `members` lists the classes, each led by its representative. */
  ghost predicate Represents(f: Fst<Weight>, classOf: seq<nat>, members: seq<seq<nat>>, rep: seq<nat>) {
    && |classOf| == |rep| == |f.states|
    && (forall c :: 0 <= c < |members| ==> members[c] != [] && Distinct(members[c]))
    && (forall c :: 0 <= c < |members| ==> Below(members[c], |f.states|))
    && (forall c, k :: 0 <= c < |members| && 0 <= k < |members[c]| ==> classOf[members[c][k]] == c)
    && (forall x :: 0 <= x < |f.states|
         ==> classOf[x] < |members| && x in members[classOf[x]] && rep[x] == members[classOf[x]][0])
  }

  function Redirect(rep: seq<nat>, tr: Tr<Weight>): Tr<Weight>
    requires tr.nextstate < |rep|
  {
    tr.(nextstate := rep[tr.nextstate])
  }

  /** The arcs with their targets replaced by representatives. */
  function RedirectAll(rep: seq<nat>, trs: seq<Tr<Weight>>): (r: seq<Tr<Weight>>)
    requires forall i :: 0 <= i < |trs| ==> trs[i].nextstate < |rep|
  {
    seq(|trs|, i requires 0 <= i < |trs| => Redirect(rep, trs[i]))
  }

  /** The redirected arcs of all the states in `l`, in order. */
  ghost function Gathered(f: Fst<Weight>, rep: seq<nat>, l: seq<nat>): seq<Tr<Weight>>
    requires WellFormed(f) && |rep| == |f.states| && Below(l, |f.states|)
  {
    if l == [] then [] else Gathered(f, rep, l[..|l|-1]) + RedirectAll(rep, f.states[l[|l|-1]].trs)
  }

  ghost predicate IsMerged(f: Fst<Weight>, members: seq<seq<nat>>, classOf: seq<nat>, rep: seq<nat>, m: Fst<Weight>)
    requires WellFormed(f) && Represents(f, classOf, members, rep)
  {
    && |m.states| == |f.states|
    && (f.start.Some? ==> m.start == Some(rep[f.start.value]))
    && forall x :: 0 <= x < |f.states| ==> m.states[x] == MergedState(f, members, classOf, rep, x)
  }

  ghost function MergedState(f: Fst<Weight>, members: seq<seq<nat>>, classOf: seq<nat>, rep: seq<nat>,
                             x: nat): State<Weight>
    requires WellFormed(f) && Represents(f, classOf, members, rep) && x < |f.states|
  {
    if rep[x] == x then f.states[x].(trs := Gathered(f, rep, members[classOf[x]])) else f.states[x]
  }

  // ------------------------------------------------ arcs of a merged state

  /** State `x` has an arc that becomes `tr`. */
  ghost predicate Gives(f: Fst<Weight>, rep: seq<nat>, x: nat, i: nat, tr: Tr<Weight>)
    requires WellFormed(f) && |rep| == |f.states|
  {
    x < |f.states| && i < |f.states[x].trs| && Redirect(rep, f.states[x].trs[i]) == tr
  }

  lemma {:induction false} GatheredFrom(f: Fst<Weight>, rep: seq<nat>, l: seq<nat>, tr: Tr<Weight>)
    returns (x: nat, i: nat)
    requires WellFormed(f) && |rep| == |f.states| && Below(l, |f.states|)
    requires tr in Gathered(f, rep, l)
    ensures x in l && Gives(f, rep, x, i, tr)
  {
    x := l[|l|-1];
    var own := RedirectAll(rep, f.states[x].trs);
    if tr in own {
      i :| 0 <= i < |own| && own[i] == tr;
    } else {
      x, i := GatheredFrom(f, rep, l[..|l|-1], tr);
    }
  }

  lemma {:induction false} GatheredHas(f: Fst<Weight>, rep: seq<nat>, l: seq<nat>, x: nat, i: nat, tr: Tr<Weight>)
    requires WellFormed(f) && |rep| == |f.states| && Below(l, |f.states|)
    requires x in l && Gives(f, rep, x, i, tr)
    ensures tr in Gathered(f, rep, l)
  {
    if x == l[|l|-1] {
      assert RedirectAll(rep, f.states[x].trs)[i] == tr;
    } else {
      assert x in l[..|l|-1];
      GatheredHas(f, rep, l[..|l|-1], x, i, tr);
    }
  }

  // ------------------------------------------------ the loops

  method RedirectTr(fst: VectorFst, s: nat, i: nat, nextstate: nat, ghost sound: bool)
    requires Marks(fst, sound) && HasArc(fst.Value(), s, i) && nextstate < |fst.states|
    modifies fst
    ensures Marks(fst, sound) && fst.start == old(fst.start)
    ensures fst.states == old(ReplaceTr(fst.states, s, i, fst.states[s].trs[i].(nextstate := nextstate)))
  {
    hide BitsTrue, RELEVANT_TO_SET_ARC;
    ArcWellFormed(fst.Value(), s, i, fst.states[s].trs[i].(nextstate := nextstate));
    if sound {
      SetNextstateKeeps(fst.Value(), s, i, nextstate, fst.properties);
    }
    fst.SetNextstate(s, i, nextstate);
  }

  /** One class: the representative's arcs are redirected in place, the others are copied to it. */
  method MergeClass(fst: VectorFst, partition: Partition, stateMap: seq<nat>, c: nat, ghost f: Fst<Weight>,
                    ghost classOf: seq<nat>, ghost rep: seq<nat>, ghost sound: bool)
    requires WellFormed(f) && partition.Valid() && Represents(f, classOf, partition.no, rep)
    requires |partition.classes| == |partition.no| == |stateMap| && |partition.elements| == |f.states| && c < |stateMap|
    requires forall x :: 0 <= x < |f.states| ==> partition.ClassOf(x) == classOf[x] && stateMap[classOf[x]] == rep[x]
    requires |fst.states| == |f.states| && forall x :: x in partition.no[c] ==> fst.states[x] == f.states[x]
    requires Marks(fst, sound)
    modifies fst
    ensures fst.start == old(fst.start) && Marks(fst, sound)
    ensures var r := partition.no[c][0];
        r < |f.states| && fst.states == old(fst.states)[r := MergedState(f, partition.no, classOf, rep, r)]
  {
    hide Marks;
    var l := partition.Iter(c);
    var r := stateMap[c];
    assert r == rep[l[0]] && l[0] in partition.no[c];
    assert r == l[0];
    for k := 0 to |l|
      invariant fst.start == old(fst.start) && Marks(fst, sound)
      invariant k == 0 ==> fst.states == old(fst.states)
      invariant k > 0 ==> fst.states == old(fst.states)[r := f.states[r].(trs := Gathered(f, rep, l[..k]))]
    {
      var s := l[k];
      assert l[..k+1][..k] == l[..k];
      assert (s == r <==> k == 0) && classOf[s] == c && s in partition.no[c];
      if s == r {
        RedirectOwn(fst, partition, stateMap, s, f, classOf, rep, sound);
        assert Gathered(f, rep, l[..1]) == RedirectAll(rep, f.states[r].trs);
      } else {
        CopyArcs(fst, partition, stateMap, s, r, f, classOf, rep, sound);
      }
    }
    assert l[..|l|] == l;
  }

  method RedirectOwn(fst: VectorFst, partition: Partition, stateMap: seq<nat>, s: nat, ghost f: Fst<Weight>,
                     ghost classOf: seq<nat>, ghost rep: seq<nat>, ghost sound: bool)
    requires WellFormed(f) && |classOf| == |rep| == |f.states| == |partition.elements| == |fst.states|
    requires forall x :: 0 <= x < |f.states| ==>
        partition.ClassOf(x) == classOf[x] < |stateMap| && stateMap[classOf[x]] == rep[x] < |f.states|
    requires s < |f.states| && fst.states[s] == f.states[s] && Marks(fst, sound)
    modifies fst
    ensures fst.start == old(fst.start) && Marks(fst, sound)
    ensures fst.states == old(fst.states)[s := f.states[s].(trs := RedirectAll(rep, f.states[s].trs))]
  {
    hide RedirectAll, ReplaceTr, PartlyRedirected, Marks;
    ghost var states, all := fst.states, RedirectAll(rep, f.states[s].trs);
    RedirectedAt(rep, f.states[s].trs);
    RedirectEnds(states, s, all);
    for i := 0 to |fst.states[s].trs|
      invariant fst.start == old(fst.start) && Marks(fst, sound)
      invariant fst.states == PartlyRedirected(states, s, all, i)
    {
      RedirectNext(states, s, all, i);
      RedirectTr(fst, s, i, stateMap[partition.ClassOf(fst.states[s].trs[i].nextstate)], sound);
    }
  }

  /** The first `i` arcs of `s` are redirected. */
  ghost function PartlyRedirected(states: seq<State<Weight>>, s: nat, all: seq<Tr<Weight>>, i: nat): seq<State<Weight>>
    requires s < |states| && i <= |all| == |states[s].trs|
  {
    states[s := states[s].(trs := all[..i] + states[s].trs[i..])]
  }

  lemma RedirectEnds(states: seq<State<Weight>>, s: nat, all: seq<Tr<Weight>>)
    requires s < |states| && |all| == |states[s].trs|
    ensures PartlyRedirected(states, s, all, 0) == states
    ensures PartlyRedirected(states, s, all, |all|) == states[s := states[s].(trs := all)]
  {
    assert all[..0] + states[s].trs[0..] == states[s].trs;
    assert all[..|all|] + states[s].trs[|all|..] == all;
  }

  lemma RedirectNext(states: seq<State<Weight>>, s: nat, all: seq<Tr<Weight>>, i: nat)
    requires s < |states| && i < |all| == |states[s].trs|
    ensures var half := PartlyRedirected(states, s, all, i);
            && |half| == |states| && |half[s].trs| == |all| && half[s].trs[i] == states[s].trs[i]
            && ReplaceTr(half, s, i, all[i]) == PartlyRedirected(states, s, all, i + 1)
  {
    var trs := states[s].trs;
    assert (all[..i] + trs[i..])[i := all[i]] == all[..i+1] + trs[i+1..];
  }

  lemma RedirectedAt(rep: seq<nat>, trs: seq<Tr<Weight>>)
    requires forall i :: 0 <= i < |trs| ==> trs[i].nextstate < |rep|
    ensures |RedirectAll(rep, trs)| == |trs|
    ensures forall i :: 0 <= i < |trs| ==> RedirectAll(rep, trs)[i] == trs[i].(nextstate := rep[trs[i].nextstate])
  {
  }

  method CopyArcs(fst: VectorFst, partition: Partition, stateMap: seq<nat>, s: nat, r: nat, ghost f: Fst<Weight>,
                  ghost classOf: seq<nat>, ghost rep: seq<nat>, ghost sound: bool)
    requires WellFormed(f) && |classOf| == |rep| == |f.states| == |partition.elements| == |fst.states|
    requires forall x :: 0 <= x < |f.states| ==>
        partition.ClassOf(x) == classOf[x] < |stateMap| && stateMap[classOf[x]] == rep[x] < |f.states|
    requires s < |f.states| && fst.states[s] == f.states[s] && r < |f.states| && Marks(fst, sound)
    modifies fst
    ensures fst.start == old(fst.start) && Marks(fst, sound)
    ensures fst.states == old(fst.states)
            [r := old(fst.states)[r].(trs := old(fst.states)[r].trs + RedirectAll(rep, f.states[s].trs))]
  {
    hide Marks;
    ghost var all, own := RedirectAll(rep, f.states[s].trs), fst.states[r].trs;
    var trs := fst.states[s].trs;
    assert own + all[..0] == own;
    for i := 0 to |trs|
      invariant fst.start == old(fst.start) && Marks(fst, sound)
      invariant fst.states == old(fst.states)[r := old(fst.states)[r].(trs := own + all[..i])]
    {
      AppendTr(fst, r, trs[i].(nextstate := stateMap[partition.ClassOf(trs[i].nextstate)]), sound);
      assert own + all[..i+1] == own + all[..i] + [all[i]];
    }
    assert all[..|all|] == all;
  }

  ghost function ClassIds(partition: Partition): seq<nat>
    reads partition
  {
    seq(|partition.elements|, x requires 0 <= x < |partition.elements| reads partition => partition.elements[x].classId)
  }

  /** A settled partition of all the states, with no empty class. */
  ghost predicate PartitionOf(f: Fst<Weight>, partition: Partition)
    reads partition
  {
    && partition.Valid() && partition.visitedClasses == [] && AllNonEmpty(partition.classes)
    && |partition.elements| == |f.states| && forall x :: x in partition.added <==> 0 <= x < |f.states|
  }

  /** The first members of the classes represent them. */
  lemma Representatives(f: Fst<Weight>, partition: Partition, stateMap: seq<nat>)
    returns (classOf: seq<nat>, rep: seq<nat>)
    requires PartitionOf(f, partition)
    requires |stateMap| == |partition.classes|
    requires forall c :: 0 <= c < |stateMap| ==> partition.NonEmptyList(c) && stateMap[c] == partition.no[c][0]
    ensures |partition.classes| == |partition.no| && classOf == ClassIds(partition)
            && Represents(f, classOf, partition.no, rep)
    ensures forall x :: 0 <= x < |f.states| ==>
        partition.ClassOf(x) == classOf[x] < |stateMap| && stateMap[classOf[x]] == rep[x] < |f.states|
  {
    classOf := ClassIds(partition);
    partition.ListCount();
    forall x | 0 <= x < |f.states|
      ensures classOf[x] < |partition.no| && x in partition.no[classOf[x]] && classOf[x] == partition.ClassOf(x) {
      partition.Member(x, x);
      partition.ClassMembers(classOf[x]);
    }
    forall c | 0 <= c < |partition.no| ensures Distinct(partition.no[c]) && Below(partition.no[c], |f.states|)
      ensures forall k :: 0 <= k < |partition.no[c]| ==> classOf[partition.no[c][k]] == c
    {
      partition.ClassMembers(c);
      assert forall k :: 0 <= k < |partition.no[c]| ==> partition.no[c][k] in partition.no[c];
    }
    rep := seq(|f.states|, x requires 0 <= x < |f.states| => stateMap[classOf[x]]);
  }

  lemma MergedWellFormed(f: Fst<Weight>, members: seq<seq<nat>>, classOf: seq<nat>, rep: seq<nat>, m: Fst<Weight>)
    requires WellFormed(f) && Represents(f, classOf, members, rep) && IsMerged(f, members, classOf, rep, m)
             && f.start.Some?
    ensures WellFormed(m)
  {
    forall x, i | 0 <= x < |m.states| && 0 <= i < |m.states[x].trs| ensures m.states[x].trs[i].nextstate < |m.states| {
      if rep[x] == x {
        assert m.states[x].trs[i] in m.states[x].trs;
        var y, j := GatheredFrom(f, rep, members[classOf[x]], m.states[x].trs[i]);
      }
    }
  }

  lemma MergedReady(f: Fst<Weight>, members: seq<seq<nat>>, classOf: seq<nat>, rep: seq<nat>, m: Fst<Weight>)
    requires WellFormed(f) && Represents(f, classOf, members, rep) && f.start.Some?
             && m.start == Some(rep[f.start.value])
    requires |m.states| == |f.states| &&
         forall x :: 0 <= x < |f.states| ==> m.states[x] == MergedState(f, members, classOf, rep, x)
    ensures IsMerged(f, members, classOf, rep, m) && WellFormed(m)
  {
    MergedWellFormed(f, members, classOf, rep, m);
  }

  lemma StartUnmarks(props: set<Property>)
    ensures ACCESSIBLE !in SetStartProperties(props)
  {
  }

  method FirstMembers(partition: Partition) returns (stateMap: seq<nat>)
    requires partition.Valid() && partition.visitedClasses == [] && AllNonEmpty(partition.classes)
    ensures |stateMap| == |partition.classes|
    ensures forall c :: 0 <= c < |stateMap| ==> partition.NonEmptyList(c) && stateMap[c] == partition.no[c][0]
  {
    stateMap := [];
    for i := 0 to |partition.classes|
      invariant |stateMap| == i
      invariant forall c :: 0 <= c < i ==> partition.NonEmptyList(c) && stateMap[c] == partition.no[c][0]
    {
      partition.FirstMember(i);
      var l := partition.Iter(i);
      stateMap := stateMap + [l[0]];
    }
  }

  method MergeClasses(fst: VectorFst, partition: Partition, stateMap: seq<nat>, ghost f: Fst<Weight>,
                      ghost classOf: seq<nat>, ghost rep: seq<nat>, ghost sound: bool)
    requires WellFormed(f) && partition.Valid() && Represents(f, classOf, partition.no, rep)
    requires |partition.classes| == |partition.no| == |stateMap| && |partition.elements| == |f.states|
             && fst.states == f.states
    requires forall x :: 0 <= x < |f.states| ==> partition.ClassOf(x) == classOf[x] && stateMap[classOf[x]] == rep[x]
    requires Marks(fst, sound)
    modifies fst
    ensures fst.start == old(fst.start) && |fst.states| == |f.states| && Marks(fst, sound)
    ensures forall x :: 0 <= x < |f.states| ==> fst.states[x] == MergedState(f, partition.no, classOf, rep, x)
  {
    hide Gathered, Rep, Marks;
    for c := 0 to |partition.classes|
      invariant fst.start == old(fst.start) && |fst.states| == |f.states| && Marks(fst, sound)
      invariant forall x :: 0 <= x < |f.states| ==>
                  fst.states[x] == if classOf[x] < c then MergedState(f, partition.no, classOf, rep, x) else f.states[x]
    {
      assert forall x :: x in partition.no[c] ==> classOf[x] == c;
      assert partition.no[c][0] in partition.no[c];
      MergeClass(fst, partition, stateMap, c, f, classOf, rep, sound);
    }
  }

  /** `m` is `f` with its classes merged, and `g` what is left of `m` after trimming. */
  ghost predicate Collapsed(f: Fst<Weight>, classOf: seq<nat>, members: seq<seq<nat>>, rep: seq<nat>, m: Fst<Weight>,
                            g: Fst<Weight>) {
    && WellFormed(f) && Represents(f, classOf, members, rep) && IsMerged(f, members, classOf, rep, m)
    && WellFormed(m) && IsTrimmed(m, Useless(m), g)
  }

  /** Redirects every arc to a representative and hands it over to one. */
  method MergeInPlace(partition: Partition, fst: VectorFst, ghost sound: bool)
    returns (ghost classOf: seq<nat>, ghost rep: seq<nat>)
    requires WellFormed(fst.Value()) && fst.start.Some? && PartitionOf(fst.Value(), partition) && Marks(fst, sound)
    modifies fst
    ensures Marks(fst, sound)
    ensures classOf == ClassIds(partition) && Represents(old(fst.Value()), classOf, partition.no, rep)
            && WellFormed(old(fst.Value()))
    ensures IsMerged(old(fst.Value()), partition.no, classOf, rep, fst.Value()) && WellFormed(fst.Value())
    ensures ACCESSIBLE !in fst.properties
  {
    hide Rep, Represents, MergedState, IsMerged, SetStartProperties, BitsTrue;
    var stateMap := FirstMembers(partition);
    classOf, rep := Representatives(fst.Value(), partition, stateMap);
    MergeClasses(fst, partition, stateMap, old(fst.Value()), classOf, rep, sound);
    StartUnmarks(fst.properties);
    if sound {
      SetStartKeeps(fst.Value(), stateMap[partition.ClassOf(fst.start.value)], fst.properties);
    }
    fst.SetStart(stateMap[partition.ClassOf(fst.start.value)]);
    MergedReady(old(fst.Value()), partition.no, classOf, rep, fst.Value());
  }

  /** Merges, and trims away the states that no longer represent anything. */
  method MergeStates(partition: Partition, fst: VectorFst)
    returns (ghost classOf: seq<nat>, ghost rep: seq<nat>, ghost m: Fst<Weight>)
    requires WellFormed(fst.Value()) && fst.start.Some? && PartitionOf(fst.Value(), partition)
    modifies fst
    ensures classOf == ClassIds(partition) && Collapsed(old(fst.Value()), classOf, partition.no, rep, m, fst.Value())
    ensures {ACCESSIBLE, COACCESSIBLE} <= fst.properties
    ensures old(BitsTrue(fst.Value(), fst.properties)) ==> BitsTrue(fst.Value(), fst.properties)
  {
    hide IsTrimmed, Useless, IsMerged, Represents, WellFormed, PartitionOf, BitsTrue, DELETE_STATES_PROPERTIES;
    ghost var sound := BitsTrue(fst.Value(), fst.properties);
    classOf, rep := MergeInPlace(partition, fst, sound);
    m := fst.Value();
    ghost var props := fst.properties;
    Connect(fst);
    if sound {
      ConnectedBits(m, fst.Value(), props);
    }
  }
}
