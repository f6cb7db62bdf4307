/** `AcyclicMinimizer`: refinement of the height classes of an acyclic acceptor, lowest first. */
module Revuz {
  import opened Fsts
  import opened Acceptors
  import opened Depths
  import opened Hopcroft
  import opened Minimals
  import opened Partitions
  import opened Weights

  // ------------------------------------------------ StateComparator

  datatype Ordering = Less | Equal | Greater

  /** The order of the weights; the semiring zero is the largest. */
  predicate WeightLess(a: Weight, b: Weight) {
    a.Fin? && (b.Inf? || a.v < b.v)
  }

  function TargetClass(els: seq<Element>, tr: Tr<Weight>): nat {
    if tr.nextstate < |els| then els[tr.nextstate].classId else 0
  }

  /** The arcs from position `i` on, label first, then class of the target. */
  predicate ArcsLess(els: seq<Element>, xs: seq<Tr<Weight>>, ys: seq<Tr<Weight>>, i: nat)
    decreases |xs| - i
  {
    if i >= |xs| || i >= |ys| then false
    else if xs[i].ilabel < ys[i].ilabel then true
    else if xs[i].ilabel > ys[i].ilabel then false
    else if TargetClass(els, xs[i]) < TargetClass(els, ys[i]) then true
    else if TargetClass(els, xs[i]) > TargetClass(els, ys[i]) then false
    else ArcsLess(els, xs, ys, i + 1)
  }

  predicate DoCompare(f: Fst<Weight>, els: seq<Element>, x: nat, y: nat)
    requires x < |f.states| && y < |f.states|
  {
    var xfinal, yfinal, xs, ys := FinalWeight(f, x), FinalWeight(f, y), f.states[x].trs, f.states[y].trs;
    if WeightLess(xfinal, yfinal) then true
    else if WeightLess(yfinal, xfinal) then false
    else if |xs| < |ys| then true
    else if |xs| > |ys| then false
    else ArcsLess(els, xs, ys, 0)
  }

  function Compare(f: Fst<Weight>, els: seq<Element>, x: nat, y: nat): Ordering
    requires x < |f.states| && y < |f.states|
  {
    if x == y then Equal
    else if !DoCompare(f, els, x, y) && !DoCompare(f, els, y, x) then Equal
    else if DoCompare(f, els, x, y) then Less
    else Greater
  }

  /** The same final weight, labels and classes of targets. */
  ghost predicate SameKey(f: Fst<Weight>, els: seq<Element>, x: nat, y: nat)
    requires x < |f.states| && y < |f.states|
  {
    FinalWeight(f, x) == FinalWeight(f, y) && SameArcsFrom(els, f.states[x].trs, f.states[y].trs, 0)
  }

  ghost predicate SameArcsFrom(els: seq<Element>, xs: seq<Tr<Weight>>, ys: seq<Tr<Weight>>, i: nat) {
    |xs| == |ys| && forall j :: i <= j < |xs| ==>
        xs[j].ilabel == ys[j].ilabel && TargetClass(els, xs[j]) == TargetClass(els, ys[j])
  }

  lemma {:induction false} ArcsLessExact(els: seq<Element>, xs: seq<Tr<Weight>>, ys: seq<Tr<Weight>>, i: nat)
    requires |xs| == |ys|
    ensures !(ArcsLess(els, xs, ys, i) && ArcsLess(els, ys, xs, i))
    ensures !ArcsLess(els, xs, ys, i) && !ArcsLess(els, ys, xs, i) <==> SameArcsFrom(els, xs, ys, i)
    decreases |xs| - i
  {
    if i < |xs| {
      ArcsLessExact(els, xs, ys, i + 1);
    }
  }

  lemma {:induction false} ArcsLessTransitive(els: seq<Element>, xs: seq<Tr<Weight>>, ys: seq<Tr<Weight>>,
                                              zs: seq<Tr<Weight>>, i: nat)
    requires |xs| == |ys| == |zs|
    ensures ArcsLess(els, xs, ys, i) && (ArcsLess(els, ys, zs, i) || SameArcsFrom(els, ys, zs, i))
            ==> ArcsLess(els, xs, zs, i)
    ensures SameArcsFrom(els, xs, ys, i) && ArcsLess(els, ys, zs, i) ==> ArcsLess(els, xs, zs, i)
    decreases |xs| - i
  {
    if i < |xs| {
      ArcsLessTransitive(els, xs, ys, zs, i + 1);
    }
  }

  /** The comparator is a total preorder whose equivalence is equality of keys, as a search tree needs. */
  lemma CompareOrder(f: Fst<Weight>, els: seq<Element>, x: nat, y: nat, z: nat)
    requires x < |f.states| && y < |f.states| && z < |f.states|
    ensures Compare(f, els, x, y) == Equal <==> SameKey(f, els, x, y)
    ensures Compare(f, els, x, y) == Less <==> Compare(f, els, y, x) == Greater
    ensures Compare(f, els, x, y) == Less && Compare(f, els, y, z) != Greater ==> Compare(f, els, x, z) == Less
    ensures Compare(f, els, x, y) == Equal && Compare(f, els, y, z) == Less ==> Compare(f, els, x, z) == Less
  {
    CompareExact(f, els, x, y);
    CompareExact(f, els, y, z);
    CompareExact(f, els, x, z);
    var xs, ys, zs := f.states[x].trs, f.states[y].trs, f.states[z].trs;
    if |xs| == |ys| == |zs| {
      ArcsLessTransitive(els, xs, ys, zs, 0);
    }
  }

  lemma CompareExact(f: Fst<Weight>, els: seq<Element>, x: nat, y: nat)
    requires x < |f.states| && y < |f.states|
    ensures !(DoCompare(f, els, x, y) && DoCompare(f, els, y, x))
    ensures Compare(f, els, x, y) == Equal <==> SameKey(f, els, x, y)
    ensures Compare(f, els, x, y) == Less <==> DoCompare(f, els, x, y)
    ensures Compare(f, els, x, y) == Greater <==> DoCompare(f, els, y, x)
  {
    var xs, ys := f.states[x].trs, f.states[y].trs;
    if |xs| == |ys| {
      ArcsLessExact(els, xs, ys, 0);
    }
  }

  // ------------------------------------------------ the invariant

  /** Finality is worth one. */
  ghost predicate UnitFinals(f: Fst<Weight>) {
    forall s :: 0 <= s < |f.states| && f.states[s].finalWeight.Some? ==> f.states[s].finalWeight.value == ONE
  }

  ghost predicate Layered(f: Fst<Weight>, hts: seq<int>) {
    && WellFormed(f) && Deterministic(f) && Trim(f) && ILabelSorted(f) && UnitFinals(f) && Heights(f, hts)
  }

  /** Levels below `h` are divided into equivalence classes, the others are still whole;
      `top` is the number of levels and `count` the number of classes. */
  ghost predicate RefinedTo(f: Fst<Weight>, hts: seq<int>, els: seq<Element>, count: nat, top: nat, h: nat) {
    && |hts| == |els| == |f.states| && top <= count
    && (forall x :: 0 <= x < |els| ==> 0 <= hts[x] < top && els[x].classId < count)
    && (forall x :: 0 <= x < |els| ==>
         if hts[x] >= h then els[x].classId == hts[x] else els[x].classId == hts[x] || els[x].classId >= top)
    && (forall c :: 0 <= c < count ==> Inhabited(els, c))
    && EquivBelow(f, hts, els, h)
  }

  ghost predicate EquivBelow(f: Fst<Weight>, hts: seq<int>, els: seq<Element>, h: nat)
    requires |hts| == |els| == |f.states|
  {
    forall x: nat, y: nat :: x < |els| && y < |els| && hts[x] < h && hts[y] < h
      ==> (els[x].classId == els[y].classId <==> Nerode(f, x, y))
  }

  ghost predicate Inhabited(els: seq<Element>, c: nat) {
    exists x :: 0 <= x < |els| && els[x].classId == c
  }

  /** On level `h` equal keys mean equal right languages. */
  lemma KeyNerode(f: Fst<Weight>, hts: seq<int>, els: seq<Element>, h: nat, x: nat, y: nat)
    requires Layered(f, hts) && |els| == |f.states| && EquivBelow(f, hts, els, h)
    requires x < |f.states| && y < |f.states| && hts[x] == hts[y] == h
    ensures SameKey(f, els, x, y) <==> Nerode(f, x, y)
  {
    if SameKey(f, els, x, y) {
      forall w ensures Accepts(f, x, w) <==> Accepts(f, y, w) {
        if Accepts(f, x, w) {
          KeyAccepts(f, hts, els, h, x, y, w);
        }
        if Accepts(f, y, w) {
          KeyAccepts(f, hts, els, h, y, x, w);
        }
      }
    }
    if Nerode(f, x, y) {
      assert AllCoAccessible(f);
      NerodeKey(f, x, y);
      var xs, ys := f.states[x].trs, f.states[y].trs;
      assert |Labels(xs)| == |Labels(ys)|;
      forall j | 0 <= j < |xs| ensures xs[j].ilabel == ys[j].ilabel
        && TargetClass(els, xs[j]) == TargetClass(els, ys[j]) {
        assert Labels(xs)[j] == Labels(ys)[j];
        var a, t, u := xs[j].ilabel, xs[j].nextstate, ys[j].nextstate;
        assert Step(f, x, a, t) && Step(f, y, a, u);
        var v := NerodeStep(f, x, y, a, t);
        StepUnique(f, y, a, u, v);
        assert HeightAt(f, hts, x) && Lower(f, hts, x, j) && HeightAt(f, hts, y) && Lower(f, hts, y, j);
      }
    }
  }

  lemma KeyAccepts(f: Fst<Weight>, hts: seq<int>, els: seq<Element>, h: nat, x: nat, y: nat, w: seq<Label>)
    requires Layered(f, hts) && |els| == |f.states| && EquivBelow(f, hts, els, h)
    requires x < |f.states| && y < |f.states| && hts[x] == hts[y] == h && SameKey(f, els, x, y) && Accepts(f, x, w)
    ensures Accepts(f, y, w)
  {
    if w != [] {
      var j := AcceptsArc(f, x, w);
      assert HeightAt(f, hts, x) && Lower(f, hts, x, j) && HeightAt(f, hts, y) && Lower(f, hts, y, j);
      var t, u := f.states[x].trs[j].nextstate, f.states[y].trs[j].nextstate;
      assert Nerode(f, t, u);
      assert Reads(f, y, j, w);
    }
  }

  /** The key of a state on level `h` reads classes of lower levels only. */
  lemma KeyStable(f: Fst<Weight>, hts: seq<int>, els: seq<Element>, els': seq<Element>, h: nat, x: nat, y: nat)
    requires Heights(f, hts) && |els| == |els'| == |f.states|
    requires forall z :: 0 <= z < |els| && hts[z] < h ==> els'[z].classId == els[z].classId
    requires x < |f.states| && y < |f.states| && hts[x] == hts[y] == h
    ensures SameKey(f, els, x, y) <==> SameKey(f, els', x, y)
  {
    TargetsStable(f, hts, els, els', h, x);
    TargetsStable(f, hts, els, els', h, y);
  }

  lemma TargetsStable(f: Fst<Weight>, hts: seq<int>, els: seq<Element>, els': seq<Element>, h: nat, x: nat)
    requires Heights(f, hts) && |els| == |els'| == |f.states| && x < |f.states| && hts[x] == h
    requires forall z :: 0 <= z < |els| && hts[z] < h ==> els'[z].classId == els[z].classId
    ensures forall j :: 0 <= j < |f.states[x].trs| ==>
        TargetClass(els, f.states[x].trs[j]) == TargetClass(els', f.states[x].trs[j])
  {
    assert HeightAt(f, hts, x);
    forall j | 0 <= j < |f.states[x].trs|
      ensures TargetClass(els, f.states[x].trs[j]) == TargetClass(els', f.states[x].trs[j]) {
      assert Lower(f, hts, x, j);
    }
  }

  // ------------------------------------------------ one level

  /** The search tree of a level as the list of its entries: pairwise different keys, the
      first keeps the id of the level, the others get the fresh ids. */
  ghost predicate Entries(f: Fst<Weight>, hts: seq<int>, els: seq<Element>, h: nat, keys: seq<nat>) {
    && |hts| == |f.states| && keys != []
    && (forall j :: 0 <= j < |keys| ==> keys[j] < |f.states| && hts[keys[j]] == h)
    && (forall i, j :: 0 <= i < j < |keys| ==> !SameKeys(f, els, keys[i], keys[j]))
  }

  ghost predicate SameKeys(f: Fst<Weight>, els: seq<Element>, x: nat, y: nat) {
    x < |f.states| && y < |f.states| && SameKey(f, els, x, y)
  }

  function EntryClass(h: nat, count: nat, j: nat): nat {
    if j == 0 then h else count + j - 1
  }

  /** `x` has the key of entry `j` and is in its class. */
  ghost predicate Filed(f: Fst<Weight>, els: seq<Element>, h: nat, count: nat, keys: seq<nat>, x: nat, c: nat) {
    exists j: nat :: j < |keys| && SameKeys(f, els, x, keys[j]) && c == EntryClass(h, count, j)
  }

  /** Having the key of `z` makes two states have each other's. */
  lemma SameKeysShare(f: Fst<Weight>, els: seq<Element>, x: nat, y: nat, z: nat)
    requires SameKeys(f, els, x, z) && SameKeys(f, els, y, z)
    ensures SameKeys(f, els, x, y)
  {
  }

  lemma SameKeysSymmetric(f: Fst<Weight>, els: seq<Element>, x: nat, y: nat)
    requires SameKeys(f, els, x, y)
    ensures SameKeys(f, els, y, x) && SameKeys(f, els, x, x)
  {
  }

  /** Two filed states are in one class iff they have one key. */
  lemma FiledExact(f: Fst<Weight>, hts: seq<int>, els: seq<Element>, h: nat, count: nat, keys: seq<nat>, x: nat,
                   c: nat, y: nat, d: nat)
    requires Entries(f, hts, els, h, keys) && h < count && Filed(f, els, h, count, keys, x, c)
             && Filed(f, els, h, count, keys, y, d)
    ensures c == d <==> SameKeys(f, els, x, y)
  {
    var i: nat :| i < |keys| && SameKeys(f, els, x, keys[i]) && c == EntryClass(h, count, i);
    var j: nat :| j < |keys| && SameKeys(f, els, y, keys[j]) && d == EntryClass(h, count, j);
    hide SameKeys;
    if i == j {
      SameKeysShare(f, els, x, y, keys[i]);
    } else if SameKeys(f, els, x, y) {
      SameKeysSymmetric(f, els, x, y);
      SameKeysSymmetric(f, els, x, keys[i]);
      SameKeysSymmetric(f, els, y, keys[j]);
      SameKeysSymmetric(f, els, keys[j], y);
      SameKeysShare(f, els, keys[i], y, x);
      SameKeysSymmetric(f, els, keys[i], y);
      SameKeysShare(f, els, keys[i], keys[j], y);
      SameKeysSymmetric(f, els, keys[i], keys[j]);
    }
  }

  lemma LevelDone(f: Fst<Weight>, hts: seq<int>, els: seq<Element>, els': seq<Element>, count: nat, top: nat, h: nat,
                  keys: seq<nat>)
    requires Layered(f, hts) && RefinedTo(f, hts, els, count, top, h) && h < top && Entries(f, hts, els, h, keys)
    requires |els'| == |els| && forall x :: 0 <= x < |els| ==>
               if hts[x] == h then Filed(f, els, h, count, keys, x, els'[x].classId)
                 else els'[x].classId == els[x].classId
    ensures RefinedTo(f, hts, els', count + |keys| - 1, top, h + 1)
  {
    hide Heights, Filed;
    LevelRanges(f, hts, els, els', count, top, h, keys);
    assert EquivBelow(f, hts, els', h + 1) by {
      forall x: nat, y: nat | x < |els'| && y < |els'| && hts[x] < h + 1 && hts[y] < h + 1
        ensures els'[x].classId == els'[y].classId <==> Nerode(f, x, y)
      {
        if hts[x] == h && hts[y] == h {
          FiledExact(f, hts, els, h, count, keys, x, els'[x].classId, y, els'[y].classId);
          KeyNerode(f, hts, els, h, x, y);
        } else if hts[x] != hts[y] && Nerode(f, x, y) {
          NerodeHeight(f, hts, x, y);
        }
      }
    }
  }

  lemma LevelRanges(f: Fst<Weight>, hts: seq<int>, els: seq<Element>, els': seq<Element>, count: nat, top: nat, h: nat,
                    keys: seq<nat>)
    requires RefinedTo(f, hts, els, count, top, h) && h < top && Entries(f, hts, els, h, keys)
    requires |els'| == |els| && forall x :: 0 <= x < |els| ==>
               if hts[x] == h then Filed(f, els, h, count, keys, x, els'[x].classId)
                 else els'[x].classId == els[x].classId
    ensures forall x :: 0 <= x < |els'| ==> els'[x].classId < count + |keys| - 1
    ensures forall x :: 0 <= x < |els'| && hts[x] == h ==> els'[x].classId == h || els'[x].classId >= count
    ensures forall c :: 0 <= c < count + |keys| - 1 ==> Inhabited(els', c)
  {
    forall c: nat | c < count + |keys| - 1 ensures Inhabited(els', c) {
      if c < count && c != h {
        assert Inhabited(els, c);
        var x :| 0 <= x < |els| && els[x].classId == c;
        assert els'[x].classId == c;
      } else {
        var j: nat := if c == h then 0 else c - count + 1;
        var x := keys[j];
        var i: nat :| i < |keys| && SameKeys(f, els, x, keys[i]) && els'[x].classId == EntryClass(h, count, i);
        if i < j {
          SameKeysSymmetric(f, els, keys[j], keys[i]);
        }
        assert i == j;
      }
    }
  }

  // ------------------------------------------------ refine

  /** Looks `s` up among the keys, as the search tree does. */
  method Find(f: Fst<Weight>, partition: Partition, keys: seq<nat>, s: nat) returns (j: nat)
    requires s < |f.states| && forall i :: 0 <= i < |keys| ==> keys[i] < |f.states|
    ensures j <= |keys| && forall i :: 0 <= i < j ==> !SameKeys(f, partition.elements, keys[i], s)
    ensures j < |keys| ==> SameKeys(f, partition.elements, s, keys[j])
  {
    j := 0;
    while j < |keys|
      invariant j <= |keys| && forall i :: 0 <= i < j ==> !SameKeys(f, partition.elements, keys[i], s)
    {
      CompareExact(f, partition.elements, keys[j], s);
      if Compare(f, partition.elements, keys[j], s) == Equal {
        SameKeysSymmetric(f, partition.elements, keys[j], s);
        return;
      }
      j := j + 1;
    }
  }

  ghost predicate HasKey(f: Fst<Weight>, els: seq<Element>, keys: seq<nat>, x: nat) {
    exists j :: 0 <= j < |keys| && SameKeys(f, els, x, keys[j])
  }

  /** Builds the tree of a level, with a new class for every key after the first. */
  method FileLevel(f: Fst<Weight>, partition: Partition, it: seq<nat>, h: nat, ghost hts: seq<int>)
    returns (keys: seq<nat>, ids: seq<nat>)
    requires partition.Valid() && partition.visitedClasses == [] && |partition.elements| == |f.states| == |hts|
    requires it != [] && forall k :: 0 <= k < |it| ==> it[k] < |f.states| && hts[it[k]] == h
    modifies partition
    ensures partition.Valid() && partition.visitedClasses == [] && partition.elements == old(partition.elements)
            && partition.added == old(partition.added)
    ensures Entries(f, hts, partition.elements, h, keys) && |partition.classes| == old(|partition.classes|) + |keys| - 1
    ensures |ids| == |keys| && forall j :: 0 <= j < |ids| ==> ids[j] == EntryClass(h, old(|partition.classes|), j)
    ensures forall k :: 0 <= k < |it| ==> HasKey(f, partition.elements, keys, it[k])
  {
    ghost var els, count := partition.elements, |partition.classes|;
    hide SameKey;
    keys, ids := [it[0]], [h];
    assert SameKeys(f, els, it[0], keys[0]) by {
      SameKeyReflexive(f, els, it[0]);
    }
    for k := 1 to |it|
      invariant partition.Valid() && partition.visitedClasses == [] && partition.elements == els
                && partition.added == old(partition.added)
      invariant Entries(f, hts, els, h, keys) && |partition.classes| == count + |keys| - 1
      invariant |ids| == |keys| && forall j :: 0 <= j < |ids| ==> ids[j] == EntryClass(h, count, j)
      invariant forall l :: 0 <= l < k ==> HasKey(f, els, keys, it[l])
    {
      var e := it[k];
      ghost var keys0 := keys;
      var j := Find(f, partition, keys, e);
      if j == |keys| {
        ids := ids + [|partition.classes|];
        partition.AllocateClasses(1);
        keys := keys + [e];
        SameKeyReflexive(f, els, e);
        assert SameKeys(f, els, e, keys[|keys|-1]);
        forall l | 0 <= l < k ensures HasKey(f, els, keys, it[l]) {
          var i :| 0 <= i < |keys0| && SameKeys(f, els, it[l], keys0[i]);
          assert SameKeys(f, els, it[l], keys[i]);
        }
      }
    }
  }

  lemma SameKeyReflexive(f: Fst<Weight>, els: seq<Element>, x: nat)
    requires x < |f.states|
    ensures SameKey(f, els, x, x)
  {
  }

  /** Where the states of a level are while they move: those before position `k` are filed. */
  ghost predicate Moved(f: Fst<Weight>, els0: seq<Element>, els: seq<Element>, it: seq<nat>, k: nat, h: nat,
                        count: nat, keys: seq<nat>)
    requires k <= |it|
  {
    && |els| == |els0|
    && forall x :: 0 <= x < |els| ==>
         if x in it[..k] then Filed(f, els0, h, count, keys, x, els[x].classId) else els[x].classId == els0[x].classId
  }

  method MoveLevel(f: Fst<Weight>, partition: Partition, it: seq<nat>, h: nat, keys: seq<nat>, ids: seq<nat>,
                   ghost hts: seq<int>, ghost count: nat)
    requires partition.Valid() && partition.visitedClasses == [] && |partition.elements| == |f.states| == |hts|
             && Heights(f, hts)
    requires forall k :: 0 <= k < |it| ==> it[k] < |f.states| && hts[it[k]] == h && it[k] in partition.added
    requires Entries(f, hts, partition.elements, h, keys) && h < count && |partition.classes| == count + |keys| - 1
    requires |ids| == |keys| && forall j :: 0 <= j < |ids| ==> ids[j] == EntryClass(h, count, j)
    requires forall k :: 0 <= k < |it| ==> HasKey(f, partition.elements, keys, it[k])
    requires Distinct(it)
    modifies partition
    ensures partition.Valid() && partition.visitedClasses == [] && partition.added == old(partition.added)
    ensures |partition.classes| == old(|partition.classes|)
    ensures Moved(f, old(partition.elements), partition.elements, it, |it|, h, count, keys)
  {
    ghost var els := partition.elements;
    hide SameKeys, Entries, HasKey, Filed, Heights, EntryClass, Rep;
    EntriesBelow(f, hts, els, h, keys);
    for k := 0 to |it|
      invariant partition.Valid() && partition.visitedClasses == [] && partition.added == old(partition.added)
      invariant |partition.classes| == old(|partition.classes|)
      invariant Moved(f, els, partition.elements, it, k, h, count, keys)
    {
      var s := it[k];
      var oldClass := partition.ClassOf(s);
      var j := Find(f, partition, keys, s);
      FoundEntry(f, hts, els, partition.elements, it, k, h, count, keys, j);
      var newClass := ids[j];
      ghost var els1 := partition.elements;
      if oldClass != newClass {
        partition.MoveElement(s, newClass);
        assert forall x :: 0 <= x < |els1| && x != s ==> partition.ClassOf(x) == els1[x].classId;
      }
      MovedNext(f, els, els1, partition.elements, it, k, h, count, keys, newClass);
    }
  }

  lemma MovedNext(f: Fst<Weight>, els0: seq<Element>, els: seq<Element>, els': seq<Element>, it: seq<nat>, k: nat,
                  h: nat, count: nat, keys: seq<nat>, c: nat)
    requires k < |it| && Moved(f, els0, els, it, k, h, count, keys) && it[k] < |els'| == |els|
    requires els'[it[k]].classId == c && Filed(f, els0, h, count, keys, it[k], c)
    requires forall x :: 0 <= x < |els| && x != it[k] ==> els'[x].classId == els[x].classId
    ensures Moved(f, els0, els', it, k + 1, h, count, keys)
  {
    assert it[..k+1] == it[..k] + [it[k]];
  }

  lemma EntriesBelow(f: Fst<Weight>, hts: seq<int>, els: seq<Element>, h: nat, keys: seq<nat>)
    requires Entries(f, hts, els, h, keys)
    ensures forall i :: 0 <= i < |keys| ==> keys[i] < |f.states|
  {
  }

  /** The lookup made while the level is moving finds what it would have found before. */
  lemma FoundEntry(f: Fst<Weight>, hts: seq<int>, els0: seq<Element>, els: seq<Element>, it: seq<nat>, k: nat, h: nat,
                   count: nat, keys: seq<nat>, j: nat)
    requires Heights(f, hts) && |els0| == |f.states| == |hts| && Entries(f, hts, els0, h, keys) && k < |it| && h < count
    requires forall l :: 0 <= l < |it| ==> it[l] < |f.states| && hts[it[l]] == h
    requires HasKey(f, els0, keys, it[k]) && Moved(f, els0, els, it, k, h, count, keys)
    requires j <= |keys| && forall i :: 0 <= i < j ==> !SameKeys(f, els, keys[i], it[k])
    requires j < |keys| ==> SameKeys(f, els, it[k], keys[j])
    ensures j < |keys| && Filed(f, els0, h, count, keys, it[k], EntryClass(h, count, j))
            && EntryClass(h, count, j) < count + |keys| - 1
  {
    forall z | 0 <= z < |els0| && hts[z] < h ensures els[z].classId == els0[z].classId {
      assert z !in it[..k];
    }
    forall i | 0 <= i < |keys| ensures SameKeys(f, els, it[k], keys[i]) <==> SameKeys(f, els0, it[k], keys[i]) {
      KeyStable(f, hts, els0, els, h, it[k], keys[i]);
    }
    var i :| 0 <= i < |keys| && SameKeys(f, els0, it[k], keys[i]);
    if i < j {
      SameKeysSymmetric(f, els, it[k], keys[i]);
    }
    assert SameKeys(f, els0, it[k], keys[j]);
  }

  /** The partition shows the classes described by `RefinedTo`. */
  ghost predicate Levels(f: Fst<Weight>, hts: seq<int>, partition: Partition, top: nat, h: nat)
    reads partition
  {
    && partition.Valid() && partition.visitedClasses == []
      && RefinedTo(f, hts, partition.elements, |partition.classes|, top, h)
    && forall x :: x in partition.added <==> 0 <= x < |f.states|
  }

  /** The members of class `h` are the states of level `h`. */
  lemma LevelMembers(f: Fst<Weight>, hts: seq<int>, partition: Partition, top: nat, h: nat)
    requires Levels(f, hts, partition, top, h) && h < top
    ensures h < |partition.no| && h < |partition.classes| && |hts| == |partition.elements| == |f.states|
    ensures partition.no[h] != [] && Distinct(partition.no[h])
    ensures forall x :: 0 <= x < |f.states| ==> (x in partition.no[h] <==> hts[x] == h)
    ensures forall k :: 0 <= k < |partition.no[h]| ==>
         var x := partition.no[h][k]; x < |f.states| && hts[x] == h && x in partition.added
  {
    partition.ClassMembers(h);
    assert Inhabited(partition.elements, h);
    var x :| 0 <= x < |partition.elements| && partition.elements[x].classId == h;
    assert partition.ClassOf(x) == h;
    assert forall k :: 0 <= k < |partition.no[h]| ==> partition.no[h][k] in partition.no[h];
  }

  method RefineLevel(f: Fst<Weight>, partition: Partition, h: nat, ghost hts: seq<int>, ghost top: nat)
    requires Layered(f, hts) && Levels(f, hts, partition, top, h) && h < top
    modifies partition
    ensures Levels(f, hts, partition, top, h + 1)
  {
    hide Rep, RefinedTo, Entries, Filed, HasKey;
    LevelMembers(f, hts, partition, top, h);
    ghost var els, count := partition.elements, |partition.classes|;
    var it := partition.Iter(h);
    var keys, ids := FileLevel(f, partition, it, h, hts);
    MoveLevel(f, partition, it, h, keys, ids, hts, count);
    assert it[..|it|] == it;
    LevelDone(f, hts, els, partition.elements, count, top, h, keys);
  }

  // ------------------------------------------------ the whole pass

  method MaxHeight(heights: seq<int>) returns (m: int)
    requires heights != []
    ensures m in heights && forall s :: 0 <= s < |heights| ==> heights[s] <= m
  {
    m := heights[0];
    for i := 1 to |heights|
      invariant m in heights && forall s :: 0 <= s < i ==> heights[s] <= m
    {
      if heights[i] >= m {
        m := heights[i];
      }
    }
  }

  method AddAll(partition: Partition, heights: seq<int>)
    requires partition.Valid() && partition.visitedClasses == [] && partition.added == {}
             && |partition.elements| == |heights|
    requires forall s :: 0 <= s < |heights| ==> 0 <= heights[s] < |partition.classes|
    modifies partition
    ensures partition.Valid() && partition.visitedClasses == [] && |partition.elements| == |heights|
    ensures |partition.classes| == old(|partition.classes|) && forall x :: x in partition.added <==> 0 <= x < |heights|
    ensures forall x :: 0 <= x < |heights| ==> partition.elements[x].classId == heights[x]
  {
    hide Rep;
    for s := 0 to |heights|
      invariant partition.Valid() && partition.visitedClasses == [] && |partition.elements| == |heights|
      invariant |partition.classes| == old(|partition.classes|) && forall x :: x in partition.added <==> 0 <= x < s
      invariant forall x :: 0 <= x < s ==> partition.ClassOf(x) == heights[x]
    {
      partition.Add(s, heights[s]);
    }
    assert forall x :: 0 <= x < |heights| ==> partition.ClassOf(x) == partition.elements[x].classId;
  }

  /** One class per height. */
  method Initialize(f: Fst<Weight>, heights: seq<int>) returns (partition: Partition, top: nat)
    requires Heights(f, heights) && 0 < |f.states| <= MAX_ELEMENTS
    ensures fresh(partition) && Levels(f, heights, partition, top, 0)
  {
    var m := MaxHeight(heights);
    var deepest :| 0 <= deepest < |heights| && heights[deepest] == m;
    forall x | 0 <= x < |heights| ensures heights[x] >= 0 {
      HeightNonNegative(f, heights, x);
    }
    top := m + 1;
    assert |heights| == |f.states|;
    hide Rep, Heights, RefinedTo;
    partition := new Partition(|heights|);
    partition.AllocateClasses(top);
    AddAll(partition, heights);
    InitialLevels(f, heights, partition.elements, deepest, top);
  }

  lemma HeightNonNegative(f: Fst<Weight>, heights: seq<int>, s: nat)
    requires Heights(f, heights) && s < |f.states|
    ensures heights[s] >= 0
  {
    assert HeightAt(f, heights, s);
  }

  lemma InitialLevels(f: Fst<Weight>, heights: seq<int>, els: seq<Element>, deepest: nat, top: nat)
    requires Heights(f, heights) && |els| == |heights| && deepest < |heights| && top == heights[deepest] + 1
    requires forall x :: 0 <= x < |els| ==> els[x].classId == heights[x] < top
    ensures RefinedTo(f, heights, els, top, top, 0)
  {
    forall x | 0 <= x < |els| ensures heights[x] >= 0 {
      HeightNonNegative(f, heights, x);
    }
    forall c: nat | c < top ensures Inhabited(els, c) {
      var t := LevelsFilled(f, heights, deepest, c);
      assert els[t].classId == c;
    }
  }

  /** Revuz minimization of a trim, acyclic, label-sorted automaton: classes are right languages. */
  method AcyclicMinimize(f: Fst<Weight>) returns (partition: Partition)
    requires Automaton(f) && Acyclic(f) && Trim(f) && ILabelSorted(f) && UnitFinals(f) && f.start.Some?
    ensures fresh(partition) && partition.Valid() && partition.visitedClasses == []
    ensures |partition.elements| == |f.states| && AllNonEmpty(partition.classes)
    ensures forall x :: x in partition.added <==> 0 <= x < |f.states|
    ensures forall p: nat, q: nat :: p < |f.states| && q < |f.states| ==>
        (partition.ClassOf(p) == partition.ClassOf(q) <==> Nerode(f, p, q))
  {
    var heights := DepthFromStart(f);
    var top;
    partition, top := Initialize(f, heights);
    assert Layered(f, heights);
    hide Layered, Levels;
    for h := 0 to top
      invariant fresh(partition) && Levels(f, heights, partition, top, h)
    {
      RefineLevel(f, partition, h, heights, top);
    }
    LevelsDone(f, heights, partition, top);
  }

  lemma LevelsDone(f: Fst<Weight>, hts: seq<int>, partition: Partition, top: nat)
    requires Levels(f, hts, partition, top, top)
    ensures partition.Valid() && partition.visitedClasses == [] && |partition.elements| == |f.states|
            && AllNonEmpty(partition.classes)
    ensures forall x :: x in partition.added <==> 0 <= x < |f.states|
    ensures forall p: nat, q: nat :: p < |f.states| && q < |f.states| ==>
        (partition.ClassOf(p) == partition.ClassOf(q) <==> Nerode(f, p, q))
  {
    forall c | 0 <= c < |partition.classes| ensures partition.classes[c].size > 0 {
      assert Inhabited(partition.elements, c);
      var x :| 0 <= x < |partition.elements| && partition.elements[x].classId == c;
      partition.Member(x, x);
    }
  }
}
