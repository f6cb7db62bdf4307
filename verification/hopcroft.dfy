/** The cyclic branch of `minimize.rs`: Hopcroft's worklist refinement. */
module Hopcroft {
  import opened Fsts
  import opened Weights
  import opened Acceptors
  import opened Partitions
  import opened Reverses
  import opened TrSorts

  // ------------------------------------------------ invariants of a partition

  /** States of one class agree on finality and on the labels they can read. */
  ghost predicate Coherent(f: Fst<Weight>, els: seq<Element>)
    requires |els| == |f.states|
  {
    && (forall p: nat, q: nat :: p < |els| && q < |els| && els[p].classId == els[q].classId ==>
        IsFinal(f, p) == IsFinal(f, q))
    && (forall p: nat, q: nat, a: Label, t: nat ::
          p < |els| && q < |els| && els[p].classId == els[q].classId && Step(f, p, a, t) ==>
            exists u :: Step(f, q, a, u))
  }

  /** If two states of one class step on one label to different classes, one of
      these classes is queued or the class being processed tells the targets apart. */
  ghost predicate Cover(f: Fst<Weight>, els: seq<Element>, queue: seq<nat>, splitter: set<nat>)
    requires |els| == |f.states|
  {
    forall p: nat, q: nat, a: Label, t: nat, u: nat ::
      p < |els| && q < |els| && els[p].classId == els[q].classId
      && Step(f, p, a, t) && Step(f, q, a, u) && t < |els| && u < |els| ==>
        || els[t].classId == els[u].classId
        || els[t].classId in queue || els[u].classId in queue
        || ((t in splitter) != (u in splitter))
  }

  /** Whatever word is read from both, they end in states of equal finality and equal key. */
  ghost predicate Kindred(f: Fst<Weight>, p: nat, q: nat) {
    forall w, t: nat, u: nat :: ReadsTo(f, p, w, t) && ReadsTo(f, q, w, u) && t < |f.states| && u < |f.states|
                                ==> IsFinal(f, t) == IsFinal(f, u) && Key(f, t) == Key(f, u)
  }

  /** No class separates kindred states. */
  ghost predicate KeepsKindred(f: Fst<Weight>, els: seq<Element>) {
    forall p: nat, q: nat :: p < |els| && q < |els| && |els| == |f.states| && Kindred(f, p, q)
      ==> els[p].classId == els[q].classId
  }

  ghost predicate ClosedUnderKindred(f: Fst<Weight>, n: nat, splitter: set<nat>) {
    forall p: nat, q: nat :: p in splitter && q < n && Kindred(f, p, q) ==> q in splitter
  }

  lemma KindredSymmetric(f: Fst<Weight>, p: nat, q: nat)
    requires Kindred(f, p, q)
    ensures Kindred(f, q, p)
  {
  }

  lemma KindredHere(f: Fst<Weight>, p: nat, q: nat)
    requires Kindred(f, p, q) && p < |f.states| && q < |f.states|
    ensures IsFinal(f, p) == IsFinal(f, q) && Key(f, p) == Key(f, q)
  {
    assert ReadsTo(f, p, [], p) && ReadsTo(f, q, [], q);
  }

  lemma ReadsStep(f: Fst<Weight>, s: nat, a: Label, m: nat, w: seq<Label>, t: nat)
    requires Step(f, s, a, m) && ReadsTo(f, m, w, t)
    ensures ReadsTo(f, s, [a] + w, t)
  {
    assert ([a] + w)[1..] == w;
  }

  /** Kindred states step, on the same labels, to kindred states. */
  lemma KindredStep(f: Fst<Weight>, p: nat, q: nat, a: Label, t: nat) returns (u: nat)
    requires Kindred(f, p, q) && p < |f.states| && q < |f.states| && Step(f, p, a, t)
    ensures Step(f, q, a, u) && Kindred(f, t, u)
  {
    KindredHere(f, p, q);
    KeySteps(f, p, a);
    KeySteps(f, q, a);
    u :| Step(f, q, a, u);
    forall w, x: nat, y: nat | ReadsTo(f, t, w, x) && ReadsTo(f, u, w, y) && x < |f.states| && y < |f.states|
      ensures IsFinal(f, x) == IsFinal(f, y) && Key(f, x) == Key(f, y)
    {
      ReadsStep(f, p, a, t, w, x);
      ReadsStep(f, q, a, u, w, y);
    }
  }

  /** Where keys agree on equivalent states, equivalent states are kindred. */
  lemma {:induction false} NerodeReads(f: Fst<Weight>, p: nat, q: nat, w: seq<Label>, t: nat, u: nat)
    requires WellFormed(f) && Deterministic(f) && AllCoAccessible(f) && Nerode(f, p, q)
    requires ReadsTo(f, p, w, t) && ReadsTo(f, q, w, u)
    ensures Nerode(f, t, u)
    decreases |w|
  {
    if w != [] {
      var m: nat :| Step(f, p, w[0], m) && ReadsTo(f, m, w[1..], t);
      var n: nat :| Step(f, q, w[0], n) && ReadsTo(f, n, w[1..], u);
      var n' := NerodeStep(f, p, q, w[0], m);
      StepUnique(f, q, w[0], n, n');
      NerodeReads(f, m, n, w[1..], t, u);
    }
  }

  lemma NerodeKindred(f: Fst<Weight>, p: nat, q: nat)
    requires WellFormed(f) && Deterministic(f) && AllCoAccessible(f) && KeysAgree(f) && Nerode(f, p, q)
    ensures Kindred(f, p, q)
  {
    hide Key;
    forall w, t: nat, u: nat | ReadsTo(f, p, w, t) && ReadsTo(f, q, w, u) && t < |f.states| && u < |f.states|
      ensures IsFinal(f, t) == IsFinal(f, u) && Key(f, t) == Key(f, u)
    {
      NerodeReads(f, p, q, w, t, u);
      assert Accepts(f, t, []) <==> Accepts(f, u, []);
    }
  }

  /** `s` has an arc labelled `a` into the splitter. */
  ghost predicate Pre(f: Fst<Weight>, splitter: set<nat>, a: Label, s: nat) {
    exists t :: t in splitter && Step(f, s, a, t)
  }

  /** Below label `cur` no class is cut by the splitter. */
  ghost predicate StableBelow(f: Fst<Weight>, els: seq<Element>, splitter: set<nat>, cur: int) {
    forall a: Label, p: nat, q: nat ::
      a < cur && p < |els| && q < |els| && els[p].classId == els[q].classId && Pre(f, splitter, a, p) ==>
        Pre(f, splitter, a, q)
  }

  // ------------------------------------------------ the effect of one split

  lemma SplitKeepsCover(f: Fst<Weight>, els: seq<Element>, els': seq<Element>, added: set<nat>, marked: set<nat>,
                        n0: nat, n: nat, queue: seq<nat>, splitter: set<nat>)
    requires |els| == |els'| == |f.states| && (forall x :: x in added <==> 0 <= x < |els|)
    requires SplitBy(els, els', added, marked, n0)
    requires n0 <= n && forall x :: 0 <= x < |els| ==> els'[x].classId < n
    requires Cover(f, els, queue, splitter)
    ensures Cover(f, els', queue + IdsFrom(n0, n), splitter)
  {
    var queue' := queue + IdsFrom(n0, n);
    QueueGrows(queue, n0, n);
    forall p: nat, q: nat, a: Label, t: nat, u: nat |
      p < |els'| && q < |els'| && els'[p].classId == els'[q].classId
      && Step(f, p, a, t) && Step(f, q, a, u) && t < |els'| && u < |els'| && els'[t].classId != els'[u].classId
      && !((t in splitter) != (u in splitter))
      ensures els'[t].classId in queue' || els'[u].classId in queue'
    {
      assert p in added && q in added && t in added && u in added;
      assert els[p].classId == els[q].classId;
    }
  }

  lemma QueueGrows(queue: seq<nat>, n0: nat, n: nat)
    requires n0 <= n
    ensures var queue' := queue + IdsFrom(n0, n);
            (forall c :: n0 <= c < n ==> c in queue') && forall c :: c in queue ==> c in queue'
  {
    var queue' := queue + IdsFrom(n0, n);
    forall c | n0 <= c < n ensures c in queue' {
      assert queue'[|queue| + (c - n0)] == c;
    }
  }

  lemma SplitKeepsCoherent(f: Fst<Weight>, els: seq<Element>, els': seq<Element>, added: set<nat>, marked: set<nat>,
                           n0: nat)
    requires |els| == |els'| == |f.states| && (forall x :: x in added <==> 0 <= x < |els|)
    requires SplitBy(els, els', added, marked, n0)
    ensures Coherent(f, els) ==> Coherent(f, els')
  {
    forall p: nat, q: nat | p < |els| && q < |els| && els'[p].classId == els'[q].classId
      ensures els[p].classId == els[q].classId
    {
      assert p in added && q in added;
    }
  }

  /** The marked states are those with a `cur`-arc into the splitter, up to singleton classes. */
  ghost predicate MarksPre(f: Fst<Weight>, els: seq<Element>, marked: set<nat>, splitter: set<nat>, cur: int)
    requires |els| == |f.states|
  {
    && (forall p: nat :: p in marked ==> 0 <= cur < 0x1_0000_0000 && Pre(f, splitter, cur, p))
    && (0 <= cur < 0x1_0000_0000 ==>
          forall p: nat :: p < |els| && p !in marked && Pre(f, splitter, cur, p) ==> Alone(f, els, p))
  }

  lemma SplitMakesStable(f: Fst<Weight>, els: seq<Element>, els': seq<Element>, added: set<nat>, marked: set<nat>,
                         n0: nat, splitter: set<nat>, cur: int, next: int)
    requires |els| == |els'| == |f.states| && (forall x :: x in added <==> 0 <= x < |els|)
    requires SplitBy(els, els', added, marked, n0)
    requires StableBelow(f, els, splitter, cur) && MarksPre(f, els, marked, splitter, cur)
    requires forall a: Label, p: nat :: cur < a < next && p < |els| ==> !Pre(f, splitter, a, p)
    ensures StableBelow(f, els', splitter, next)
  {
    forall a: Label, p: nat, q: nat | a < next && p < |els| && q < |els| && els'[p].classId == els'[q].classId
      && Pre(f, splitter, a, p)
      ensures Pre(f, splitter, a, q)
    {
      assert p in added && q in added;
      assert els[p].classId == els[q].classId && (p in marked <==> q in marked);
    }
  }

  lemma SplitKeepsKindred(f: Fst<Weight>, els: seq<Element>, els': seq<Element>, added: set<nat>, marked: set<nat>,
                          n0: nat, splitter: set<nat>, cur: int)
    requires WellFormed(f)
    requires |els| == |els'| == |f.states| && (forall x :: x in added <==> 0 <= x < |els|)
    requires SplitBy(els, els', added, marked, n0)
    requires MarksPre(f, els, marked, splitter, cur)
    requires KeepsKindred(f, els) && ClosedUnderKindred(f, |els|, splitter)
    ensures KeepsKindred(f, els')
  {
    hide Kindred;
    forall p: nat, q: nat | p < |els| && q < |els| && Kindred(f, p, q)
      ensures p in marked ==> q in marked
    {
      if p in marked {
        PreKindred(f, splitter, cur, p, q);
      }
    }
    forall p: nat, q: nat | p < |els| && q < |els| && Kindred(f, p, q)
      ensures els'[p].classId == els'[q].classId
    {
      KindredSymmetric(f, p, q);
      assert p in added && q in added;
    }
  }

  lemma PreKindred(f: Fst<Weight>, splitter: set<nat>, a: Label, p: nat, q: nat)
    requires WellFormed(f) && p < |f.states| && q < |f.states|
    requires ClosedUnderKindred(f, |f.states|, splitter)
    requires Pre(f, splitter, a, p) && Kindred(f, p, q)
    ensures Pre(f, splitter, a, q)
  {
    hide Kindred;
    var t :| t in splitter && Step(f, p, a, t);
    var u := KindredStep(f, p, q, a, t);
  }

  // ------------------------------------------------ what an empty queue means

  /** The splitter is exhausted once every label is stable. */
  lemma SplitterDone(f: Fst<Weight>, els: seq<Element>, queue: seq<nat>, splitter: set<nat>)
    requires |els| == |f.states| && Deterministic(f)
    requires Cover(f, els, queue, splitter) && StableBelow(f, els, splitter, 0x1_0000_0000)
    ensures Cover(f, els, queue, {})
  {
    forall p: nat, q: nat, a: Label, t: nat, u: nat | p < |els| && q < |els| && els[p].classId == els[q].classId
      && Step(f, p, a, t) && Step(f, q, a, u) && t < |els| && u < |els|
      ensures t in splitter ==> u in splitter
    {
      if t in splitter {
        assert Pre(f, splitter, a, p);
        var u' :| u' in splitter && Step(f, q, a, u');
        StepUnique(f, q, a, u, u');
      }
    }
  }

  lemma {:induction false} ClassesAreNerode(f: Fst<Weight>, els: seq<Element>, p: nat, q: nat, w: seq<Label>)
    requires WellFormed(f) && |els| == |f.states|
    requires Coherent(f, els) && Cover(f, els, [], {})
    requires p < |els| && q < |els| && els[p].classId == els[q].classId && Accepts(f, p, w)
    ensures Accepts(f, q, w)
    decreases |w|
  {
    if w != [] {
      assert w == [w[0]] + w[1..];
      var t := StepOfAccepts(f, p, w[0], w[1..]);
      var u :| Step(f, q, w[0], u);
      ClassesAreNerode(f, els, t, u, w[1..]);
      AcceptsStep(f, q, w[0], u, w[1..]);
    }
  }

  /** States of one class are kindred. */
  lemma {:induction false} ClassesAreKindred(f: Fst<Weight>, els: seq<Element>, p: nat, q: nat, w: seq<Label>, t: nat,
                                             u: nat)
    requires WellFormed(f) && |els| == |f.states|
    requires Coherent(f, els) && Keyed(f, els) && Cover(f, els, [], {})
    requires p < |els| && q < |els| && els[p].classId == els[q].classId
    requires ReadsTo(f, p, w, t) && ReadsTo(f, q, w, u) && t < |els| && u < |els|
    ensures IsFinal(f, t) == IsFinal(f, u) && Key(f, t) == Key(f, u)
    decreases |w|
  {
    hide Key, Coherent, Keyed, Cover, Step, WellFormed;
    if w == [] {
      ClassFacts(f, els, p, q);
    } else {
      var m: nat :| Step(f, p, w[0], m) && ReadsTo(f, m, w[1..], t);
      var n: nat :| Step(f, q, w[0], n) && ReadsTo(f, n, w[1..], u);
      ClassStep(f, els, p, q, w[0], m, n);
      ClassesAreKindred(f, els, m, n, w[1..], t, u);
    }
  }

  lemma ClassFacts(f: Fst<Weight>, els: seq<Element>, p: nat, q: nat)
    requires |els| == |f.states| && Coherent(f, els) && Keyed(f, els)
    requires p < |els| && q < |els| && els[p].classId == els[q].classId
    ensures IsFinal(f, p) == IsFinal(f, q) && Key(f, p) == Key(f, q)
  {
    hide Key;
  }

  lemma ClassStep(f: Fst<Weight>, els: seq<Element>, p: nat, q: nat, a: Label, m: nat, n: nat)
    requires WellFormed(f) && |els| == |f.states| && Cover(f, els, [], {})
    requires p < |els| && q < |els| && els[p].classId == els[q].classId && Step(f, p, a, m) && Step(f, q, a, n)
    ensures m < |els| && n < |els| && els[m].classId == els[n].classId
  {
  }

  // ------------------------------------------------ the initial partition

  function Labels(trs: seq<Tr<Weight>>): seq<Label> {
    seq(|trs|, i requires 0 <= i < |trs| => trs[i].ilabel)
  }

  predicate Increasing(l: seq<Label>) {
    forall i, j :: 0 <= i < j < |l| ==> l[i] < l[j]
  }

  lemma {:induction false} DedupIncreasing(l: seq<Label>)
    requires Increasing(l)
    ensures Dedup(l) == l
  {
    if |l| >= 2 {
      assert l == [l[0]] + l[1..];
      DedupIncreasing(l[1..]);
    }
  }

  /** An increasing sequence is determined by its elements. */
  lemma {:induction false} IncreasingUnique(k: seq<Label>, l: seq<Label>)
    requires Increasing(k) && Increasing(l) && forall a: Label :: a in k <==> a in l
    ensures k == l
  {
    assert |l| > 0 ==> l[0] in l;
    if k != [] {
      assert k[0] in l;
      assert l[0] in k;
      assert k == [k[0]] + k[1..] && l == [l[0]] + l[1..];
      assert k[0] == l[0];
      forall a: Label ensures a in k[1..] <==> a in l[1..] {
        assert a in k <==> a in l;
      }
      IncreasingUnique(k[1..], l[1..]);
    }
  }

  function Key(f: Fst<Weight>, s: nat): seq<Label>
    requires s < |f.states|
  {
    Dedup(Labels(f.states[s].trs))
  }

  lemma KeySteps(f: Fst<Weight>, s: nat, a: Label)
    requires s < |f.states|
    ensures a in Key(f, s) <==> exists t :: Step(f, s, a, t)
  {
    var l := Labels(f.states[s].trs);
    DedupElements(l);
    if a in l {
      var i :| 0 <= i < |l| && l[i] == a;
      assert Step(f, s, a, f.states[s].trs[i].nextstate);
    }
    if t :| Step(f, s, a, t) {
      var i :| 0 <= i < |f.states[s].trs| && f.states[s].trs[i].ilabel == a && f.states[s].trs[i].nextstate == t;
      assert l[i] == a;
    }
  }

  /** On label-sorted arcs equal right languages give equal keys. */
  lemma NerodeKey(f: Fst<Weight>, p: nat, q: nat)
    requires WellFormed(f) && Deterministic(f) && AllCoAccessible(f) && ILabelSorted(f)
    requires p < |f.states| && q < |f.states| && Nerode(f, p, q)
    ensures Key(f, p) == Key(f, q) && IsFinal(f, p) == IsFinal(f, q)
            && Labels(f.states[p].trs) == Labels(f.states[q].trs)
  {
    assert Accepts(f, p, []) <==> Accepts(f, q, []);
    forall a: Label ensures a in Key(f, p) <==> a in Key(f, q) {
      KeySteps(f, p, a);
      KeySteps(f, q, a);
      if t :| Step(f, p, a, t) {
        var u := NerodeStep(f, p, q, a, t);
      }
      if t :| Step(f, q, a, t) {
        assert Nerode(f, q, p);
        var u := NerodeStep(f, q, p, a, t);
      }
    }
    assert LabelSorted(f.states[p].trs) && LabelSorted(f.states[q].trs);
    DedupIncreasing(Labels(f.states[p].trs));
    DedupIncreasing(Labels(f.states[q].trs));
    IncreasingUnique(Key(f, p), Key(f, q));
  }

  /** Equivalent states have one key; so it is on sorted arcs. */
  ghost predicate KeysAgree(f: Fst<Weight>) {
    forall p: nat, q: nat :: p < |f.states| && q < |f.states| && Nerode(f, p, q) ==> Key(f, p) == Key(f, q)
  }

  lemma SortedKeysAgree(f: Fst<Weight>)
    requires WellFormed(f) && Deterministic(f) && AllCoAccessible(f) && ILabelSorted(f)
    ensures KeysAgree(f)
  {
    forall p: nat, q: nat | p < |f.states| && q < |f.states| && Nerode(f, p, q) ensures Key(f, p) == Key(f, q) {
      NerodeKey(f, p, q);
    }
  }

  /** States of one class have one key. */
  ghost predicate Keyed(f: Fst<Weight>, els: seq<Element>)
    requires |els| == |f.states|
  {
    forall p: nat, q: nat :: p < |els| && q < |els| && els[p].classId == els[q].classId ==> Key(f, p) == Key(f, q)
  }

  lemma SplitKeepsKeyed(f: Fst<Weight>, els: seq<Element>, els': seq<Element>, added: set<nat>, marked: set<nat>,
                        n0: nat)
    requires |els| == |els'| == |f.states| && (forall x :: x in added <==> 0 <= x < |els|)
    requires SplitBy(els, els', added, marked, n0) && Keyed(f, els)
    ensures Keyed(f, els')
  {
    hide Key;
    forall p: nat, q: nat | p < |els| && q < |els| && els'[p].classId == els'[q].classId
      ensures els[p].classId == els[q].classId {
      assert p in added && q in added;
    }
  }

  /** Two states start in one class iff they agree on finality and on the label key. */
  ghost predicate InitialClasses(f: Fst<Weight>, init: seq<nat>, n: nat)
    requires n <= |init| == |f.states|
  {
    forall s, t :: 0 <= s < n && 0 <= t < n ==>
      (init[s] == init[t] <==> IsFinal(f, s) == IsFinal(f, t) && Key(f, s) == Key(f, t))
  }

  method InitialClassIds(f: Fst<Weight>) returns (init: seq<nat>, nextClass: nat)
    ensures |init| == |f.states| && InitialClasses(f, init, |f.states|)
    ensures forall s :: 0 <= s < |init| ==> init[s] < nextClass
    ensures forall c :: 0 <= c < nextClass ==> c in init
  {
    hide Key;
    var n := |f.states|;
    init, nextClass := seq(n, _ => 0), 0;
    var hashFinal: map<seq<Label>, nat>, hashNonFinal: map<seq<Label>, nat> := map[], map[];
    for s := 0 to n
      invariant |init| == n && InitialClasses(f, init, s)
      invariant forall t :: 0 <= t < s ==> init[t] < nextClass
      invariant forall c :: 0 <= c < nextClass ==> c in init[..s]
      invariant forall t :: 0 <= t < s ==>
           var m := if IsFinal(f, t) then hashFinal else hashNonFinal; Key(f, t) in m && m[Key(f, t)] == init[t]
      invariant forall k :: k in hashFinal ==> exists t :: 0 <= t < s && IsFinal(f, t) && Key(f, t) == k
      invariant forall k :: k in hashNonFinal ==> exists t :: 0 <= t < s && !IsFinal(f, t) && Key(f, t) == k
    {
      var ilabels := Key(f, s);
      var thisMap := if f.states[s].finalWeight.Some? then hashFinal else hashNonFinal;
      ghost var init0 := init;
      if ilabels in thisMap {
        init := init[s := thisMap[ilabels]];
      } else {
        init := init[s := nextClass];
        if f.states[s].finalWeight.Some? {
          hashFinal := hashFinal[ilabels := nextClass];
        } else {
          hashNonFinal := hashNonFinal[ilabels := nextClass];
        }
        nextClass := nextClass + 1;
      }
      assert init[..s+1] == init0[..s] + [init[s]];
    }
    assert init[..n] == init;
  }

  method PrePartition(f: Fst<Weight>, partition: Partition) returns (queue: seq<nat>)
    requires partition.Valid() && |partition.elements| == |f.states|
    requires partition.classes == [] && partition.added == {} && partition.visitedClasses == []
    modifies partition
    ensures partition.Valid() && |partition.elements| == |f.states| && partition.visitedClasses == []
    ensures forall x :: x in partition.added <==> 0 <= x < |f.states|
    ensures AllNonEmpty(partition.classes) && partition.Marked() == {}
    ensures forall s, t :: 0 <= s < |f.states| && 0 <= t < |f.states| ==>
              (partition.ClassOf(s) == partition.ClassOf(t) <==>
                 IsFinal(f, s) == IsFinal(f, t) && Key(f, s) == Key(f, t))
    ensures queue == seq(|partition.classes|, c requires 0 <= c => c) && partition.moves == old(partition.moves)
  {
    hide Rep, Key;
    var init, nextClass := InitialClassIds(f);
    partition.AllocateClasses(nextClass);
    for s := 0 to |f.states|
      invariant partition.Valid() && |partition.elements| == |f.states| && |partition.classes| == nextClass
      invariant partition.visitedClasses == [] && partition.Marked() == {} && partition.moves == old(partition.moves)
      invariant forall x :: x in partition.added <==> 0 <= x < s
      invariant forall t :: 0 <= t < s ==> partition.ClassOf(t) == init[t]
    {
      partition.Add(s, init[s]);
    }
    forall c | 0 <= c < nextClass ensures partition.classes[c].size > 0 {
      assert c in init;
      var s :| 0 <= s < |init| && init[s] == c;
      partition.Member(s, s);
      assert partition.ClassOf(s) == c;
    }
    queue := [];
    for c := 0 to nextClass
      invariant queue == seq(c, d requires 0 <= d => d)
    {
      queue := queue + [c];
    }
  }

  // ------------------------------------------------ the k-way merge of arc lists

  datatype ArcIter = ArcIter(idx: nat, trs: seq<Tr<Weight>>)

  /** An iterator over sorted reversed arcs that lead into the splitter, none below `cur`. */
  ghost predicate IterOk(f: Fst<Weight>, it: ArcIter, splitter: set<nat>, cur: int) {
    && it.idx < |it.trs| && LabelSorted(it.trs)
    && forall j :: it.idx <= j < |it.trs| ==>
         && 1 <= it.trs[j].nextstate <= |f.states|
         && Pre(f, splitter, it.trs[j].ilabel, it.trs[j].nextstate - 1) && it.trs[j].ilabel >= cur
  }

  ghost predicate Ahead(it: ArcIter, a: Label, s: nat) {
    exists j :: it.idx <= j < |it.trs| && it.trs[j].ilabel == a && it.trs[j].nextstate == s + 1
  }

  /** Every arc into the splitter was visited or is still ahead of some iterator. */
  ghost predicate AllVisited(f: Fst<Weight>, heap: seq<ArcIter>, splitter: set<nat>, visited: set<(Label, nat)>) {
    forall a: Label, s: nat :: s < |f.states| && Pre(f, splitter, a, s) ==>
      (a, s) in visited || exists k :: 0 <= k < |heap| && Ahead(heap[k], a, s)
  }

  ghost predicate VisitedOk(f: Fst<Weight>, splitter: set<nat>, visited: set<(Label, nat)>, cur: int) {
    forall x :: x in visited ==> x.1 < |f.states| && Pre(f, splitter, x.0, x.1) && x.0 <= cur
  }

  function Remaining(heap: seq<ArcIter>): nat {
    if heap == [] then 0
    else (if heap[0].idx < |heap[0].trs| then |heap[0].trs| - heap[0].idx else 0) + Remaining(heap[1..])
  }

  lemma {:induction false} RemainingWithout(heap: seq<ArcIter>, k: nat)
    requires k < |heap| && heap[k].idx < |heap[k].trs|
    ensures Remaining(heap) == Remaining(heap[..k] + heap[k+1..]) + |heap[k].trs| - heap[k].idx
  {
    var rest := heap[..k] + heap[k+1..];
    if k == 0 {
      assert rest == heap[1..];
    } else {
      RemainingWithout(heap[1..], k - 1);
      assert rest[1..] == heap[1..][..k-1] + heap[1..][k..] && rest[0] == heap[0];
    }
  }

  lemma {:induction false} RemainingPush(heap: seq<ArcIter>, it: ArcIter)
    requires it.idx < |it.trs|
    ensures Remaining(heap + [it]) == Remaining(heap) + |it.trs| - it.idx
  {
    if heap == [] {
    } else {
      RemainingPush(heap[1..], it);
      assert (heap + [it])[1..] == heap[1..] + [it];
    }
  }

  predicate Smallest(heap: seq<ArcIter>, k: nat) {
    && k < |heap| && heap[k].idx < |heap[k].trs|
    && forall j :: 0 <= j < |heap| && heap[j].idx < |heap[j].trs| ==>
         heap[k].trs[heap[k].idx].ilabel <= heap[j].trs[heap[j].idx].ilabel
  }

  lemma {:induction false} SmallestExists(heap: seq<ArcIter>) returns (k: nat)
    requires heap != [] && forall j :: 0 <= j < |heap| ==> heap[j].idx < |heap[j].trs|
    ensures Smallest(heap, k)
  {
    if |heap| == 1 {
      k := 0;
    } else {
      var m := SmallestExists(heap[1..]);
      assert forall j :: 1 <= j < |heap| ==> heap[j] == heap[1..][j-1];
      k := if heap[0].trs[heap[0].idx].ilabel <= heap[m+1].trs[heap[m+1].idx].ilabel then 0 else m + 1;
    }
  }

  // ------------------------------------------------ the main loop

  /** The cast of a label to a signed 32-bit number, under which the loop remembers it. */
  function AsI32(a: int): int {
    if a < 0x8000_0000 then a else a - 0x1_0000_0000
  }

  /** The partition of all states between two splits. */
  ghost predicate Refining(f: Fst<Weight>, partition: Partition, queue: seq<nat>, splitter: set<nat>)
    reads partition
  {
    && partition.Valid() && |partition.elements| == |f.states|
    && (forall x :: x in partition.added <==> 0 <= x < |f.states|)
    && AllNonEmpty(partition.classes)
    && Coherent(f, partition.elements) && Keyed(f, partition.elements)
    && Cover(f, partition.elements, queue, splitter)
    && KeepsKindred(f, partition.elements)
    && (forall c :: c in queue ==> c < |partition.classes|)
    && Budget(partition.elements, partition.classes, partition.added, partition.moves, |f.states|)
  }

  ghost predicate Automaton(f: Fst<Weight>) {
    WellFormed(f) && Deterministic(f) && AllCoAccessible(f) && |f.states| <= MAX_ELEMENTS
  }

  /** One call of `finalize_split` inside the loop, on the way from label `cur` to label `next`. */
  method Finalize(f: Fst<Weight>, partition: Partition, queue: seq<nat>, ghost splitter: set<nat>, ghost cur: int,
                  ghost next: int)
    returns (q: seq<nat>)
    requires Automaton(f) && Refining(f, partition, queue, splitter)
    requires ClosedUnderKindred(f, |f.states|, splitter)
    requires StableBelow(f, partition.elements, splitter, cur)
    requires MarksPre(f, partition.elements, partition.Marked(), splitter, cur)
    requires forall a: Label, p: nat :: cur < a < next && p < |f.states| ==> !Pre(f, splitter, a, p)
    modifies partition
    ensures Refining(f, partition, q, splitter) && partition.Marked() == {} && partition.visitedClasses == []
    ensures StableBelow(f, partition.elements, splitter, next)
    ensures |partition.classes| >= |old(partition.classes)|
    ensures q == queue + IdsFrom(|old(partition.classes)|, |partition.classes|)
  {
    hide Rep;
    ghost var els, n0, added, marked := partition.elements, |partition.classes|, partition.added, partition.Marked();
    ghost var classes, moves := partition.classes, partition.moves;
    q := partition.FinalizeSplit(queue);
    ghost var els', n := partition.elements, |partition.classes|;
    BudgetStep(els, classes, els', partition.classes, added, moves, |f.states|);
    forall x | 0 <= x < |els| ensures els'[x].classId < n {
      partition.Member(x, x);
    }
    SplitKeepsCover(f, els, els', added, marked, n0, n, queue, splitter);
    SplitKeepsCoherent(f, els, els', added, marked, n0);
    SplitKeepsKeyed(f, els, els', added, marked, n0);
    SplitMakesStable(f, els, els', added, marked, n0, splitter, cur, next);
    SplitKeepsKindred(f, els, els', added, marked, n0, splitter, cur);
  }

  /** Sorted reversed arcs: `rtrs[t]` holds the arcs into `t`, with sources shifted by one. */
  ghost predicate ReversedArcs(f: Fst<Weight>, rtrs: seq<seq<Tr<Weight>>>) {
    && |rtrs| == |f.states|
    && (forall t :: 0 <= t < |rtrs| ==> LabelSorted(rtrs[t]))
    && (forall t, j :: 0 <= t < |rtrs| && 0 <= j < |rtrs[t]| ==>
          1 <= rtrs[t][j].nextstate <= |f.states| && Step(f, rtrs[t][j].nextstate - 1, rtrs[t][j].ilabel, t))
    && (forall s: nat, a: Label, t: nat :: Step(f, s, a, t) && t < |f.states| ==> Ahead(ArcIter(0, rtrs[t]), a, s))
  }

  /** Sorting keeps the reversed arcs: each comes from an arc of `f` ... */
  lemma SortedSound(f: Fst<Weight>, r: Fst<Weight>, t: nat, j: nat)
    requires WellFormed(f) && IsReverse(f, r) && t < |f.states| && j < |SortTrs(r.states[t+1].trs)|
    ensures var tr := SortTrs(r.states[t+1].trs)[j];
            1 <= tr.nextstate <= |f.states| && Step(f, tr.nextstate - 1, tr.ilabel, t)
  {
    var trs, es := r.states[t+1].trs, AllEntering(f, t);
    EnteringExact(f, t, |f.states|, 0);
    assert Flipped(f, es, trs);
    var k := OriginalPosition(trs, j);
    assert es[k] in es;
  }

  /** ... and every arc of `f` is there. */
  lemma SortedComplete(f: Fst<Weight>, r: Fst<Weight>, s: nat, a: Label, t: nat)
    requires WellFormed(f) && IsReverse(f, r) && Step(f, s, a, t) && t < |f.states|
    ensures Ahead(ArcIter(0, SortTrs(r.states[t+1].trs)), a, s)
  {
    var trs, es := r.states[t+1].trs, AllEntering(f, t);
    EnteringExact(f, t, |f.states|, 0);
    assert Flipped(f, es, trs);
    var i :| 0 <= i < |f.states[s].trs| && f.states[s].trs[i].ilabel == a && f.states[s].trs[i].nextstate == t;
    assert Edge(s, i) in es;
    var k :| 0 <= k < |es| && es[k] == Edge(s, i);
    var j := SortedPosition(trs, k);
  }

  lemma SortedReverse(f: Fst<Weight>, r: Fst<Weight>, rtrs: seq<seq<Tr<Weight>>>)
    requires WellFormed(f) && IsReverse(f, r) && |rtrs| == |f.states|
    requires forall t :: 0 <= t < |f.states| ==> rtrs[t] == SortTrs(r.states[t+1].trs)
    ensures ReversedArcs(f, rtrs)
  {
    forall t | 0 <= t < |rtrs| ensures LabelSorted(rtrs[t]) {
      SortTrsSorted(r.states[t+1].trs);
    }
    forall t, j | 0 <= t < |rtrs| && 0 <= j < |rtrs[t]|
      ensures 1 <= rtrs[t][j].nextstate <= |f.states| && Step(f, rtrs[t][j].nextstate - 1, rtrs[t][j].ilabel, t)
    {
      SortedSound(f, r, t, j);
    }
    forall s: nat, a: Label, t: nat | Step(f, s, a, t) && t < |f.states| ensures Ahead(ArcIter(0, rtrs[t]), a, s) {
      SortedComplete(f, r, s, a, t);
    }
  }

  method CollectIters(f: Fst<Weight>, rtrs: seq<seq<Tr<Weight>>>, members: seq<nat>) returns (heap: seq<ArcIter>)
    requires ReversedArcs(f, rtrs) && forall x :: x in members ==> x < |f.states|
    ensures forall k :: 0 <= k < |heap| ==> IterOk(f, heap[k], set x | x in members, -1)
    ensures AllVisited(f, heap, set x | x in members, {})
  {
    heap := [];
    ghost var splitter := set x | x in members;
    for i := 0 to |members|
      invariant forall k :: 0 <= k < |heap| ==> IterOk(f, heap[k], splitter, -1)
      invariant forall m :: 0 <= m < i ==>
          members[m] < |rtrs| && (rtrs[members[m]] != [] ==> ArcIter(0, rtrs[members[m]]) in heap)
    {
      var s := members[i];
      assert s in members;
      if |rtrs[s]| > 0 {
        var it := ArcIter(0, rtrs[s]);
        assert IterOk(f, it, splitter, -1);
        heap := heap + [it];
      }
    }
    forall a: Label, s: nat | s < |f.states| && Pre(f, splitter, a, s)
      ensures exists k :: 0 <= k < |heap| && Ahead(heap[k], a, s)
    {
      var t :| t in splitter && Step(f, s, a, t);
      var m :| 0 <= m < |members| && members[m] == t;
      assert Ahead(ArcIter(0, rtrs[t]), a, s);
      assert ArcIter(0, rtrs[t]) in heap;
    }
  }

  /** When the smallest pending label is `next`, the visited arcs labelled `cur` are all there are. */
  lemma AtBoundary(f: Fst<Weight>, els: seq<Element>, marked: set<nat>, heap: seq<ArcIter>, splitter: set<nat>,
                   visited: set<(Label, nat)>, cur: int, next: int)
    requires cur < next && |els| == |f.states|
    requires AllVisited(f, heap, splitter, visited) && VisitedOk(f, splitter, visited, cur)
    requires forall k :: 0 <= k < |heap| ==> IterOk(f, heap[k], splitter, next)
    requires forall p: nat :: p in marked ==> 0 <= cur < 0x1_0000_0000 && (cur as Label, p) in visited
    requires forall x :: x in visited && x.0 == cur && x.1 !in marked ==> Alone(f, els, x.1)
    ensures MarksPre(f, els, marked, splitter, cur)
    ensures forall a: Label, p: nat :: cur < a < next && p < |f.states| ==> !Pre(f, splitter, a, p)
  {
    forall a: Label, p: nat | a < next && p < |f.states| && Pre(f, splitter, a, p) ensures (a, p) in visited {
      forall k | 0 <= k < |heap| ensures !Ahead(heap[k], a, p) {
        assert IterOk(f, heap[k], splitter, next);
      }
    }
  }

  /** The scan of one class: all labels below `cur` are settled, those at `cur` are marked as visited. */
  ghost predicate MergingArcs(f: Fst<Weight>, partition: Partition, heap: seq<ArcIter>, splitter: set<nat>,
                           visited: set<(Label, nat)>, cur: int)
    reads partition
  {
    && |partition.elements| == |f.states| && -1 <= cur < 0x1_0000_0000 && (cur == -1 ==> visited == {})
    && StableBelow(f, partition.elements, splitter, cur)
    && (forall k :: 0 <= k < |heap| ==> IterOk(f, heap[k], splitter, cur))
    && AllVisited(f, heap, splitter, visited) && VisitedOk(f, splitter, visited, cur)
    && (forall p: nat :: p in partition.Marked() ==> cur >= 0 && (cur as Label, p) in visited)
    && (forall x :: x in visited && x.0 == cur && x.1 !in partition.Marked() ==> Alone(f, partition.elements, x.1))
  }

  /** `s` is the only state of its class. */
  ghost predicate Alone(f: Fst<Weight>, els: seq<Element>, s: nat)
    requires |els| == |f.states|
  {
    s < |els| && forall q :: 0 <= q < |els| && els[q].classId == els[s].classId ==> q == s
  }

  /** The invariants speak of class ids only. */
  lemma SameIds(f: Fst<Weight>, els: seq<Element>, els': seq<Element>, queue: seq<nat>, splitter: set<nat>, cur: int)
    requires |els| == |els'| == |f.states| && forall x :: 0 <= x < |els| ==> els'[x].classId == els[x].classId
    ensures Coherent(f, els) ==> Coherent(f, els')
    ensures Cover(f, els, queue, splitter) ==> Cover(f, els', queue, splitter)
    ensures KeepsKindred(f, els) ==> KeepsKindred(f, els')
    ensures StableBelow(f, els, splitter, cur) ==> StableBelow(f, els', splitter, cur)
    ensures forall s :: Alone(f, els, s) ==> Alone(f, els', s)
  {
  }

  lemma BudgetSame(els: seq<Element>, classes: seq<Class>, els': seq<Element>, classes': seq<Class>, added: set<nat>,
                   moves: seq<nat>, n: nat)
    requires Budget(els, classes, added, moves, n) && |els'| == |els| && |classes'| == |classes|
    requires forall x :: 0 <= x < |els| ==> els'[x].classId == els[x].classId
    requires forall c :: 0 <= c < |classes| ==> classes'[c].size == classes[c].size
    ensures Budget(els', classes', added, moves, n)
  {
  }

  /** Moves the scan on to the smallest pending label, settling the marks if that is a new one. */
  method ReachLabel(f: Fst<Weight>, partition: Partition, queue: seq<nat>, prevLabel: int, fromLabel: Label,
                    ghost heap: seq<ArcIter>, ghost splitter: set<nat>, ghost visited: set<(Label, nat)>,
                    ghost cur: int)
    returns (q: seq<nat>)
    requires Automaton(f) && Refining(f, partition, queue, splitter)
    requires MergingArcs(f, partition, heap, splitter, visited, cur) && prevLabel == AsI32(cur)
    requires ClosedUnderKindred(f, |f.states|, splitter)
    requires forall k :: 0 <= k < |heap| ==> IterOk(f, heap[k], splitter, fromLabel)
    requires cur <= fromLabel
    modifies partition
    ensures Refining(f, partition, q, splitter) && MergingArcs(f, partition, heap, splitter, visited, fromLabel)
    ensures |partition.classes| >= |old(partition.classes)|
    ensures q == queue + IdsFrom(|old(partition.classes)|, |partition.classes|)
  {
    hide Rep, Pre, Cover, Coherent, KeepsKindred, Alone;
    q := queue;
    if cur < fromLabel {
      AtBoundary(f, partition.elements, partition.Marked(), heap, splitter, visited, cur, fromLabel);
    }
    if prevLabel != AsI32(fromLabel) {
      q := Finalize(f, partition, q, splitter, cur, fromLabel);
    }
  }

  lemma IterRaise(f: Fst<Weight>, it: ArcIter, splitter: set<nat>, cur: int, next: int)
    requires IterOk(f, it, splitter, cur) && next <= it.trs[it.idx].ilabel
    ensures IterOk(f, it, splitter, next)
  {
    forall j | it.idx <= j < |it.trs| ensures it.trs[j].ilabel >= next {
      assert j == it.idx || it.trs[it.idx].ilabel <= it.trs[j].ilabel;
    }
  }

  /** The heap hands out an iterator with the smallest current label; ties are free. */
  method PopSmallest(f: Fst<Weight>, heap: seq<ArcIter>, ghost splitter: set<nat>, ghost cur: int)
    returns (k: nat, aiter: ArcIter)
    requires heap != [] && forall j :: 0 <= j < |heap| ==> IterOk(f, heap[j], splitter, cur)
    ensures k < |heap| && aiter == heap[k] && aiter.idx < |aiter.trs| && cur <= aiter.trs[aiter.idx].ilabel
    ensures 1 <= aiter.trs[aiter.idx].nextstate <= |f.states|
    ensures Pre(f, splitter, aiter.trs[aiter.idx].ilabel, aiter.trs[aiter.idx].nextstate - 1)
    ensures forall j :: 0 <= j < |heap| ==> IterOk(f, heap[j], splitter, aiter.trs[aiter.idx].ilabel)
  {
    hide Pre;
    assert forall j :: 0 <= j < |heap| ==> heap[j].idx < |heap[j].trs| by {
      forall j | 0 <= j < |heap| ensures heap[j].idx < |heap[j].trs| {
        assert IterOk(f, heap[j], splitter, cur);
      }
    }
    ghost var smallest := SmallestExists(heap);
    k :| k < |heap| && Smallest(heap, k);
    assert Smallest(heap, k);
    aiter := heap[k];
    assert IterOk(f, aiter, splitter, cur);
    forall j | 0 <= j < |heap| ensures IterOk(f, heap[j], splitter, aiter.trs[aiter.idx].ilabel) {
      assert IterOk(f, heap[j], splitter, cur);
      IterRaise(f, heap[j], splitter, cur, aiter.trs[aiter.idx].ilabel);
    }
  }

  lemma AdvanceVisited(f: Fst<Weight>, heap: seq<ArcIter>, k: nat, heap': seq<ArcIter>, splitter: set<nat>,
                       visited: set<(Label, nat)>, a0: Label, s0: nat)
    requires k < |heap| && AllVisited(f, heap, splitter, visited) && heap[k].idx < |heap[k].trs|
    requires var tr := heap[k].trs[heap[k].idx]; tr.ilabel == a0 && tr.nextstate == s0 + 1
    requires var it := ArcIter(heap[k].idx + 1, heap[k].trs);
             heap' == heap[..k] + heap[k+1..] + if it.idx < |it.trs| then [it] else []
    ensures AllVisited(f, heap', splitter, visited + {(a0, s0)})
  {
    hide Pre;
    var it := ArcIter(heap[k].idx + 1, heap[k].trs);
    forall a: Label, s: nat | s < |f.states| && Pre(f, splitter, a, s) && (a, s) !in visited + {(a0, s0)}
      ensures exists j :: 0 <= j < |heap'| && Ahead(heap'[j], a, s)
    {
      var j :| 0 <= j < |heap| && Ahead(heap[j], a, s);
      if j == k {
        assert Ahead(it, a, s);
        assert heap'[|heap| - 1] == it;
      } else {
        assert heap'[if j < k then j else j - 1] == heap[j];
      }
    }
  }

  /** The chosen iterator steps over its arc and goes back to the heap unless it is done. */
  method Advance(f: Fst<Weight>, heap: seq<ArcIter>, k: nat, ghost splitter: set<nat>, ghost visited: set<(Label, nat)>,
                 ghost a0: Label, ghost s0: nat)
    returns (heap': seq<ArcIter>)
    requires k < |heap| && forall j :: 0 <= j < |heap| ==> IterOk(f, heap[j], splitter, a0)
    requires heap[k].idx < |heap[k].trs| &&
         var tr := heap[k].trs[heap[k].idx]; tr.ilabel == a0 && tr.nextstate == s0 + 1
    requires AllVisited(f, heap, splitter, visited)
    ensures forall j :: 0 <= j < |heap'| ==> IterOk(f, heap'[j], splitter, a0)
    ensures AllVisited(f, heap', splitter, visited + {(a0, s0)})
    ensures Remaining(heap') < Remaining(heap)
  {
    hide Pre, AllVisited;
    var aiter := heap[k];
    assert IterOk(f, aiter, splitter, a0);
    RemainingWithout(heap, k);
    heap' := heap[..k] + heap[k+1..];
    aiter := aiter.(idx := aiter.idx + 1);
    if aiter.idx < |aiter.trs| {
      RemainingPush(heap', aiter);
      heap' := heap' + [aiter];
    } else {
      assert heap' == heap' + [];
    }
    AdvanceVisited(f, heap, k, heap', splitter, visited, a0, s0);
  }

  /** Marks the source of one arc, unless it is alone in its class. */
  method VisitArc(f: Fst<Weight>, partition: Partition, fromState: nat, ghost fromLabel: Label, queue: seq<nat>,
                  ghost heap: seq<ArcIter>, ghost heap': seq<ArcIter>, ghost splitter: set<nat>,
                  ghost visited: set<(Label, nat)>)
    requires Refining(f, partition, queue, splitter) && MergingArcs(f, partition, heap, splitter, visited, fromLabel)
    requires fromState < |f.states| && Pre(f, splitter, fromLabel, fromState)
    requires AllVisited(f, heap', splitter, visited + {(fromLabel, fromState)})
    requires forall k :: 0 <= k < |heap'| ==> IterOk(f, heap'[k], splitter, fromLabel)
    modifies partition
    ensures Refining(f, partition, queue, splitter)
    ensures MergingArcs(f, partition, heap', splitter, visited + {(fromLabel, fromState)}, fromLabel)
    ensures |partition.classes| == |old(partition.classes)|
  {
    hide Rep, Pre, Cover, Coherent, KeepsKindred, StableBelow, Budget;
    ghost var els, classes := partition.elements, partition.classes;
    var fromClass := partition.ClassOf(fromState);
    partition.Member(fromState, fromState);
    if partition.classes[fromClass].size > 1 {
      partition.SplitOn(fromState);
    } else {
      forall q | 0 <= q < |els| && els[q].classId == els[fromState].classId ensures q == fromState {
        partition.Member(fromState, q);
      }
    }
    SameIds(f, els, partition.elements, queue, splitter, fromLabel);
    BudgetSame(els, classes, partition.elements, partition.classes, partition.added, partition.moves, |f.states|);
  }

  /** The last call of `finalize_split`: the class no longer tells any two classmates apart. */
  method FinishScan(f: Fst<Weight>, partition: Partition, queue: seq<nat>, ghost splitter: set<nat>,
                    ghost visited: set<(Label, nat)>, ghost cur: int)
    returns (q: seq<nat>)
    requires Automaton(f) && Refining(f, partition, queue, splitter)
             && MergingArcs(f, partition, [], splitter, visited, cur)
    requires ClosedUnderKindred(f, |f.states|, splitter)
    modifies partition
    ensures Refining(f, partition, q, {}) && partition.Marked() == {} && partition.visitedClasses == []
    ensures |partition.classes| >= |old(partition.classes)|
    ensures q == queue + IdsFrom(|old(partition.classes)|, |partition.classes|)
  {
    hide Rep, Pre, Cover, Coherent, KeepsKindred, Alone;
    AtBoundary(f, partition.elements, partition.Marked(), [], splitter, visited, cur, 0x1_0000_0000);
    q := Finalize(f, partition, queue, splitter, cur, 0x1_0000_0000);
    SplitterDone(f, partition.elements, q, splitter);
  }

  /** The scan starts with nothing visited and nothing marked. */
  lemma ScanStart(f: Fst<Weight>, partition: Partition, queue: seq<nat>, heap: seq<ArcIter>, splitter: set<nat>)
    requires Refining(f, partition, queue, splitter) && partition.Marked() == {}
    requires forall k :: 0 <= k < |heap| ==> IterOk(f, heap[k], splitter, -1)
    requires AllVisited(f, heap, splitter, {})
    ensures MergingArcs(f, partition, heap, splitter, {}, -1) && AsI32(-1) == -1
  {
  }

  /** What the heap operations need from the scan. */
  lemma ScanHeap(f: Fst<Weight>, partition: Partition, heap: seq<ArcIter>, splitter: set<nat>,
                 visited: set<(Label, nat)>, cur: int)
    requires MergingArcs(f, partition, heap, splitter, visited, cur)
    ensures AllVisited(f, heap, splitter, visited) && forall j :: 0 <= j < |heap| ==> IterOk(f, heap[j], splitter, cur)
  {
  }

  /** The inner loop: one class, all its labels in increasing order. */
  method RefineBy(f: Fst<Weight>, rtrs: seq<seq<Tr<Weight>>>, partition: Partition, queue: seq<nat>, members: seq<nat>)
    returns (q: seq<nat>)
    requires Automaton(f) && ReversedArcs(f, rtrs)
    requires forall x :: x in members ==> x < |f.states|
    requires Refining(f, partition, queue, set x | x in members)
    requires partition.Marked() == {} && partition.visitedClasses == []
    requires ClosedUnderKindred(f, |f.states|, set x | x in members)
    modifies partition
    ensures Refining(f, partition, q, {}) && partition.Marked() == {} && partition.visitedClasses == []
    ensures |partition.classes| >= |old(partition.classes)|
    ensures q == queue + IdsFrom(|old(partition.classes)|, |partition.classes|)
  {
    hide *;
    q := queue;
    IdsNone(|partition.classes|);
    ghost var splitter := set x | x in members;
    var aiterQueue := CollectIters(f, rtrs, members);
    ghost var visited: set<(Label, nat)>, cur: int := {}, -1;
    var prevLabel := -1;
    ScanStart(f, partition, queue, aiterQueue, splitter);
    while aiterQueue != []
      invariant Refining(f, partition, q, splitter) && MergingArcs(f, partition, aiterQueue, splitter, visited, cur)
      invariant prevLabel == AsI32(cur)
      invariant |partition.classes| >= |old(partition.classes)|
      invariant q == queue + IdsFrom(|old(partition.classes)|, |partition.classes|)
      decreases Remaining(aiterQueue)
    {
      var heap := aiterQueue;
      ScanHeap(f, partition, heap, splitter, visited, cur);
      var k, aiter := PopSmallest(f, heap, splitter, cur);
      var tr := aiter.trs[aiter.idx];
      var fromState: nat, fromLabel := tr.nextstate - 1, tr.ilabel;
      ghost var n := |partition.classes|;
      q := ReachLabel(f, partition, q, prevLabel, fromLabel, heap, splitter, visited, cur);
      IdsJoin(|old(partition.classes)|, n, |partition.classes|);
      aiterQueue := Advance(f, heap, k, splitter, visited, fromLabel, fromState);
      VisitArc(f, partition, fromState, fromLabel, q, heap, aiterQueue, splitter, visited);
      prevLabel := AsI32(fromLabel);
      cur, visited := fromLabel, visited + {(fromLabel, fromState)};
    }
    ghost var n := |partition.classes|;
    q := FinishScan(f, partition, q, splitter, visited, cur);
    IdsJoin(|old(partition.classes)|, n, |partition.classes|);
  }

  lemma IdsNone(n: nat)
    ensures IdsFrom(n, n) == []
  {
  }

  /** Initially every class is queued, so every pair is covered. */
  lemma InitialRefining(f: Fst<Weight>, partition: Partition, queue: seq<nat>)
    requires Automaton(f)
    requires partition.Valid() && |partition.elements| == |f.states| && AllNonEmpty(partition.classes)
    requires forall x :: x in partition.added <==> 0 <= x < |f.states|
    requires forall s, t :: 0 <= s < |f.states| && 0 <= t < |f.states| ==>
               (partition.ClassOf(s) == partition.ClassOf(t) <==>
                  IsFinal(f, s) == IsFinal(f, t) && Key(f, s) == Key(f, t))
    requires queue == seq(|partition.classes|, c requires 0 <= c => c) && partition.moves == []
    ensures Refining(f, partition, queue, {})
  {
    hide Rep, Key, Budget, Coherent, Keyed, KeepsKindred, Shape;
    partition.InitialBudget();
    var els := partition.elements;
    forall s | 0 <= s < |els| ensures els[s].classId in queue {
      partition.Member(s, s);
      assert queue[els[s].classId] == els[s].classId;
    }
    forall s, t | 0 <= s < |els| && 0 <= t < |els|
      ensures els[s].classId == els[t].classId <==> IsFinal(f, s) == IsFinal(f, t) && Key(f, s) == Key(f, t)
    {
      assert partition.ClassOf(s) == partition.ClassOf(t) <==> els[s].classId == els[t].classId;
    }
    GroupedByKey(f, els);
  }

  /** Classes of equal finality and equal label lists are coherent and separate no kindred states. */
  lemma GroupedByKey(f: Fst<Weight>, els: seq<Element>)
    requires Automaton(f) && |els| == |f.states|
    requires forall s, t :: 0 <= s < |els| && 0 <= t < |els| ==>
               (els[s].classId == els[t].classId <==> IsFinal(f, s) == IsFinal(f, t) && Key(f, s) == Key(f, t))
    ensures Coherent(f, els) && Keyed(f, els) && KeepsKindred(f, els)
  {
    hide Key;
    forall p: nat, q: nat, a: Label, t: nat | p < |els| && q < |els| && els[p].classId == els[q].classId
      && Step(f, p, a, t)
      ensures exists u :: Step(f, q, a, u)
    {
      KeySteps(f, p, a);
      KeySteps(f, q, a);
    }
    hide Kindred;
    forall p: nat, q: nat | p < |els| && q < |els| && Kindred(f, p, q) ensures els[p].classId == els[q].classId {
      KindredHere(f, p, q);
    }
  }

  /** Taking class `c` off the queue makes it the splitter. */
  lemma DequeueRefining(f: Fst<Weight>, partition: Partition, queue: seq<nat>, members: seq<nat>)
    requires Automaton(f) && Refining(f, partition, queue, {}) && partition.visitedClasses == [] && queue != []
    requires var c := queue[|queue|-1]; c < |partition.classes| && c < |partition.no| && members == partition.no[c]
    ensures Refining(f, partition, queue[..|queue|-1], set x | x in members)
    ensures forall x :: x in members ==> x < |f.states|
    ensures ClosedUnderKindred(f, |f.states|, set x | x in members)
  {
    hide Rep, Coherent, Kindred, Keyed, Budget, Shape, AllNonEmpty, Automaton;
    var c := queue[|queue|-1];
    var els, splitter := partition.elements, set x | x in members;
    partition.ClassMembers(c);
    var rest := queue[..|queue|-1];
    assert queue == rest + [c];
    assert forall d :: d in queue <==> d in rest || d == c;
    assert forall x :: x in splitter <==> 0 <= x < |els| && els[x].classId == c by {
      assert forall x :: 0 <= x < |els| ==> partition.ClassOf(x) == els[x].classId;
    }
    assert Cover(f, els, rest, splitter);
  }

  // ------------------------------------------------ the worklist

  /** Every class id below `n` was dequeued or waits, and none twice. */
  ghost predicate OnceEach(dequeued: seq<nat>, queue: seq<nat>, n: nat) {
    && Distinct(dequeued) && Distinct(queue)
    && (forall c :: c in dequeued ==> c !in queue && c < n)
    && (forall c :: c in queue ==> c < n)
    && forall c: nat :: c < n ==> c in dequeued || c in queue
  }

  lemma AllQueued(queue: seq<nat>)
    requires queue == seq(|queue|, c requires 0 <= c => c)
    ensures OnceEach([], queue, |queue|)
  {
    forall c: nat | c < |queue| ensures c in queue {
      assert queue[c] == c;
    }
  }

  lemma OneDequeued(dequeued: seq<nat>, queue: seq<nat>, n: nat)
    requires OnceEach(dequeued, queue, n) && queue != []
    ensures OnceEach(dequeued + [queue[|queue|-1]], queue[..|queue|-1], n)
  {
    var m: nat := |queue| - 1;
    var last, rest, d := queue[m], queue[..m], dequeued + [queue[m]];
    assert queue == rest + [last] && last in queue;
    assert forall i :: 0 <= i < m ==> rest[i] == queue[i] && queue[i] != last;
    forall c | c in d ensures c !in rest && c < n {
      assert c in rest ==> c in queue;
    }
    forall i, j | 0 <= i < j < |d| ensures d[i] != d[j] {
      assert d[i] == dequeued[i] && dequeued[i] in dequeued;
    }
    forall c: nat | c < n ensures c in d || c in rest {
      assert c in dequeued || c in queue;
      assert c in dequeued ==> c in d;
      assert d[|dequeued|] == last;
    }
    assert forall c :: c in rest ==> c in queue;
  }

  lemma SomeQueued(dequeued: seq<nat>, queue: seq<nat>, n: nat, n': nat)
    requires OnceEach(dequeued, queue, n) && n <= n'
    ensures OnceEach(dequeued, queue + IdsFrom(n, n'), n')
  {
    var ids := IdsFrom(n, n');
    var q := queue + ids;
    forall c: nat | c < n' ensures c in dequeued || c in q {
      if n <= c {
        assert q[|queue| + (c - n)] == c;
      } else {
        assert c in queue ==> c in q;
      }
    }
    forall i, j | 0 <= i < j < |q| ensures q[i] != q[j] {
      assert i < |queue| ==> q[i] in queue;
    }
    forall c | c in q ensures c < n' && (c in dequeued ==> c in queue) {
      assert c in queue || c in ids;
    }
  }

  lemma AllDequeued(dequeued: seq<nat>, n: nat)
    requires OnceEach(dequeued, [], n)
    ensures Distinct(dequeued) && (forall c: nat :: c in dequeued <==> c < n) && |dequeued| == n
  {
    assert forall i :: 0 <= i < |dequeued| ==> dequeued[i] in dequeued;
    DistinctLength(dequeued, n);
    LengthCovers(dequeued, n);
  }

  lemma {:induction false} LengthCovers(l: seq<nat>, n: nat)
    requires forall c: nat :: c < n ==> c in l
    ensures |l| >= n
    decreases n
  {
    if n > 0 {
      var last: nat := n - 1;
      assert last in l;
      var i :| 0 <= i < |l| && l[i] == last;
      var rest := l[..i] + l[i+1..];
      forall c: nat | c < n - 1 ensures c in rest {
        assert c in l;
        var j :| 0 <= j < |l| && l[j] == c;
        assert rest[if j < i then j else j - 1] == c;
      }
      LengthCovers(rest, n - 1);
    }
  }

  /** Steps on one label from one class lead to one class. */
  ghost predicate Congruent(f: Fst<Weight>, els: seq<Element>)
    requires |els| == |f.states|
  {
    forall p: nat, q: nat, a: Label, t: nat, u: nat ::
      p < |els| && q < |els| && els[p].classId == els[q].classId && Step(f, p, a, t) && Step(f, q, a, u) && t < |els|
        && u < |els|
      ==> els[t].classId == els[u].classId
  }

  /** No state moves more often than the logarithm of the number of states. */
  ghost predicate FewMoves(moves: seq<nat>, n: nat) {
    forall x: nat :: x < n ==> Pow2(MovesOf(moves, x)) <= n
  }

  /** The main theorem: two states share a class exactly when they are kindred. States of one class have equal
      right languages and step to one class;
          equivalent states share a class exactly when keys agree. Every class id is taken off the
      queue once, and few moves are made on the way. */
  method CyclicMinimize(f: Fst<Weight>) returns (partition: Partition, ghost dequeued: seq<nat>)
    requires Automaton(f)
    ensures fresh(partition) && partition.Valid() && partition.visitedClasses == []
    ensures |partition.elements| == |f.states| && AllNonEmpty(partition.classes)
    ensures forall x :: x in partition.added <==> 0 <= x < |f.states|
    ensures forall p: nat, q: nat :: p < |f.states| && q < |f.states| ==>
              (partition.ClassOf(p) == partition.ClassOf(q) <==> Kindred(f, p, q))
    ensures forall p: nat, q: nat :: p < |f.states| && q < |f.states| && partition.ClassOf(p) == partition.ClassOf(q)
             ==> Nerode(f, p, q)
    ensures KeysAgree(f) <==>
              forall p: nat, q: nat :: p < |f.states| && q < |f.states| && Nerode(f, p, q)
                ==> partition.ClassOf(p) == partition.ClassOf(q)
    ensures Congruent(f, partition.elements)
    ensures Distinct(dequeued) && (forall c: nat :: c in dequeued <==> c < |partition.classes|)
    ensures |dequeued| == |partition.classes| <= |f.states|
    ensures Budget(partition.elements, partition.classes, partition.added, partition.moves, |f.states|)
    ensures FewMoves(partition.moves, |f.states|)
  {
    hide Rep, Cover, Coherent, Keyed, KeysAgree, KeepsKindred, Key, Kindred, IsReverse, ReversedArcs, Nerode, OnceEach,
         Budget, Congruent, FewMoves;
    var tr := Reverse(f);
    var rtrs := seq(|f.states|, t requires 0 <= t < |f.states| => SortTrs(tr.states[t+1].trs));
    SortedReverse(f, tr, rtrs);
    partition := new Partition(|tr.states| - 1);
    var queue := PrePartition(f, partition);
    InitialRefining(f, partition, queue);
    partition.CountBound();
    dequeued := [];
    AllQueued(queue);
    while queue != []
      invariant Refining(f, partition, queue, {}) && partition.visitedClasses == [] && partition.Marked() == {}
      invariant |partition.classes| <= |f.states| && OnceEach(dequeued, queue, |partition.classes|)
      decreases 2 * (|f.states| - |partition.classes|) + |queue|
    {
      var c := queue[|queue|-1];
      assert c in queue;
      partition.ClassMembers(c);
      var members := partition.Iter(c);
      DequeueRefining(f, partition, queue, members);
      OneDequeued(dequeued, queue, |partition.classes|);
      queue := queue[..|queue|-1];
      dequeued := dequeued + [c];
      ghost var n := |partition.classes|;
      SomeQueuedLater(dequeued, queue, n);
      queue := RefineBy(f, rtrs, partition, queue, members);
      partition.CountBound();
    }
    EmptyQueue(f, partition);
    AllDequeued(dequeued, |partition.classes|);
  }

  /** Whatever ids are created next. */
  lemma SomeQueuedLater(dequeued: seq<nat>, queue: seq<nat>, n: nat)
    requires OnceEach(dequeued, queue, n)
    ensures forall n' :: n <= n' ==> OnceEach(dequeued, queue + IdsFrom(n, n'), n')
  {
    forall n' | n <= n' ensures OnceEach(dequeued, queue + IdsFrom(n, n'), n') {
      SomeQueued(dequeued, queue, n, n');
    }
  }

  lemma EmptyQueue(f: Fst<Weight>, partition: Partition)
    requires Automaton(f) && Refining(f, partition, [], {})
    ensures forall p: nat, q: nat :: p < |f.states| && q < |f.states| ==>
              (partition.ClassOf(p) == partition.ClassOf(q) <==> Kindred(f, p, q))
    ensures forall p: nat, q: nat :: p < |f.states| && q < |f.states| && partition.ClassOf(p) == partition.ClassOf(q)
             ==> Nerode(f, p, q)
    ensures KeysAgree(f) <==>
              forall p: nat, q: nat :: p < |f.states| && q < |f.states| && Nerode(f, p, q)
                ==> partition.ClassOf(p) == partition.ClassOf(q)
    ensures Congruent(f, partition.elements) && FewMoves(partition.moves, |f.states|)
  {
    hide Rep, Budget, FewMoves, Key;
    var els := partition.elements;
    forall p: nat, q: nat, w: seq<Label> | p < |els| && q < |els| && els[p].classId == els[q].classId
      && Accepts(f, p, w)
      ensures Accepts(f, q, w)
    {
      ClassesAreNerode(f, els, p, q, w);
    }
    forall p: nat, q: nat | p < |els| && q < |els| ensures els[p].classId == els[q].classId <==> Kindred(f, p, q) {
      if els[p].classId == els[q].classId {
        ClassKindred(f, els, p, q);
      }
    }
    if KeysAgree(f) {
      forall p: nat, q: nat | p < |els| && q < |els| && Nerode(f, p, q) ensures els[p].classId == els[q].classId {
        NerodeKindred(f, p, q);
      }
    }
    MovesPaid(f, partition);
  }

  lemma ClassKindred(f: Fst<Weight>, els: seq<Element>, p: nat, q: nat)
    requires WellFormed(f) && |els| == |f.states|
    requires Coherent(f, els) && Keyed(f, els) && Cover(f, els, [], {})
    requires p < |els| && q < |els| && els[p].classId == els[q].classId
    ensures Kindred(f, p, q)
  {
    hide Key, Coherent, Keyed, Cover, ReadsTo;
    forall w, t: nat, u: nat | ReadsTo(f, p, w, t) && ReadsTo(f, q, w, u) && t < |els| && u < |els|
      ensures IsFinal(f, t) == IsFinal(f, u) && Key(f, t) == Key(f, u)
    {
      ClassesAreKindred(f, els, p, q, w, t, u);
    }
  }

  /** The class of a state is not empty, so what its moves cost is at most the number of states. */
  lemma MovesPaid(f: Fst<Weight>, partition: Partition)
    requires Refining(f, partition, [], {})
    ensures FewMoves(partition.moves, |f.states|)
  {
    hide Rep, Cover, Coherent, Keyed, KeepsKindred, KeysAgree;
    forall x: nat | x < |f.states| ensures Pow2(MovesOf(partition.moves, x)) <= |f.states| {
      partition.Member(x, x);
      TimesMonotone(1, partition.classes[partition.ClassOf(x)].size, Pow2(MovesOf(partition.moves, x)));
    }
  }
}
