/** `acceptor_minimize` from end to end. */
module AcceptorMinimize {
  import opened Fsts
  import opened Acceptors
  import opened Counts
  import opened Depths
  import opened Hopcroft
  import opened Languages
  import opened Merges
  import opened Minimals
  import opened Partitions
  import opened Properties
  import opened PropertyBits
  import opened Revuz
  import opened SameArcs
  import opened Tidying
  import opened Trims
  import opened TrSorts
  import opened VectorFsts
  import opened Weights

  // ------------------------------------------------ what trimming keeps

  /** What the minimizer asks of its input, and keeps asking. */
  ghost predicate Suitable(f: Fst<Weight>) {
    WellFormed(f) && Deterministic(f) && IsAcceptor(f) && UnitFinals(f) && |f.states| <= MAX_ELEMENTS
  }

  lemma TrimmedSuitable(f: Fst<Weight>, dead: seq<bool>, g: Fst<Weight>)
    requires Suitable(f) && |dead| == |f.states| && IsTrimmed(f, dead, g)
    ensures Suitable(g)
    ensures ILabelSorted(f) ==> ILabelSorted(g)
  {
    RankMonotone(dead, 0, |dead|);
    forall k, i | 0 <= k < |g.states| && 0 <= i < |g.states[k].trs|
      ensures g.states[k].trs[i].nextstate < |g.states| && g.states[k].trs[i].ilabel == g.states[k].trs[i].olabel
    {
      var s := TrimmedArcs(f, dead, g, k);
      var i' := KeptFrom(dead, f.states[s].trs, i);
      KeptAt(dead, f.states[s].trs, i');
      RankMonotone(dead, f.states[s].trs[i'].nextstate, |dead|);
    }
    forall k, i, j | 0 <= k < |g.states| && 0 <= i < j < |g.states[k].trs|
      ensures g.states[k].trs[i].ilabel != g.states[k].trs[j].ilabel
    {
      var s := TrimmedArcs(f, dead, g, k);
      var i', j' := KeptOrder(dead, f.states[s].trs, i, j);
    }
    forall k | 0 <= k < |g.states| && g.states[k].finalWeight.Some? ensures g.states[k].finalWeight.value == ONE {
      var s := TrimmedArcs(f, dead, g, k);
    }
    if ILabelSorted(f) {
      forall k, i, j | 0 <= k < |g.states| && 0 <= i < j < |g.states[k].trs|
        ensures g.states[k].trs[i].ilabel <= g.states[k].trs[j].ilabel
      {
        var s := TrimmedArcs(f, dead, g, k);
        assert LabelSorted(f.states[s].trs);
        var i', j' := KeptOrder(dead, f.states[s].trs, i, j);
      }
    }
  }

  // ------------------------------------------------ what sorting and removing repetitions keep

  lemma SortedFacts(f: Fst<Weight>, g: Fst<Weight>)
    requires Suitable(f) && SortedAt(f, g)
    ensures Suitable(g) && ILabelSorted(g) && Rearranged(f, g)
  {
    forall s | 0 <= s < |f.states|
      ensures LabelSorted(g.states[s].trs) && SameState(f.states[s], g.states[s]) && LabelsDistinct(g.states[s].trs) {
      SortTrsSorted(f.states[s].trs);
      assert LabelsDistinct(f.states[s].trs);
      SortDistinct(ILabelLe, f.states[s].trs);
    }
    RearrangedWellFormed(f, g);
    forall s, i | 0 <= s < |g.states| && 0 <= i < |g.states[s].trs|
      ensures g.states[s].trs[i].ilabel == g.states[s].trs[i].olabel {
      RearrangedBack(f, g);
      var j := SameTr(g, f, s, i);
    }
    forall s, i, j | 0 <= s < |g.states| && 0 <= i < j < |g.states[s].trs|
      ensures g.states[s].trs[i].ilabel != g.states[s].trs[j].ilabel {
      assert LabelsDistinct(g.states[s].trs);
    }
  }

  lemma SortedAcyclic(f: Fst<Weight>, g: Fst<Weight>)
    requires Rearranged(f, g) && Acyclic(f)
    ensures Acyclic(g)
  {
    RearrangedBack(f, g);
    forall s, p | p != [] ensures !IsPath(g, s, p, s) {
      if IsPath(g, s, p, s) {
        var q := RearrangedPath(g, f, s, p, s);
      }
    }
  }

  /** Sorting and dropping adjacent repetitions keeps the set of arcs of every state, and leaves a
      deterministic machine exactly when no state had a label on two different arcs. */
  lemma UniqueFacts(f: Fst<Weight>, g: Fst<Weight>)
    requires WellFormed(f) && UniqueAt(f, g)
    ensures WellFormed(g) && Rearranged(f, g)
    ensures Deterministic(g) <==> forall s :: 0 <= s < |f.states| ==> OneArcPerLabel(f.states[s].trs)
  {
    forall s | 0 <= s < |f.states|
      ensures SameState(f.states[s], g.states[s]) && (LabelsDistinct(g.states[s].trs)
                                                      <==> OneArcPerLabel(f.states[s].trs))
    {
      UniqueTrsExact(f.states[s].trs);
    }
    RearrangedWellFormed(f, g);
    if Deterministic(g) {
      assert forall s :: 0 <= s < |g.states| ==> LabelsDistinct(g.states[s].trs);
    }
    if forall s :: 0 <= s < |f.states| ==> OneArcPerLabel(f.states[s].trs) {
      assert forall s :: 0 <= s < |g.states| ==> LabelsDistinct(g.states[s].trs);
    }
  }

  // ------------------------------------------------ weights seen through trimming and sorting

  lemma AgreeTrimmed(f: Fst<Weight>, g: Fst<Weight>)
    requires Suitable(f) && IsTrimmed(f, Useless(f), g) && Trim(g) && WellFormed(g)
    ensures WeightsAgree(f) <==> WeightsAgree(g)
  {
    var dead := Useless(f);
    if WeightsAgree(f) {
      forall d, e | Live(g, d) && Live(g, e) && Twins(g, d, e) ensures Arc(g, d).weight == Arc(g, e).weight {
        var d' := LiveSource(f, g, d);
        var e' := LiveSource(f, g, e);
        SourceNerode(f, g, d'.src, e'.src);
        assert Twins(f, d', e');
      }
    }
    if WeightsAgree(g) {
      forall d, e | Live(f, d) && Live(f, e) && Twins(f, d, e) ensures Arc(f, d).weight == Arc(f, e).weight {
        MapEdgeArc(f, dead, g, d);
        MapEdgeArc(f, dead, g, e);
        TrimLive(g, MapEdge(f, dead, d));
        TrimLive(g, MapEdge(f, dead, e));
        SourceNerode(f, g, d.src, e.src);
        assert Twins(g, MapEdge(f, dead, d), MapEdge(f, dead, e));
      }
    }
  }

  lemma LiveSource(f: Fst<Weight>, g: Fst<Weight>, e: Edge) returns (d: Edge)
    requires Suitable(f) && IsTrimmed(f, Useless(f), g) && IsEdge(g, e)
    ensures Live(f, d) && MapEdge(f, Useless(f), d) == e && Arc(g, e) == Renumbered(Useless(f), Arc(f, d))
  {
    var s := TrimmedArcs(f, Useless(f), g, e.src);
    var i := KeptFrom(Useless(f), f.states[s].trs, e.pos);
    d := Edge(s, i);
    MapEdgeArc(f, Useless(f), g, d);
  }

  lemma SourceNerode(f: Fst<Weight>, g: Fst<Weight>, p: nat, q: nat)
    requires WellFormed(f) && IsTrimmed(f, Useless(f), g) && p < |f.states| && q < |f.states| && !Useless(f)[p]
             && !Useless(f)[q]
    ensures Nerode(f, p, q) <==> Nerode(g, Rank(Useless(f), p), Rank(Useless(f), q))
  {
    forall w ensures Accepts(f, p, w) <==> Accepts(g, Rank(Useless(f), p), w)
      ensures Accepts(f, q, w) <==> Accepts(g, Rank(Useless(f), q), w)
    {
      TrimAccepts(f, g, p, w);
      TrimAccepts(f, g, q, w);
    }
  }

  lemma AgreeRearranged(f: Fst<Weight>, g: Fst<Weight>)
    requires Rearranged(f, g) && WellFormed(f) && Trim(f) && WeightsAgree(f)
    ensures WeightsAgree(g)
  {
    RearrangedBack(f, g);
    forall d, e | Live(g, d) && Live(g, e) && Twins(g, d, e) ensures Arc(g, d).weight == Arc(g, e).weight {
      var i := SameTr(g, f, d.src, d.pos);
      var j := SameTr(g, f, e.src, e.pos);
      var d', e' := Edge(d.src, i), Edge(e.src, j);
      TrimLive(f, d');
      TrimLive(f, e');
      forall w ensures Accepts(f, d.src, w) <==> Accepts(f, e.src, w) {
        RearrangedSame(f, g, d.src, w);
        RearrangedSame(f, g, e.src, w);
      }
      assert Twins(f, d', e');
    }
  }

  // ------------------------------------------------ the result

  /** What `acceptor_minimize` makes of `f`; `coarse` says whether the partition it merged by
      had all equivalent states together. */
  ghost predicate Minimized(f: Fst<Weight>, g: Fst<Weight>, coarse: bool) {
    && WellFormed(g) && Trim(g)
    && (forall w :: Language(g, w) <==> Language(f, w))
    && (coarse <==> Reduced(g))
    && (coarse ==> (Deterministic(g) <==> WeightsAgree(f)))
  }

  /** Which states of the trim machine `t` became one, and that the result is deterministic exactly
      when states that became one put equal weights on equal labels. */
  ghost predicate MergedExactly(t: Fst<Weight>, image: seq<nat>, g: Fst<Weight>) {
    && MergedInto(t, image, g) && SameEnds(t, image, g) && Congruence(t, image)
    && (Deterministic(g) <==> MergedWeightsAgree(t, image))
  }

  /** States that became one: the equivalent ones on the acyclic branch, the kindred ones on the other. */
  ghost predicate MergedBy(t: Fst<Weight>, image: seq<nat>, acyclicBranch: bool) {
    && |image| == |t.states|
    && forall x: nat, y: nat :: x < |image| && y < |image| ==>
         (image[x] == image[y] <==> if acyclicBranch then Nerode(t, x, y) else Kindred(t, x, y))
  }

  ghost predicate SameClasses(image: seq<nat>, classOf: seq<nat>) {
    |image| == |classOf| &&
         forall x, y :: 0 <= x < |image| && 0 <= y < |image| ==> (image[x] == image[y] <==> classOf[x] == classOf[y])
  }

  /** Merging along a sound congruence and removing repetitions. */
  lemma CollapseOutcome(f: Fst<Weight>, classOf: seq<nat>, members: seq<seq<nat>>, rep: seq<nat>, m: Fst<Weight>,
                        g: Fst<Weight>, u: Fst<Weight>)
    returns (image: seq<nat>)
    requires Suitable(f) && Quotient(f, classOf, members, rep, m, g) && UniqueAt(g, u) && WellFormed(g)
             && Congruence(f, classOf)
    ensures Minimized(f, u, Coarse(f, classOf)) && MergedExactly(f, image, u) && SameClasses(image, classOf)
  {
    hide SameClasses, SameEnds, Suitable, UniqueAt, Nerode, MergedInto, MergedWeightsAgree, Deterministic, Rearranged,
         Language, Trim, WellFormed, Quotient, Sound, Congruence, Minimized;
    image := QuotientClasses(f, classOf, members, rep, m, g);
    UniqueFacts(g, u);
    EndsRearranged(f, image, g, u);
    ImageClasses(f, classOf, members, rep, m, g, image);
    SuitableWellFormed(f);
    OneArcExactly(f, image, g);
    MergedRearranged(f, image, g, u);
    CollapseMinimized(f, classOf, members, rep, m, g, u, image);
  }

  lemma QuotientClasses(f: Fst<Weight>, classOf: seq<nat>, members: seq<seq<nat>>, rep: seq<nat>, m: Fst<Weight>,
                        g: Fst<Weight>)
    returns (image: seq<nat>)
    requires Suitable(f) && Quotient(f, classOf, members, rep, m, g)
    ensures MergedInto(f, image, g) && SameEnds(f, image, g) && SameClasses(image, classOf)
    ensures WellFormed(f) && |image| == |f.states| == |classOf| && |image| == |f.states|
    ensures forall k: nat :: k < |g.states| ==> k in image
  {
    image := QuotientImage(f, classOf, members, rep, m, g);
    UnitFinalsSame(f);
    hide SameEnds, Nerode;
  }

  lemma UnitFinalsSame(f: Fst<Weight>)
    requires Suitable(f)
    ensures forall x :: 0 <= x < |f.states| && f.states[x].finalWeight.Some? ==> f.states[x].finalWeight == Some(ONE)
  {
  }

  lemma EndsRearranged(f: Fst<Weight>, image: seq<nat>, g: Fst<Weight>, u: Fst<Weight>)
    requires SameEnds(f, image, g) && Rearranged(g, u)
    ensures SameEnds(f, image, u)
  {
    forall x | 0 <= x < |image| ensures u.states[image[x]].finalWeight == f.states[x].finalWeight {
      assert SameState(g.states[image[x]], u.states[image[x]]);
    }
  }

  lemma RearrangedEnds(t: Fst<Weight>, f: Fst<Weight>, image: seq<nat>, g: Fst<Weight>)
    requires SameEnds(f, image, g) && Rearranged(t, f)
    ensures SameEnds(t, image, g)
  {
    forall x | 0 <= x < |image| ensures t.states[x].finalWeight == f.states[x].finalWeight {
      assert SameState(t.states[x], f.states[x]);
    }
  }

  lemma ImageClasses(f: Fst<Weight>, classOf: seq<nat>, members: seq<seq<nat>>, rep: seq<nat>, m: Fst<Weight>,
                     g: Fst<Weight>, image: seq<nat>)
    requires Suitable(f) && Quotient(f, classOf, members, rep, m, g) && |image| == |f.states| == |classOf|
             && Congruence(f, classOf)
    requires SameClasses(image, classOf)
    ensures Congruence(f, image) && Sound(f, image) && (Coarse(f, image) <==> Coarse(f, classOf)) && IsAcceptor(f)
            && Trim(f)
  {
    hide Nerode, Collapsed, Trim;
    forall d, e | Alike(f, image, d, e) ensures image[Arc(f, d).nextstate] == image[Arc(f, e).nextstate] {
      assert Alike(f, classOf, d, e);
    }
  }

  lemma CollapseMinimized(f: Fst<Weight>, classOf: seq<nat>, members: seq<seq<nat>>, rep: seq<nat>, m: Fst<Weight>,
                          g: Fst<Weight>, u: Fst<Weight>, image: seq<nat>)
    requires Suitable(f) && Quotient(f, classOf, members, rep, m, g) && Rearranged(g, u) && WellFormed(g)
             && WellFormed(u)
    requires WellFormed(f) && |image| == |f.states| == |classOf| && Sound(f, image)
             && (Coarse(f, image) <==> Coarse(f, classOf)) && Trim(f)
    requires Deterministic(u) <==> MergedWeightsAgree(f, image)
    ensures Minimized(f, u, Coarse(f, classOf))
  {
    QuotientTrim(f, classOf, members, rep, m, g);
    RearrangedTrim(g, u);
    CoarseWeights(f, image);
    hide Nerode, Sound, Quotient, Suitable, Deterministic, WeightsAgree, MergedWeightsAgree, Trim;
    forall w ensures Language(u, w) <==> Language(f, w) {
      QuotientLanguage(f, classOf, members, rep, m, g, w);
      if g.start.Some? {
        RearrangedSame(g, u, g.start.value, w);
      }
    }
    if Coarse(f, classOf) {
      QuotientReduced(f, classOf, members, rep, m, g);
      RearrangedReduced(g, u);
    } else {
      NotReduced(f, classOf, members, rep, m, g, u);
    }
  }

  lemma QuotientTrim(f: Fst<Weight>, classOf: seq<nat>, members: seq<seq<nat>>, rep: seq<nat>, m: Fst<Weight>,
                     g: Fst<Weight>)
    requires Quotient(f, classOf, members, rep, m, g)
    ensures Trim(g)
  {
    hide Accessible, CoReach;
    forall k: nat | k < |g.states| ensures Accessible(g, k) && CoReach(g, k) {
      var s := TrimmedIsTrim(m, g, k);
    }
  }

  /** Rearranging the arcs of the result changes nothing of this. */
  lemma MergedRearranged(f: Fst<Weight>, image: seq<nat>, g: Fst<Weight>, u: Fst<Weight>)
    requires MergedInto(f, image, g) && Rearranged(g, u)
    ensures MergedInto(f, image, u)
  {
    forall x: nat, w | x < |image| ensures Accepts(u, image[x], w) <==> Accepts(f, x, w) {
      RearrangedSame(g, u, image[x], w);
    }
    forall e | IsEdge(f, e) ensures ImagedTr(image, Arc(f, e)) in u.states[image[e.src]].trs {
      assert SameState(g.states[image[e.src]], u.states[image[e.src]]);
    }
    forall k: nat, tr | k < |u.states| && tr in u.states[k].trs ensures ImageArc(f, image, k, tr) {
      assert SameState(g.states[k], u.states[k]);
    }
  }

  /** Nor does rearranging the arcs of the machine that was merged. */
  lemma RearrangedMerged(t: Fst<Weight>, f: Fst<Weight>, image: seq<nat>, g: Fst<Weight>)
    requires Rearranged(t, f) && WellFormed(t) && MergedExactly(f, image, g)
    ensures MergedExactly(t, image, g)
  {
    hide Deterministic, Congruence, MergedWeightsAgree, MergedInto, SameEnds, Rearranged;
    RearrangedBack(t, f);
    RearrangedEnds(t, f, image, g);
    RearrangedInto(t, f, image, g);
    assert WellFormed(f) by {
      IntoWellFormed(f, image, g);
    }
    AlikeRearranged(t, f, image);
    AlikeRearranged(f, t, image);
  }

  lemma IntoWellFormed(f: Fst<Weight>, image: seq<nat>, g: Fst<Weight>)
    requires MergedInto(f, image, g)
    ensures WellFormed(f)
  {
  }

  lemma RearrangedInto(t: Fst<Weight>, f: Fst<Weight>, image: seq<nat>, g: Fst<Weight>)
    requires Rearranged(t, f) && Rearranged(f, t) && WellFormed(t) && MergedInto(f, image, g)
    ensures MergedInto(t, image, g)
  {
    hide Accepts, SameState;
    forall x: nat, w | x < |image| ensures Accepts(g, image[x], w) <==> Accepts(t, x, w) {
      RearrangedSame(t, f, x, w);
    }
    forall e | IsEdge(t, e) ensures ImagedTr(image, Arc(t, e)) in g.states[image[e.src]].trs {
      var e' := SameEdge(t, f, e);
    }
    forall k: nat, tr | k < |g.states| && tr in g.states[k].trs ensures ImageArc(t, image, k, tr) {
      assert ImageArc(f, image, k, tr);
      var e :| IsEdge(f, e) && image[e.src] == k && tr == ImagedTr(image, Arc(f, e));
      var e' := SameEdge(f, t, e);
    }
  }

  lemma SameEdge(f: Fst<Weight>, g: Fst<Weight>, e: Edge) returns (d: Edge)
    requires Rearranged(f, g) && IsEdge(f, e)
    ensures IsEdge(g, d) && d.src == e.src && Arc(g, d) == Arc(f, e)
  {
    var j := SameTr(f, g, e.src, e.pos);
    d := Edge(e.src, j);
  }

  lemma AlikeRearranged(f: Fst<Weight>, g: Fst<Weight>, image: seq<nat>)
    requires Rearranged(f, g) && Rearranged(g, f) && WellFormed(f) && WellFormed(g)
    ensures Congruence(g, image) ==> Congruence(f, image)
    ensures MergedWeightsAgree(g, image) ==> MergedWeightsAgree(f, image)
  {
    hide Rearranged;
    assert |f.states| == |g.states| by {
      RearrangedSize(f, g);
    }
    forall d, e | Alike(f, image, d, e)
      ensures Congruence(g, image) ==> image[Arc(f, d).nextstate] == image[Arc(f, e).nextstate]
      ensures MergedWeightsAgree(g, image) ==> Arc(f, d).weight == Arc(f, e).weight
    {
      var d' := SameEdge(f, g, d);
      var e' := SameEdge(f, g, e);
      assert Alike(g, image, d', e');
    }
  }

  lemma RearrangedSize(f: Fst<Weight>, g: Fst<Weight>)
    requires Rearranged(f, g)
    ensures |f.states| == |g.states|
  {
  }

  /** Equivalent states in two classes leave two equivalent states behind. */
  lemma NotReduced(f: Fst<Weight>, classOf: seq<nat>, members: seq<seq<nat>>, rep: seq<nat>, m: Fst<Weight>,
                   g: Fst<Weight>, u: Fst<Weight>)
    requires Quotient(f, classOf, members, rep, m, g) && !Coarse(f, classOf) && Rearranged(g, u)
    ensures !Reduced(u)
  {
    var p: nat, q: nat :| p < |f.states| && q < |f.states| && Nerode(f, p, q) && classOf[p] != classOf[q];
    hide Quotient, Image, Rearranged;
    RepUseful(f, classOf, members, rep, m, g, p);
    RepUseful(f, classOf, members, rep, m, g, q);
    SameImage(f, classOf, members, rep, m, g, p, q);
    var k, l := Image(m, rep, p), Image(m, rep, q);
    assert |u.states| == |g.states| by {
      RearrangedSize(g, u);
    }
    forall w ensures Accepts(u, k, w) <==> Accepts(u, l, w) {
      ImageAccepts(f, classOf, members, rep, m, g, p, w);
      ImageAccepts(f, classOf, members, rep, m, g, q, w);
      RearrangedSame(g, u, k, w);
      RearrangedSame(g, u, l, w);
    }
    assert Nerode(u, k, l) && Nerode(u, l, k);
  }

  lemma MinimizedTrimmed(f0: Fst<Weight>, f: Fst<Weight>, g: Fst<Weight>, coarse: bool)
    requires Suitable(f0) && IsTrimmed(f0, Useless(f0), f) && WellFormed(f) && Trim(f) && Minimized(f, g, coarse)
    ensures Minimized(f0, g, coarse)
  {
    AgreeTrimmed(f0, f);
    forall w ensures Language(g, w) <==> Language(f0, w) {
      TrimLanguage(f0, f, w);
    }
  }

  lemma MinimizedSorted(f0: Fst<Weight>, f: Fst<Weight>, g: Fst<Weight>, coarse: bool)
    requires WellFormed(f0) && WellFormed(f) && Trim(f0) && Trim(f) && Rearranged(f0, f) && Minimized(f, g, coarse)
    ensures Minimized(f0, g, coarse)
  {
    RearrangedBack(f0, f);
    if WeightsAgree(f0) {
      AgreeRearranged(f0, f);
    }
    if WeightsAgree(f) {
      AgreeRearranged(f, f0);
    }
    forall w ensures Language(g, w) <==> Language(f0, w) {
      if f.start.Some? {
        RearrangedSame(f0, f, f.start.value, w);
      }
    }
  }

  /** When every arc has weight one the result is deterministic, on either branch. */
  lemma UnitArcsDeterministic(t: Fst<Weight>, image: seq<nat>, g: Fst<Weight>)
    requires MergedExactly(t, image, g)
    requires forall s, i :: 0 <= s < |t.states| && 0 <= i < |t.states[s].trs| ==> t.states[s].trs[i].weight == ONE
    ensures Deterministic(g)
  {
    forall d, e | Alike(t, image, d, e) ensures Arc(t, d).weight == Arc(t, e).weight {
      assert t.states[d.src].trs[d.pos].weight == ONE && t.states[e.src].trs[e.pos].weight == ONE;
    }
  }

  ghost predicate NoZeroFinals(f: Fst<Weight>) {
    forall s :: 0 <= s < |f.states| ==> f.states[s].finalWeight != Some(ZERO)
  }

  /** A trim machine ready for merging, and its partition. */
  ghost predicate ReadyToMerge(f: Fst<Weight>, partition: Partition)
    reads partition
  {
    Suitable(f) && Trim(f) && f.start.Some? && PartitionOf(f, partition) && Sound(f, ClassIds(partition))
  }

  /** The bits are true, and say that the machine is trim. */
  ghost predicate TrimmedBits(fst: VectorFst)
    reads fst
  {
    BitsTrue(fst.Value(), fst.properties) && {ACCESSIBLE, COACCESSIBLE} <= fst.properties
  }

  method MergeAndUnique(fst: VectorFst, partition: Partition, ghost coarse: bool) returns (ghost image: seq<nat>)
    requires ReadyToMerge(fst.Value(), partition) && (coarse <==> Coarse(fst.Value(), ClassIds(partition)))
    requires Congruence(fst.Value(), ClassIds(partition))
    modifies fst
    ensures Minimized(old(fst.Value()), fst.Value(), coarse) && MergedExactly(old(fst.Value()), image, fst.Value())
    ensures SameClasses(image, ClassIds(partition))
    ensures old(BitsTrue(fst.Value(), fst.properties)) ==> TrimmedBits(fst)
  {
    hide BitsTrue, UniqueProperties, SameClasses, Trim, PartitionOf, Sound, Coarse, Minimized, Collapsed, Suitable,
      UniqueAt, Congruence,
         MergedExactly;
    ghost var f := fst.Value();
    assert WellFormed(f) by {
      SuitableWellFormed(f);
    }
    ghost var classOf, rep, m := MergeStates(partition, fst);
    ghost var g := fst.Value();
    CollapsedWellFormed(f, classOf, partition.no, rep, m, g);
    TrUnique(fst);
    image := CollapseOutcome(f, classOf, partition.no, rep, m, g, fst.Value());
  }

  lemma SuitableWellFormed(f: Fst<Weight>)
    requires Suitable(f)
    ensures WellFormed(f)
  {
  }

  lemma CollapsedWellFormed(f: Fst<Weight>, classOf: seq<nat>, members: seq<seq<nat>>, rep: seq<nat>, m: Fst<Weight>,
                            g: Fst<Weight>)
    requires Collapsed(f, classOf, members, rep, m, g)
    ensures WellFormed(g)
  {
    forall k, i | 0 <= k < |g.states| && 0 <= i < |g.states[k].trs| ensures g.states[k].trs[i].nextstate < |g.states| {
      var s := TrimmedArcs(m, Useless(m), g, k);
      var i' := KeptFrom(Useless(m), m.states[s].trs, i);
      KeptAt(Useless(m), m.states[s].trs, i');
    }
  }

  /** The partition says of a trim machine which states are equivalent, in both branches. */
  lemma PartitionReady(f: Fst<Weight>, partition: Partition)
    requires Suitable(f) && Trim(f) && f.start.Some?
    requires partition.Valid() && partition.visitedClasses == [] && |partition.elements| == |f.states|
             && AllNonEmpty(partition.classes)
    requires forall x :: x in partition.added <==> 0 <= x < |f.states|
    requires forall p: nat, q: nat :: p < |f.states| && q < |f.states| && partition.ClassOf(p) == partition.ClassOf(q)
                  ==> Nerode(f, p, q)
    ensures ReadyToMerge(f, partition)
    ensures Coarse(f, ClassIds(partition)) <==>
              forall p: nat, q: nat :: p < |f.states| && q < |f.states| && Nerode(f, p, q)
                ==> partition.ClassOf(p) == partition.ClassOf(q)
  {
    hide Rep, Nerode;
    var ids := ClassIds(partition);
    assert forall x :: 0 <= x < |f.states| ==> ids[x] == partition.ClassOf(x);
  }

  lemma CongruentClasses(f: Fst<Weight>, partition: Partition)
    requires WellFormed(f) && |partition.elements| == |f.states| && Congruent(f, partition.elements)
    ensures Congruence(f, ClassIds(partition))
  {
    var els, ids := partition.elements, ClassIds(partition);
    forall d, e | Alike(f, ids, d, e) ensures ids[Arc(f, d).nextstate] == ids[Arc(f, e).nextstate] {
      assert Step(f, d.src, Arc(f, d).ilabel, Arc(f, d).nextstate)
             && Step(f, e.src, Arc(f, d).ilabel, Arc(f, e).nextstate);
    }
  }

  method MinimizeTrim(fst: VectorFst, acyclicBranch: bool) returns (ghost image: seq<nat>)
    requires Suitable(fst.Value()) && Trim(fst.Value()) && fst.start.Some?
    requires acyclicBranch ==> Acyclic(fst.Value())
    modifies fst
    ensures Minimized(old(fst.Value()), fst.Value(), acyclicBranch || KeysAgree(old(fst.Value())))
    ensures MergedExactly(old(fst.Value()), image, fst.Value())
    ensures MergedBy(old(fst.Value()), image, acyclicBranch)
    ensures old(BitsTrue(fst.Value(), fst.properties)) ==> TrimmedBits(fst)
  {
    hide BitsTrue, SortedByILabel, TrimmedBits, MergedBy, SameClasses, Nerode, Kindred, Suitable, Trim, Acyclic,
      Minimized, KeysAgree, Congruence, Congruent,
         MergedExactly, Budget, FewMoves;
    ghost var t := fst.Value();
    if acyclicBranch {
      TrSort(fst);
      SortedReady(t, fst.Value());
      var partition := AcyclicMinimize(fst.Value());
      PartitionReady(fst.Value(), partition);
      ghost var f := fst.Value();
      CoarsePartition(f, partition);
      image := MergeAndUnique(fst, partition, true);
      MergedByNerode(t, f, partition, image);
      MinimizedSorted(t, f, fst.Value(), true);
      RearrangedMerged(t, f, image, fst.Value());
    } else {
      TrimAutomaton(t);
      var partition;
      ghost var dequeued;
      partition, dequeued := CyclicMinimize(fst.Value());
      PartitionReady(t, partition);
      CongruentClasses(t, partition);
      image := MergeAndUnique(fst, partition, KeysAgree(t));
      MergedByKindred(t, partition, image);
    }
  }

  lemma MergedByNerode(t: Fst<Weight>, f: Fst<Weight>, partition: Partition, image: seq<nat>)
    requires WellFormed(t) && Rearranged(t, f) && |partition.elements| == |f.states|
             && SameClasses(image, ClassIds(partition))
    requires forall p: nat, q: nat :: p < |f.states| && q < |f.states| ==>
        (partition.ClassOf(p) == partition.ClassOf(q) <==> Nerode(f, p, q))
    ensures MergedBy(t, image, true)
  {
    hide Accepts;
    var ids := ClassIds(partition);
    forall x: nat, y: nat | x < |image| && y < |image| ensures image[x] == image[y] <==> Nerode(t, x, y) {
      assert ids[x] == partition.ClassOf(x) && ids[y] == partition.ClassOf(y);
      forall w ensures Accepts(t, x, w) == Accepts(f, x, w) && Accepts(t, y, w) == Accepts(f, y, w) {
        RearrangedSame(t, f, x, w);
        RearrangedSame(t, f, y, w);
      }
    }
  }

  lemma MergedByKindred(t: Fst<Weight>, partition: Partition, image: seq<nat>)
    requires |partition.elements| == |t.states| && SameClasses(image, ClassIds(partition))
    requires forall p: nat, q: nat :: p < |t.states| && q < |t.states| ==>
        (partition.ClassOf(p) == partition.ClassOf(q) <==> Kindred(t, p, q))
    ensures MergedBy(t, image, false)
  {
    hide Kindred;
    var ids := ClassIds(partition);
    forall x: nat, y: nat | x < |image| && y < |image| ensures image[x] == image[y] <==> Kindred(t, x, y) {
      assert ids[x] == partition.ClassOf(x) && ids[y] == partition.ClassOf(y);
    }
  }

  lemma CoarsePartition(f: Fst<Weight>, partition: Partition)
    requires ReadyToMerge(f, partition) && Coarse(f, ClassIds(partition))
    ensures Congruence(f, ClassIds(partition))
  {
    hide Nerode, Trim;
    CoarseCongruent(f, ClassIds(partition));
  }

  lemma TrimAutomaton(f: Fst<Weight>)
    requires Suitable(f) && Trim(f)
    ensures Automaton(f) && WellFormed(f) && (ILabelSorted(f) ==> KeysAgree(f))
  {
    assert AllCoAccessible(f);
    if ILabelSorted(f) {
      SortedKeysAgree(f);
    }
  }

  lemma SortedReady(t: Fst<Weight>, f: Fst<Weight>)
    requires Suitable(t) && Trim(t) && Acyclic(t) && SortedAt(t, f)
    ensures WellFormed(t) && Rearranged(t, f) && Suitable(f) && Trim(f) && Acyclic(f) && ILabelSorted(f)
            && UnitFinals(f) && Automaton(f) && WellFormed(f)
  {
    SortedFacts(t, f);
    RearrangedTrim(t, f);
    SortedAcyclic(t, f);
    TrimAutomaton(f);
  }

  /** The bits tell whether `p` holds. */
  predicate Knows(props: set<Property>, p: Property) {
    p in props || Opposite(p) in props
  }

  lemma KnownBits(f: Fst<Weight>, props: set<Property>)
    requires BitsTrue(f, props) && Knows(props, ACCEPTOR) && Knows(props, UNWEIGHTED) && Knows(props, ACYCLIC)
    ensures (ACCEPTOR in props <==> IsAcceptor(f)) && (UNWEIGHTED in props <==> IsUnweighted(f))
            && (ACYCLIC in props <==> Acyclic(f))
  {
    hide IsAcceptor, IsUnweighted, Acyclic;
    assert ACCEPTOR in props ==> Holds(f, ACCEPTOR);
    assert NOT_ACCEPTOR in props ==> Holds(f, NOT_ACCEPTOR);
    assert UNWEIGHTED in props ==> Holds(f, UNWEIGHTED);
    assert WEIGHTED in props ==> Holds(f, WEIGHTED);
    assert ACYCLIC in props ==> Holds(f, ACYCLIC);
    assert CYCLIC in props ==> Holds(f, CYCLIC);
  }

  /** In-place minimization of an unweighted deterministic acceptor. `props` are the bits that
      `compute_and_update_properties` leaves on the machine; the result is minimal on the acyclic branch,
      and on the other exactly when the label keys of the trim machine `t` agree on equivalent states. */
  method AcceptorMinimize(fst: VectorFst, allowAcyclic: bool, props: set<Property>)
    returns (ok: bool, ghost t: Fst<Weight>, ghost image: seq<nat>)
    requires WellFormed(fst.Value()) && Deterministic(fst.Value()) && |fst.states| <= MAX_ELEMENTS
             && NoZeroFinals(fst.Value())
    requires BitsTrue(fst.Value(), props) && Knows(props, ACCEPTOR) && Knows(props, UNWEIGHTED) && Knows(props, ACYCLIC)
    modifies fst
    ensures ok <==> old(IsAcceptor(fst.Value()) && IsUnweighted(fst.Value()))
    ensures !ok ==> fst.Value() == old(fst.Value()) && fst.properties == props
    ensures ok ==> IsTrimmed(old(fst.Value()), Useless(old(fst.Value())), t)
    ensures ok ==> Minimized(old(fst.Value()), fst.Value(), (allowAcyclic && old(Acyclic(fst.Value()))) || KeysAgree(t))
    ensures ok ==> MergedExactly(t, image, fst.Value())
    ensures ok ==> MergedBy(t, image, allowAcyclic && old(Acyclic(fst.Value())))
    ensures ok && old(ILabelSorted(fst.Value())) ==> KeysAgree(t)
    ensures BitsTrue(fst.Value(), fst.properties) && (ok ==> {ACCESSIBLE, COACCESSIBLE} <= fst.properties)
  {
    t, image := fst.Value(), [];
    fst.properties := props;
    ok := ACCEPTOR in props && UNWEIGHTED in props;
    var acyclic := ACYCLIC in props;
    KnownBits(fst.Value(), props);
    if !ok {
      return;
    }
    ghost var f0 := fst.Value();
    InputSuitable(f0);
    ConnectByBits(fst);
    t := fst.Value();
    TrimReady(f0, t);
    hide *;
    if |fst.states| == 0 {
      EmptyMinimized(f0, fst.Value(), (allowAcyclic && acyclic) || KeysAgree(t));
      EmptyMerged(t);
      return;
    }
    image := MinimizeTrim(fst, allowAcyclic && acyclic);
    MinimizedTrimmed(f0, t, fst.Value(), (allowAcyclic && acyclic) || KeysAgree(t));
  }

  lemma InputSuitable(f: Fst<Weight>)
    requires WellFormed(f) && Deterministic(f) && |f.states| <= MAX_ELEMENTS && NoZeroFinals(f) && IsAcceptor(f)
             && IsUnweighted(f)
    ensures Suitable(f)
  {
  }

  lemma TrimReady(f: Fst<Weight>, t: Fst<Weight>)
    requires Suitable(f) && IsTrimmed(f, Useless(f), t)
    ensures WellFormed(f) && WellFormed(t) && Suitable(t) && Trim(t) && (t.states != [] ==> t.start.Some?)
    ensures ILabelSorted(f) ==> KeysAgree(t)
    ensures Acyclic(f) ==> Acyclic(t)
  {
    TrimmedSuitable(f, Useless(f), t);
    forall k: nat | k < |t.states| ensures Accessible(t, k) && CoReach(t, k) {
      var s := TrimmedIsTrim(f, t, k);
    }
    TrimAutomaton(t);
    if t.states != [] {
      assert Accessible(t, 0);
    }
    if Acyclic(f) {
      TrimmedAcyclic(f, Useless(f), t);
    }
  }

  lemma EmptyMinimized(f: Fst<Weight>, g: Fst<Weight>, coarse: bool)
    requires Suitable(f) && IsTrimmed(f, Useless(f), g) && g.states == [] && WellFormed(g) && coarse
    ensures Minimized(f, g, coarse)
  {
    forall w ensures Language(g, w) <==> Language(f, w) {
      TrimLanguage(f, g, w);
    }
    AgreeTrimmed(f, g);
  }

  lemma EmptyMerged(t: Fst<Weight>)
    requires t.states == [] && WellFormed(t)
    ensures MergedExactly(t, [], t)
    ensures MergedBy(t, [], true) && MergedBy(t, [], false)
  {
    assert forall d, e :: !Alike(t, [], d, e);
  }

  /** No deterministic acceptor of the same language is smaller than the result. */
  lemma MinimizedIsSmallest(f: Fst<Weight>, g: Fst<Weight>, h: Fst<Weight>)
    requires Minimized(f, g, true) && WeightsAgree(f)
    requires WellFormed(h) && Deterministic(h) && forall w :: Language(h, w) <==> Language(f, w)
    ensures |g.states| <= |h.states|
  {
    FewestStates(g, h);
  }

  // ------------------------------------------------ where the conditions fail

  /** States 1 and 2 are equivalent, but one of them has an arc of weight zero, which counts as unweighted. */
  const CLASHING: Fst<Weight> :=
    Fst([State(None, [Tr(1, 1, ONE, 1), Tr(2, 2, ONE, 2)]),
         State(None, [Tr(1, 1, ONE, 3), Tr(2, 2, ONE, 3)]),
         State(None, [Tr(2, 2, ONE, 3), Tr(1, 1, ZERO, 3)]),
         State(Some(ONE), [])], Some(0))

  /** This machine is acyclic and its result is reduced, but not deterministic. */
  lemma AcyclicNotDeterministic(t: Fst<Weight>, g: Fst<Weight>)
    requires WellFormed(CLASHING) && IsTrimmed(CLASHING, Useless(CLASHING), t)
             && Minimized(CLASHING, g, Acyclic(CLASHING) || KeysAgree(t))
    ensures Suitable(CLASHING) && IsUnweighted(CLASHING) && NoZeroFinals(CLASHING) && Acyclic(CLASHING)
    ensures Reduced(g) && !Deterministic(g)
  {
    hide Suitable, IsUnweighted, NoZeroFinals, Acyclic, WeightsAgree, Reduced, Trim, Language, Deterministic,
         IsTrimmed, KeysAgree;
    ClashingWeights();
    ClashingAcyclic();
  }

  lemma ClashingAcyclic()
    ensures Acyclic(CLASHING)
  {
    hide Acyclic, InitialAcyclic;
    TopSortedAcyclic(CLASHING);
  }

  lemma ClashingWeights()
    ensures Suitable(CLASHING) && IsUnweighted(CLASHING) && NoZeroFinals(CLASHING) && !WeightsAgree(CLASHING)
  {
    ClashingNerode();
    ClashingLive();
    var f, d, e := CLASHING, Edge(1, 0), Edge(2, 1);
    assert Suitable(f) && IsUnweighted(f) && NoZeroFinals(f);
    hide Live, Nerode;
    assert Twins(f, d, e) && Arc(f, d).weight == ONE && Arc(f, e).weight == ZERO;
  }

  /** States 1 and 2 are equivalent, but list their labels in opposite orders; the last state has a loop. */
  const LOOPING: Fst<Weight> :=
    Fst([State(None, [Tr(1, 1, ONE, 1), Tr(2, 2, ONE, 2)]),
         State(None, [Tr(1, 1, ONE, 3), Tr(2, 2, ONE, 3)]),
         State(None, [Tr(2, 2, ONE, 3), Tr(1, 1, ONE, 3)]),
         State(Some(ONE), [Tr(1, 1, ONE, 3)])], Some(0))

  /** This machine is cyclic and trim, and its result has two equivalent states. */
  lemma CyclicNotReduced(t: Fst<Weight>, g: Fst<Weight>)
    requires WellFormed(LOOPING) && IsTrimmed(LOOPING, Useless(LOOPING), t)
             && Minimized(LOOPING, g, Acyclic(LOOPING) || KeysAgree(t))
    ensures Suitable(LOOPING) && IsUnweighted(LOOPING) && NoZeroFinals(LOOPING) && !Acyclic(LOOPING) && Trim(LOOPING)
    ensures t == LOOPING && !Reduced(g)
  {
    hide Suitable, IsUnweighted, NoZeroFinals, Acyclic, Reduced, Trim, IsTrimmed, KeysAgree, Minimized, Accessible,
         CoReach, LOOPING;
    LoopingSuitable();
    LoopingTrim();
    LoopingKeysDiffer();
    LoopingCycle();
    LoopingIsTrimmed(t);
    NotCoarse(LOOPING, g);
  }

  lemma LoopingSuitable()
    ensures Suitable(LOOPING) && IsUnweighted(LOOPING) && NoZeroFinals(LOOPING)
  {
  }

  lemma LoopingIsTrimmed(t: Fst<Weight>)
    requires WellFormed(LOOPING) && Trim(LOOPING) && IsTrimmed(LOOPING, Useless(LOOPING), t)
    ensures t == LOOPING
  {
    hide Accessible, CoReach, LOOPING, IsTrimmed;
    NothingUseless(LOOPING);
    TrimmedOnce(LOOPING, Useless(LOOPING), LOOPING, t);
  }

  lemma LoopingKeysDiffer()
    ensures !KeysAgree(LOOPING)
  {
    LoopingKeys();
    LoopingNerode();
    hide Key, Nerode;
  }

  lemma NotCoarse(f: Fst<Weight>, g: Fst<Weight>)
    requires Minimized(f, g, false)
    ensures !Reduced(g)
  {
  }

  lemma LoopingCycle()
    ensures !Acyclic(LOOPING)
  {
    var e := Edge(3, 0);
    assert [e][1..] == [] && IsPath(LOOPING, 3, [e], 3);
  }

  lemma LoopingTrim()
    ensures WellFormed(LOOPING) && Trim(LOOPING)
  {
    hide Reach, CoReach;
    LoopingReach();
    var f := LOOPING;
    CoReachFinal(f, 3);
    CoReachBack(f, 1, 3);
    CoReachBack(f, 2, 3);
    CoReachBack(f, 0, 3);
  }

  lemma LoopingReach()
    ensures WellFormed(LOOPING) && Reach(LOOPING, 1, 3) && Reach(LOOPING, 2, 3)
    ensures Reach(LOOPING, 0, 0) && Reach(LOOPING, 0, 1) && Reach(LOOPING, 0, 2) && Reach(LOOPING, 0, 3)
  {
    hide Reach;
    var f := LOOPING;
    assert WellFormed(f);
    ReachRefl(f, 0);
    ReachEdge(f, 0, 0);
    ReachEdge(f, 0, 1);
    ReachEdge(f, 1, 0);
    ReachEdge(f, 2, 1);
    ReachTrans(f, 0, 1, 3);
  }

  lemma LoopingKeys()
    ensures Key(LOOPING, 1) != Key(LOOPING, 2)
  {
    var f := LOOPING;
    assert Labels(f.states[1].trs) == [1, 2] && Labels(f.states[2].trs) == [2, 1];
    DedupIncreasing([1, 2]);
    assert Dedup([2, 1])[0] == 2;
  }

  lemma LoopingNerode()
    ensures Nerode(LOOPING, 1, 2)
  {
    var f := LOOPING;
    forall w ensures Accepts(f, 1, w) <==> Accepts(f, 2, w) {
      if w != [] {
        if Accepts(f, 1, w) {
          var i := AcceptsArc(f, 1, w);
          assert Reads(f, 2, 1 - i, w);
        }
        if Accepts(f, 2, w) {
          var i := AcceptsArc(f, 2, w);
          assert Reads(f, 1, 1 - i, w);
        }
      }
    }
  }

  lemma ClashingLive()
    ensures Live(CLASHING, Edge(1, 0)) && Live(CLASHING, Edge(2, 1))
  {
    var f := CLASHING;
    assert WellFormed(f);
    ReachEdge(f, 0, 0);
    ReachEdge(f, 0, 1);
    ReachEdge(f, 1, 0);
    ReachEdge(f, 2, 1);
    ReachTrans(f, 0, 1, 3);
    CoReachFinal(f, 3);
    CoReachBack(f, 1, 3);
    CoReachBack(f, 2, 3);
    hide Reach, CoReach, WellFormed;
  }

  lemma ClashingNerode()
    ensures Nerode(CLASHING, 1, 2)
  {
    var f := CLASHING;
    forall w ensures Accepts(f, 1, w) <==> Accepts(f, 2, w) {
      if w != [] {
        if Accepts(f, 1, w) {
          var i := AcceptsArc(f, 1, w);
          assert Reads(f, 2, 1 - i, w);
        }
        if Accepts(f, 2, w) {
          var i := AcceptsArc(f, 2, w);
          assert Reads(f, 1, 1 - i, w);
        }
      }
    }
  }
}
