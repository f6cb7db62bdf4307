/** What is left of a merged and trimmed acceptor: one state per class, and the least number of states. */
module Minimals {
  import opened Fsts
  import opened Acceptors
  import opened Languages
  import opened Merges
  import opened Partitions
  import opened Trims
  import opened TrSorts
  import opened VectorFsts
  import opened Weights

  ghost predicate Trim<W>(f: Fst<W>) {
    forall s :: 0 <= s < |f.states| ==> Accessible(f, s) && CoReach(f, s)
  }

  /** Everything known when `g` has come out of `merge_states` on the trim machine `f`. */
  ghost predicate Quotient(f: Fst<Weight>, classOf: seq<nat>, members: seq<seq<nat>>, rep: seq<nat>, m: Fst<Weight>,
                           g: Fst<Weight>) {
    Collapsed(f, classOf, members, rep, m, g) && Sound(f, classOf) && Trim(f) && f.start.Some?
  }

  /** The state of `g` for the class of `x`. */
  ghost function Image(m: Fst<Weight>, rep: seq<nat>, x: nat): nat
    requires x < |rep| && rep[x] < |m.states|
  {
    Rank(Useless(m), rep[x])
  }

  lemma RepUseful(f: Fst<Weight>, classOf: seq<nat>, members: seq<seq<nat>>, rep: seq<nat>, m: Fst<Weight>,
                  g: Fst<Weight>, x: nat)
    requires Quotient(f, classOf, members, rep, m, g) && x < |f.states|
    ensures rep[x] < |m.states| == |Useless(m)| && !Useless(m)[rep[x]] && Image(m, rep, x) < |g.states|
  {
    RepFacts(f, classOf, members, rep, x);
    assert Accessible(f, x) && CoReach(f, x);
    var p := ReachPath(f, f.start.value, x);
    MergedFollows(f, classOf, members, rep, m, f.start.value, p, x);
    var w := CoReachWord(f, x);
    MergedAccepts(f, classOf, members, rep, m, x, w);
    AcceptsCoReach(m, rep[x], w);
    hide Sound, Represents, MergedState, Trim, Reach, CoReach, Rank, KeptTrs;
    assert Accessible(m, rep[x]) && CoReach(m, rep[x]) && rep[x] < |m.states|;
  }

  /** Every state of the result is the image of a representative and accepts what its class accepts. */
  lemma ImageOf(f: Fst<Weight>, classOf: seq<nat>, members: seq<seq<nat>>, rep: seq<nat>, m: Fst<Weight>,
                g: Fst<Weight>, k: nat)
    returns (y: nat)
    requires Quotient(f, classOf, members, rep, m, g) && k < |g.states|
    ensures y < |f.states| && rep[y] == y && y < |m.states| && Image(m, rep, y) == k
  {
    y := Unrank(Useless(m), k, |m.states|);
    var s := f.start.value;
    RepFacts(f, classOf, members, rep, s);
    var p :| IsPath(m, rep[s], p, y);
    MergedPath(f, classOf, members, rep, m, rep[s], p, y);
  }

  lemma ImageAccepts(f: Fst<Weight>, classOf: seq<nat>, members: seq<seq<nat>>, rep: seq<nat>, m: Fst<Weight>,
                     g: Fst<Weight>, x: nat, w: seq<Label>)
    requires Quotient(f, classOf, members, rep, m, g) && x < |f.states|
    ensures rep[x] < |m.states| && (Accepts(g, Image(m, rep, x), w) <==> Accepts(f, x, w))
  {
    RepUseful(f, classOf, members, rep, m, g, x);
    MergedAccepts(f, classOf, members, rep, m, x, w);
    TrimAccepts(m, g, rep[x], w);
  }

  /** No two states of the result accept the same words. */
  ghost predicate Reduced<W>(g: Fst<W>) {
    forall k, l :: 0 <= k < l < |g.states| ==> !Nerode(g, k, l)
  }

  lemma QuotientReduced(f: Fst<Weight>, classOf: seq<nat>, members: seq<seq<nat>>, rep: seq<nat>, m: Fst<Weight>,
                        g: Fst<Weight>)
    requires Quotient(f, classOf, members, rep, m, g) && Coarse(f, classOf)
    ensures Reduced(g)
  {
    forall k, l | 0 <= k < l < |g.states| ensures !Nerode(g, k, l) {
      var x := ImageOf(f, classOf, members, rep, m, g, k);
      var y := ImageOf(f, classOf, members, rep, m, g, l);
      if Nerode(g, k, l) {
        forall w ensures Accepts(f, x, w) <==> Accepts(f, y, w) {
          ImageAccepts(f, classOf, members, rep, m, g, x, w);
          ImageAccepts(f, classOf, members, rep, m, g, y, w);
          assert Accepts(g, k, w) <==> Accepts(g, l, w);
        }
        assert Nerode(f, x, y);
      }
    }
  }

  lemma QuotientLanguage(f: Fst<Weight>, classOf: seq<nat>, members: seq<seq<nat>>, rep: seq<nat>, m: Fst<Weight>,
                         g: Fst<Weight>, w: seq<Label>)
    requires Quotient(f, classOf, members, rep, m, g)
    ensures Language(g, w) <==> Language(f, w)
  {
    MergedLanguage(f, classOf, members, rep, m, w);
    TrimLanguage(m, g, w);
  }

  // ------------------------------------------------ determinism

  /** Arc `j` of `y` as it appears in the result. */
  ghost function ImageTr(f: Fst<Weight>, rep: seq<nat>, m: Fst<Weight>, y: nat, j: nat): Tr<Weight>
    requires WellFormed(f) && |rep| == |f.states| && y < |f.states| && j < |f.states[y].trs|
    requires forall x :: 0 <= x < |rep| ==> rep[x] < |m.states|
  {
    Renumbered(Useless(m), Redirect(rep, f.states[y].trs[j]))
  }

  lemma RepsBelow(f: Fst<Weight>, classOf: seq<nat>, members: seq<seq<nat>>, rep: seq<nat>, m: Fst<Weight>,
                  g: Fst<Weight>)
    requires Quotient(f, classOf, members, rep, m, g)
    ensures WellFormed(f) && |rep| == |f.states| == |classOf| && forall x :: 0 <= x < |rep| ==> rep[x] < |m.states|
  {
    forall x | 0 <= x < |rep| ensures rep[x] < |m.states| {
      RepFacts(f, classOf, members, rep, x);
    }
  }

  lemma ImageTrHas(f: Fst<Weight>, classOf: seq<nat>, members: seq<seq<nat>>, rep: seq<nat>, m: Fst<Weight>,
                   g: Fst<Weight>, y: nat, j: nat)
    requires Quotient(f, classOf, members, rep, m, g) && y < |f.states| && j < |f.states[y].trs|
    requires forall x :: 0 <= x < |rep| ==> rep[x] < |m.states|
    ensures Image(m, rep, y) < |g.states| && ImageTr(f, rep, m, y, j) in g.states[Image(m, rep, y)].trs
  {
    RepUseful(f, classOf, members, rep, m, g, y);
    RepUseful(f, classOf, members, rep, m, g, f.states[y].trs[j].nextstate);
    var i := MergedHas(f, classOf, members, rep, m, y, j);
    MapEdgeArc(m, Useless(m), g, Edge(rep[y], i));
  }

  lemma ImageTrFrom(f: Fst<Weight>, classOf: seq<nat>, members: seq<seq<nat>>, rep: seq<nat>, m: Fst<Weight>,
                    g: Fst<Weight>, x: nat, k: nat, i: nat) returns (y: nat, j: nat)
    requires Quotient(f, classOf, members, rep, m, g) && x < |f.states|
    requires forall x :: 0 <= x < |rep| ==> rep[x] < |m.states|
    requires k == Image(m, rep, x) < |g.states| && i < |g.states[k].trs|
    ensures y < |f.states| && j < |f.states[y].trs| && classOf[y] == classOf[x]
            && g.states[k].trs[i] == ImageTr(f, rep, m, y, j)
  {
    RepUseful(f, classOf, members, rep, m, g, x);
    var i' := KeptFrom(Useless(m), m.states[rep[x]].trs, i);
    MapEdgeArc(m, Useless(m), g, Edge(rep[x], i'));
    y, j := MergedFrom(f, classOf, members, rep, m, x, i');
  }

  /** An arc on some successful path. */
  ghost predicate Live(f: Fst<Weight>, e: Edge) {
    WellFormed(f) && Alive(f, Useless(f), e)
  }

  /** Arcs with one label out of equivalent states. */
  ghost predicate Twins(f: Fst<Weight>, d: Edge, e: Edge) {
    IsEdge(f, d) && IsEdge(f, e) && Arc(f, d).ilabel == Arc(f, e).ilabel && Nerode(f, d.src, e.src)
  }

  /** Equivalent states put equal weights on equal labels. */
  ghost predicate WeightsAgree(f: Fst<Weight>) {
    forall d, e :: Live(f, d) && Live(f, e) && Twins(f, d, e) ==> Arc(f, d).weight == Arc(f, e).weight
  }

  lemma TrimLive(f: Fst<Weight>, e: Edge)
    requires WellFormed(f) && Trim(f) && IsEdge(f, e)
    ensures Live(f, e)
  {
    assert Accessible(f, e.src) && CoReach(f, e.src);
    assert Accessible(f, Arc(f, e).nextstate) && CoReach(f, Arc(f, e).nextstate);
  }

  /** Equal labels from one class lead to one class. */
  lemma SameClassStep(f: Fst<Weight>, classOf: seq<nat>, d: Edge, e: Edge)
    requires WellFormed(f) && Trim(f) && Deterministic(f) && |classOf| == |f.states| && Sound(f, classOf)
             && Coarse(f, classOf)
    requires Twins(f, d, e)
    ensures classOf[Arc(f, d).nextstate] == classOf[Arc(f, e).nextstate]
  {
    var a, t, u := Arc(f, d).ilabel, Arc(f, d).nextstate, Arc(f, e).nextstate;
    assert Step(f, d.src, a, t) && Step(f, e.src, a, u);
    var v := NerodeStep(f, d.src, e.src, a, t);
    StepUnique(f, e.src, a, u, v);
  }

  // ------------------------------------------------ the result as a quotient

  /** Arc `tr` as it appears in the result. */
  function ImagedTr(image: seq<nat>, tr: Tr<Weight>): Tr<Weight>
    requires tr.nextstate < |image|
  {
    tr.(nextstate := image[tr.nextstate])
  }

  /** State `x` of `f` has become state `image[x]` of `g`: nothing else is in `g`, languages are the same,
      and the arcs are those of all the merged states, redirected. */
  ghost predicate MergedInto(f: Fst<Weight>, image: seq<nat>, g: Fst<Weight>) {
    && WellFormed(f) && |image| == |f.states|
    && (forall x :: 0 <= x < |image| ==> image[x] < |g.states|)
    && (forall k: nat :: k < |g.states| ==> k in image)
    && (forall x: nat, w :: x < |image| ==> (Accepts(g, image[x], w) <==> Accepts(f, x, w)))
    && (forall e :: IsEdge(f, e) ==> ImagedTr(image, Arc(f, e)) in g.states[image[e.src]].trs)
    && (forall k: nat, tr :: k < |g.states| && tr in g.states[k].trs ==> ImageArc(f, image, k, tr))
  }

  ghost predicate ImageArc(f: Fst<Weight>, image: seq<nat>, k: nat, tr: Tr<Weight>)
    requires WellFormed(f) && |image| == |f.states|
  {
    exists e :: IsEdge(f, e) && image[e.src] == k && tr == ImagedTr(image, Arc(f, e))
  }

  lemma QuotientImage(f: Fst<Weight>, classOf: seq<nat>, members: seq<seq<nat>>, rep: seq<nat>, m: Fst<Weight>,
                      g: Fst<Weight>) returns (image: seq<nat>)
    requires Quotient(f, classOf, members, rep, m, g)
    ensures MergedInto(f, image, g)
    ensures forall x, y :: 0 <= x < |f.states| && 0 <= y < |f.states| ==>
        (image[x] == image[y] <==> classOf[x] == classOf[y])
    ensures (forall x :: 0 <= x < |f.states| && f.states[x].finalWeight.Some? ==> f.states[x].finalWeight == Some(ONE))
            ==> SameEnds(f, image, g)
  {
    hide Quotient, Image, ImageTr, ImageArc, Accepts;
    RepsBelow(f, classOf, members, rep, m, g);
    image := seq(|f.states|, x requires 0 <= x < |f.states| => Image(m, rep, x));
    forall x: nat | x < |image| ensures image[x] < |g.states| {
      RepUseful(f, classOf, members, rep, m, g, x);
    }
    forall x: nat, w | x < |image| ensures Accepts(g, image[x], w) <==> Accepts(f, x, w) {
      ImageAccepts(f, classOf, members, rep, m, g, x, w);
    }
    forall k: nat | k < |g.states| ensures k in image {
      var y := ImageOf(f, classOf, members, rep, m, g, k);
      assert image[y] == k;
    }
    forall e | IsEdge(f, e) ensures ImagedTr(image, Arc(f, e)) in g.states[image[e.src]].trs {
      ImageTrHas(f, classOf, members, rep, m, g, e.src, e.pos);
      ImagedIs(f, classOf, members, rep, m, g, image, e);
    }
    forall k: nat, tr | k < |g.states| && tr in g.states[k].trs ensures ImageArc(f, image, k, tr) {
      QuotientArc(f, classOf, members, rep, m, g, image, k, tr);
    }
    forall x, y | 0 <= x < |f.states| && 0 <= y < |f.states|
      ensures image[x] == image[y] <==> classOf[x] == classOf[y] {
      SameImage(f, classOf, members, rep, m, g, x, y);
    }
    QuotientStart(f, classOf, members, rep, m, g);
    if forall x :: 0 <= x < |f.states| && f.states[x].finalWeight.Some? ==> f.states[x].finalWeight == Some(ONE) {
      forall x: nat | x < |image| ensures g.states[image[x]].finalWeight == f.states[x].finalWeight {
        QuotientFinal(f, classOf, members, rep, m, g, x);
      }
    }
  }

  /** Start state and final weights of the result are those of the merged states. */
  ghost predicate SameEnds(f: Fst<Weight>, image: seq<nat>, g: Fst<Weight>) {
    && |image| == |f.states|
    && (f.start.None? ==> g.start == None)
    && (f.start.Some? ==> f.start.value < |image| && g.start == Some(image[f.start.value]))
    && forall x :: 0 <= x < |image|
         ==> image[x] < |g.states| && g.states[image[x]].finalWeight == f.states[x].finalWeight
  }

  lemma QuotientFinal(f: Fst<Weight>, classOf: seq<nat>, members: seq<seq<nat>>, rep: seq<nat>, m: Fst<Weight>,
                      g: Fst<Weight>, x: nat)
    requires Quotient(f, classOf, members, rep, m, g) && x < |f.states|
    requires forall y :: 0 <= y < |f.states| && f.states[y].finalWeight.Some? ==> f.states[y].finalWeight == Some(ONE)
    ensures |rep| == |f.states| && rep[x] < |m.states| && Image(m, rep, x) < |g.states|
    ensures g.states[Image(m, rep, x)].finalWeight == f.states[x].finalWeight
  {
    RepUseful(f, classOf, members, rep, m, g, x);
    RepFacts(f, classOf, members, rep, x);
    hide Reach, CoReach, Accessible, Useless, Trim, Gathered, KeptTrs, Represents, Rank, Image, MergedState;
    assert m.states[rep[x]] == MergedState(f, members, classOf, rep, rep[x]);
    TrimmedFinal(m, Useless(m), g, rep[x]);
    assert Nerode(f, x, rep[x]);
    assert Accepts(f, x, []) <==> Accepts(f, rep[x], []);
  }

  lemma TrimmedFinal(m: Fst<Weight>, dead: seq<bool>, g: Fst<Weight>, s: nat)
    requires WellFormed(m) && |dead| == |m.states| && IsTrimmed(m, dead, g) && s < |m.states| && !dead[s]
    ensures Rank(dead, s) < |g.states| && g.states[Rank(dead, s)].finalWeight == m.states[s].finalWeight
  {
    hide KeptTrs;
  }

  lemma QuotientStart(f: Fst<Weight>, classOf: seq<nat>, members: seq<seq<nat>>, rep: seq<nat>, m: Fst<Weight>,
                      g: Fst<Weight>)
    requires Quotient(f, classOf, members, rep, m, g)
    ensures |rep| == |f.states| && f.start.Some? && f.start.value < |f.states| && rep[f.start.value] < |m.states|
    ensures g.start == Some(Image(m, rep, f.start.value))
  {
    RepUseful(f, classOf, members, rep, m, g, f.start.value);
    hide Reach, CoReach, Accessible, Useless, Trim, Gathered, KeptTrs, Represents, Rank, MergedState;
  }

  lemma ImagedIs(f: Fst<Weight>, classOf: seq<nat>, members: seq<seq<nat>>, rep: seq<nat>, m: Fst<Weight>,
                 g: Fst<Weight>, image: seq<nat>, e: Edge)
    requires Quotient(f, classOf, members, rep, m, g) && IsEdge(f, e) && |image| == |f.states| == |rep|
    requires forall x :: 0 <= x < |rep| ==> rep[x] < |m.states| && image[x] == Image(m, rep, x)
    ensures WellFormed(f) && ImagedTr(image, Arc(f, e)) == ImageTr(f, rep, m, e.src, e.pos)
  {
  }

  lemma QuotientArc(f: Fst<Weight>, classOf: seq<nat>, members: seq<seq<nat>>, rep: seq<nat>, m: Fst<Weight>,
                    g: Fst<Weight>, image: seq<nat>, k: nat, tr: Tr<Weight>)
    requires Quotient(f, classOf, members, rep, m, g) && |image| == |f.states| == |rep| && WellFormed(f)
             && k < |g.states| && tr in g.states[k].trs
    requires forall x :: 0 <= x < |rep| ==> rep[x] < |m.states| && image[x] == Image(m, rep, x)
    ensures ImageArc(f, image, k, tr)
  {
    hide Quotient, Image, ImageTr;
    var x := ImageOf(f, classOf, members, rep, m, g, k);
    var i :| 0 <= i < |g.states[k].trs| && g.states[k].trs[i] == tr;
    var y, j := ImageTrFrom(f, classOf, members, rep, m, g, x, k, i);
    SameImage(f, classOf, members, rep, m, g, x, y);
    ImagedIs(f, classOf, members, rep, m, g, image, Edge(y, j));
    assert IsEdge(f, Edge(y, j)) && image[y] == k;
  }

  lemma QuotientParts(f: Fst<Weight>, classOf: seq<nat>, members: seq<seq<nat>>, rep: seq<nat>, m: Fst<Weight>,
                      g: Fst<Weight>)
    requires Quotient(f, classOf, members, rep, m, g)
    ensures WellFormed(f) && Represents(f, classOf, members, rep) && |rep| == |classOf| == |f.states|
  {
  }

  lemma SameRep(f: Fst<Weight>, classOf: seq<nat>, members: seq<seq<nat>>, rep: seq<nat>, x: nat, y: nat)
    requires Represents(f, classOf, members, rep) && x < |f.states| && y < |f.states|
    ensures classOf[x] == classOf[y] ==> rep[x] == rep[y]
  {
  }

  /** Two states have one image exactly when they are in one class. */
  lemma SameImage(f: Fst<Weight>, classOf: seq<nat>, members: seq<seq<nat>>, rep: seq<nat>, m: Fst<Weight>,
                  g: Fst<Weight>, x: nat, y: nat)
    requires Quotient(f, classOf, members, rep, m, g) && x < |f.states| && y < |f.states|
    ensures |rep| == |classOf| == |f.states| && rep[x] < |m.states| && rep[y] < |m.states|
    ensures Image(m, rep, x) == Image(m, rep, y) <==> classOf[x] == classOf[y]
  {
    hide Quotient, Represents, MergedState, Accessible, CoReach;
    QuotientParts(f, classOf, members, rep, m, g);
    RepUseful(f, classOf, members, rep, m, g, x);
    RepUseful(f, classOf, members, rep, m, g, y);
    RepFacts(f, classOf, members, rep, x);
    RepFacts(f, classOf, members, rep, y);
    SameRep(f, classOf, members, rep, x, y);
    var dead := Useless(m);
    if rep[x] < rep[y] {
      RankMonotone(dead, rep[x], rep[y]);
    } else if rep[y] < rep[x] {
      RankMonotone(dead, rep[y], rep[x]);
    }
  }

  // ------------------------------------------------ when the result is deterministic

  /** Arcs with one label out of merged states. */
  ghost predicate Alike(f: Fst<Weight>, image: seq<nat>, d: Edge, e: Edge) {
    && |image| == |f.states| && IsEdge(f, d) && IsEdge(f, e)
    && Arc(f, d).ilabel == Arc(f, e).ilabel && image[d.src] == image[e.src]
  }

  /** Merged states step to merged states. */
  ghost predicate Congruence(f: Fst<Weight>, image: seq<nat>) {
    && WellFormed(f) && |image| == |f.states|
    && forall d, e :: Alike(f, image, d, e) ==> image[Arc(f, d).nextstate] == image[Arc(f, e).nextstate]
  }

  /** Merged states put equal weights on equal labels. */
  ghost predicate MergedWeightsAgree(f: Fst<Weight>, image: seq<nat>) {
    forall d, e :: Alike(f, image, d, e) ==> Arc(f, d).weight == Arc(f, e).weight
  }

  /** In the result a label is on one arc per state exactly when the weights agree. */
  lemma OneArcExactly(f: Fst<Weight>, image: seq<nat>, g: Fst<Weight>)
    requires MergedInto(f, image, g) && Congruence(f, image) && IsAcceptor(f)
    ensures (forall k :: 0 <= k < |g.states| ==> OneArcPerLabel(g.states[k].trs)) <==> MergedWeightsAgree(f, image)
  {
    if MergedWeightsAgree(f, image) {
      forall k, a, b | 0 <= k < |g.states| && a in g.states[k].trs && b in g.states[k].trs && a.ilabel == b.ilabel
        ensures a == b {
        assert ImageArc(f, image, k, a) && ImageArc(f, image, k, b);
        var d :| IsEdge(f, d) && image[d.src] == k && a == ImagedTr(image, Arc(f, d));
        var e :| IsEdge(f, e) && image[e.src] == k && b == ImagedTr(image, Arc(f, e));
        assert Alike(f, image, d, e);
      }
    }
    if forall k :: 0 <= k < |g.states| ==> OneArcPerLabel(g.states[k].trs) {
      forall d, e | Alike(f, image, d, e) ensures Arc(f, d).weight == Arc(f, e).weight {
        var k := image[d.src];
        assert OneArcPerLabel(g.states[k].trs);
        assert ImagedTr(image, Arc(f, d)) in g.states[k].trs && ImagedTr(image, Arc(f, e)) in g.states[k].trs;
      }
    }
  }

  /** The coarsest sound partition is a congruence, ... */
  lemma CoarseCongruent(f: Fst<Weight>, image: seq<nat>)
    requires WellFormed(f) && Trim(f) && Deterministic(f) && |image| == |f.states| && Sound(f, image)
             && Coarse(f, image)
    ensures Congruence(f, image)
  {
    forall d, e | Alike(f, image, d, e) ensures image[Arc(f, d).nextstate] == image[Arc(f, e).nextstate] {
      assert Twins(f, d, e);
      SameClassStep(f, image, d, e);
    }
  }

  /** ... and for it merged means equivalent. */
  lemma CoarseWeights(f: Fst<Weight>, image: seq<nat>)
    requires WellFormed(f) && Trim(f) && |image| == |f.states| && Sound(f, image)
    ensures WeightsAgree(f) ==> MergedWeightsAgree(f, image)
    ensures Coarse(f, image) && MergedWeightsAgree(f, image) ==> WeightsAgree(f)
  {
    hide Nerode;
    if WeightsAgree(f) {
      forall d, e | Alike(f, image, d, e) ensures Arc(f, d).weight == Arc(f, e).weight {
        TrimLive(f, d);
        TrimLive(f, e);
        assert Twins(f, d, e);
      }
    }
    if Coarse(f, image) && MergedWeightsAgree(f, image) {
      forall d, e | Live(f, d) && Live(f, e) && Twins(f, d, e) ensures Arc(f, d).weight == Arc(f, e).weight {
        assert Alike(f, image, d, e);
      }
    }
  }
}
