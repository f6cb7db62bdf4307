/** Minimization and weights: which words keep theirs. */
module WordWeights {
  import opened Fsts
  import opened Acceptors
  import opened AcceptorMinimize
  import opened Languages
  import opened Minimals
  import opened Trims
  import opened VectorFsts
  import opened Weights

  // ------------------------------------------------ the word on a path

  ghost function Word<W>(f: Fst<W>, p: seq<Edge>): seq<Label>
    requires forall k :: 0 <= k < |p| ==> IsEdge(f, p[k])
  {
    seq(|p|, k requires 0 <= k < |p| => Arc(f, p[k]).ilabel)
  }

  lemma {:induction false} PathEdges<W>(f: Fst<W>, s: nat, p: seq<Edge>, t: nat)
    requires IsPath(f, s, p, t)
    ensures forall k :: 0 <= k < |p| ==> IsEdge(f, p[k])
    decreases |p|
  {
    if p != [] {
      PathEdges(f, Arc(f, p[0]).nextstate, p[1..], t);
      assert forall k :: 0 < k < |p| ==> p[k] == p[1..][k-1];
    }
  }

  /** Path `p` from `s` to `t` has the word `w`. */
  ghost predicate Carries<W>(f: Fst<W>, s: nat, p: seq<Edge>, t: nat, w: seq<Label>) {
    IsPath(f, s, p, t) && (forall k :: 0 <= k < |p| ==> IsEdge(f, p[k])) && Word(f, p) == w
  }

  lemma CarriesTail<W>(f: Fst<W>, s: nat, p: seq<Edge>, t: nat, w: seq<Label>)
    requires Carries(f, s, p, t, w) && p != []
    ensures |w| == |p| && w[0] == Arc(f, p[0]).ilabel && Carries(f, Arc(f, p[0]).nextstate, p[1..], t, w[1..])
  {
  }

  lemma CarriesCons<W>(f: Fst<W>, e: Edge, p: seq<Edge>, t: nat, w: seq<Label>)
    requires IsEdge(f, e) && Carries(f, Arc(f, e).nextstate, p, t, w)
    ensures Carries(f, e.src, [e] + p, t, [Arc(f, e).ilabel] + w)
  {
    assert ([e] + p)[1..] == p;
  }

  lemma {:induction false} CarriedAccepts<W>(f: Fst<W>, s: nat, p: seq<Edge>, t: nat, w: seq<Label>)
    requires Carries(f, s, p, t, w) && IsFinal(f, t)
    ensures Accepts(f, s, w)
    decreases |p|
  {
    if p != [] {
      CarriesTail(f, s, p, t, w);
      CarriedAccepts(f, Arc(f, p[0]).nextstate, p[1..], t, w[1..]);
      AcceptsStep(f, s, w[0], Arc(f, p[0]).nextstate, w[1..]);
      assert w == [w[0]] + w[1..];
    }
  }

  lemma {:induction false} AcceptedCarried<W>(f: Fst<W>, s: nat, w: seq<Label>) returns (p: seq<Edge>, t: nat)
    requires Accepts(f, s, w)
    ensures Carries(f, s, p, t, w) && IsFinal(f, t)
    decreases |w|
  {
    if w == [] {
      p, t := [], s;
    } else {
      var i := AcceptsArc(f, s, w);
      p, t := AcceptedCarried(f, f.states[s].trs[i].nextstate, w[1..]);
      CarriesCons(f, Edge(s, i), p, t, w[1..]);
      p := [Edge(s, i)] + p;
      assert w == [w[0]] + w[1..];
    }
  }

  /** In a deterministic machine a word is on one path. */
  lemma {:induction false} OnePath<W>(f: Fst<W>, s: nat, p: seq<Edge>, t: nat, q: seq<Edge>, u: nat, w: seq<Label>)
    requires Deterministic(f) && Carries(f, s, p, t, w) && Carries(f, s, q, u, w)
    ensures p == q && t == u
    decreases |p|
  {
    if p != [] {
      CarriesTail(f, s, p, t, w);
      CarriesTail(f, s, q, u, w);
      assert p[0] == q[0];
      OnePath(f, Arc(f, p[0]).nextstate, p[1..], t, q[1..], u, w[1..]);
      assert p == [p[0]] + p[1..] && q == [q[0]] + q[1..];
    }
  }

  lemma TraceCarries<W>(f: Fst<W>, s: nat, p: seq<Edge>, t: nat, g: Fst<W>, s': nat, q: seq<Edge>, t': nat)
    requires IsPath(f, s, p, t) && IsPath(g, s', q, t') && SameTrace(f, p, g, q)
    ensures (forall k :: 0 <= k < |p| ==> IsEdge(f, p[k])) && Carries(f, s, p, t, Word(f, p))
            && Carries(g, s', q, t', Word(f, p))
  {
    PathEdges(f, s, p, t);
    PathEdges(g, s', q, t');
    forall k | 0 <= k < |p| ensures Arc(f, p[k]).ilabel == Arc(g, q[k]).ilabel {
      assert SameArc(f, p[k], g, q[k]);
    }
    assert Word(g, q) == Word(f, p);
  }

  // ------------------------------------------------ paths of the merged machine

  lemma {:induction false} ImagePath(t: Fst<Weight>, image: seq<nat>, g: Fst<Weight>, s: nat, p: seq<Edge>, u: nat)
    returns (q: seq<Edge>)
    requires MergedInto(t, image, g) && IsPath(t, s, p, u) && s < |t.states|
    ensures u < |t.states| && IsPath(g, image[s], q, image[u]) && SameTrace(t, p, g, q)
    decreases |p|
  {
    if p == [] {
      q := [];
    } else {
      var d := ImageEdge(t, image, g, p[0]);
      q := ImagePath(t, image, g, Arc(t, p[0]).nextstate, p[1..], u);
      TraceCons(t, p, g, d, q);
      assert ([d] + q)[1..] == q;
      q := [d] + q;
    }
  }

  lemma ImageEdge(t: Fst<Weight>, image: seq<nat>, g: Fst<Weight>, e: Edge) returns (d: Edge)
    requires MergedInto(t, image, g) && IsEdge(t, e)
    ensures Arc(t, e).nextstate < |image| && e.src < |image|
    ensures IsEdge(g, d) && d.src == image[e.src] && Arc(g, d) == ImagedTr(image, Arc(t, e)) && SameArc(t, e, g, d)
  {
    var k := image[e.src];
    var i :| 0 <= i < |g.states[k].trs| && g.states[k].trs[i] == ImagedTr(image, Arc(t, e));
    d := Edge(k, i);
  }

  // ------------------------------------------------ successful paths

  ghost predicate HasTwin(f: Fst<Weight>, p: seq<Edge>, t: nat, g: Fst<Weight>) {
    exists q, u: nat :: SameSuccess(f, p, t, g, q, u)
  }

  /** Every successful path of `f` has one in `g` that reads, writes and weighs the same, arc by arc. */
  ghost predicate Covered(f: Fst<Weight>, g: Fst<Weight>) {
    forall p, t: nat :: Successful(f, p, t) ==> HasTwin(f, p, t, g)
  }

  lemma SuccessTrans(f: Fst<Weight>, p: seq<Edge>, t: nat, h: Fst<Weight>, q: seq<Edge>, u: nat, g: Fst<Weight>,
                     r: seq<Edge>, v: nat)
    requires SameSuccess(f, p, t, h, q, u) && SameSuccess(h, q, u, g, r, v)
    ensures SameSuccess(f, p, t, g, r, v)
  {
    TraceTrans(f, p, h, q, g, r);
  }

  lemma CoveredTrans(f: Fst<Weight>, h: Fst<Weight>, g: Fst<Weight>)
    requires Covered(f, h) && Covered(h, g)
    ensures Covered(f, g)
  {
    hide SameSuccess, Successful;
    forall p, t: nat | Successful(f, p, t) ensures HasTwin(f, p, t, g) {
      assert HasTwin(f, p, t, h);
      var q, u: nat :| SameSuccess(f, p, t, h, q, u);
      TwinSuccessful(f, p, t, h, q, u);
      assert HasTwin(h, q, u, g);
      var r, v: nat :| SameSuccess(h, q, u, g, r, v);
      SuccessTrans(f, p, t, h, q, u, g, r, v);
    }
  }

  lemma TwinSuccessful(f: Fst<Weight>, p: seq<Edge>, t: nat, g: Fst<Weight>, q: seq<Edge>, u: nat)
    requires SameSuccess(f, p, t, g, q, u)
    ensures Successful(f, p, t) && Successful(g, q, u) && SameSuccess(g, q, u, f, p, t)
  {
    forall k | 0 <= k < |p| ensures SameArc(g, q[k], f, p[k]) {
      assert SameArc(f, p[k], g, q[k]);
    }
  }

  lemma TrimCovered(f: Fst<Weight>, t: Fst<Weight>)
    requires WellFormed(f) && IsTrimmed(f, Useless(f), t)
    ensures Covered(f, t) && Covered(t, f)
  {
    forall p, v: nat | Successful(f, p, v) ensures HasTwin(f, p, v, t) {
      SuccessSurvives(f, t, p, v);
      assert SameSuccess(f, p, v, t, MapPath(f, Useless(f), p), Rank(Useless(f), v));
    }
    forall q, u: nat | Successful(t, q, u) ensures HasTwin(t, q, u, f) {
      var p, v := SuccessComesFrom(f, t, q, u);
      SuccessSurvives(f, t, p, v);
      TwinSuccessful(f, p, v, t, q, u);
    }
  }

  lemma MergedCovers(t: Fst<Weight>, image: seq<nat>, g: Fst<Weight>)
    requires MergedInto(t, image, g) && SameEnds(t, image, g)
    ensures Covered(t, g)
  {
    forall p, u: nat | Successful(t, p, u) ensures HasTwin(t, p, u, g) {
      var q := ImagePath(t, image, g, t.start.value, p, u);
      assert SameSuccess(t, p, u, g, q, image[u]);
    }
  }

  /** When merged weights agree the result is deterministic, and its only path for a word is the image of the
      old one. */
  lemma AgreeingCovers(t: Fst<Weight>, image: seq<nat>, g: Fst<Weight>)
    requires MergedInto(t, image, g) && SameEnds(t, image, g) && Deterministic(g)
    ensures Covered(g, t)
  {
    hide MergedInto, Deterministic;
    forall q, v: nat | Successful(g, q, v) ensures HasTwin(g, q, v, t) {
      var s := t.start.value;
      PathEdges(g, g.start.value, q, v);
      var w := Word(g, q);
      CarriedAccepts(g, g.start.value, q, v, w);
      ImageWords(t, image, g, s, w);
      var p, u := AcceptedCarried(t, s, w);
      var q' := ImagePath(t, image, g, s, p, u);
      TraceCarries(t, s, p, u, g, image[s], q', image[u]);
      OnePath(g, image[s], q, v, q', image[u], w);
      TwinSuccessful(t, p, u, g, q, v);
    }
  }

  lemma ImageWords(t: Fst<Weight>, image: seq<nat>, g: Fst<Weight>, s: nat, w: seq<Label>)
    requires MergedInto(t, image, g) && s < |image|
    ensures |image| == |t.states| && (Accepts(g, image[s], w) <==> Accepts(t, s, w))
  {
  }

  /** Through arcs with one label out of merged states the result has two paths for one word. */
  lemma ClashPaths(t: Fst<Weight>, image: seq<nat>, g: Fst<Weight>, d: Edge, e: Edge)
    requires MergedInto(t, image, g) && SameEnds(t, image, g) && Congruence(t, image) && Trim(t) && Deterministic(t)
             && Covered(g, t)
    requires Alike(t, image, d, e)
    ensures Arc(t, d).weight == Arc(t, e).weight
  {
    hide MergedInto, Deterministic, Covered, Congruence, SameEnds, SameTrace, SameSuccess, Trim;
    EndsFacts(t, image, g);
    CongruentEnds(t, image, d, e);
    var x, y, u := AroundArc(t, d);
    var s := t.start.value;
    var gx := ImagePath(t, image, g, s, x, d.src);
    var gy := ImagePath(t, image, g, Arc(t, d).nextstate, y, u);
    var gd := ImageEdge(t, image, g, d);
    var ge := ImageEdge(t, image, g, e);
    assert image[d.src] == gd.src == ge.src && Arc(g, gd).nextstate == Arc(g,
        ge).nextstate == image[Arc(t, d).nextstate];
    var p, v := TwinThrough(t, g, gx, gd, gy, image[u]);
    var q, w := TwinThrough(t, g, gx, ge, gy, image[u]);
    var a, b := gx + [gd] + gy, gx + [ge] + gy;
    PathEdges(g, g.start.value, a, image[u]);
    PathEdges(g, g.start.value, b, image[u]);
    assert a[|gx|] == gd && b[|gx|] == ge;
    TwinsShare(t, g, a, b, image[u], p, v, q, w, |gx|);
  }

  /** A path through an arc has a counterpart. */
  lemma TwinThrough(t: Fst<Weight>, g: Fst<Weight>, x: seq<Edge>, d: Edge, y: seq<Edge>, u: nat)
    returns (p: seq<Edge>, v: nat)
    requires Covered(g, t) && g.start.Some? && IsEdge(g, d)
    requires IsPath(g, g.start.value, x, d.src) && IsPath(g, Arc(g, d).nextstate, y, u) && IsFinal(g, u)
    ensures IsPath(g, g.start.value, x + [d] + y, u) && SameSuccess(g, x + [d] + y, u, t, p, v)
  {
    assert IsPath(g, d.src, [d] + y, u) by {
      assert ([d] + y)[1..] == y;
    }
    PathConcat(g, g.start.value, x, d.src, [d] + y, u);
    assert x + ([d] + y) == x + [d] + y;
    assert HasTwin(g, x + [d] + y, u, t);
    p, v :| SameSuccess(g, x + [d] + y, u, t, p, v);
  }

  /** Two paths for one word have, in a deterministic machine, one counterpart; so they weigh the same, arc by arc. */
  lemma TwinsShare(t: Fst<Weight>, g: Fst<Weight>, a: seq<Edge>, b: seq<Edge>, u: nat, p: seq<Edge>, v: nat,
                   q: seq<Edge>, w: nat, k: nat)
    requires Deterministic(t) && SameSuccess(g, a, u, t, p, v) && SameSuccess(g, b, u, t, q, w) && k < |a| == |b|
    requires forall i :: 0 <= i < |a| ==>
        IsEdge(g, a[i]) && IsEdge(g, b[i]) && Arc(g, a[i]).ilabel == Arc(g, b[i]).ilabel
    ensures Arc(g, a[k]).weight == Arc(g, b[k]).weight
  {
    hide Deterministic;
    TraceCarries(g, g.start.value, a, u, t, t.start.value, p, v);
    TraceCarries(g, g.start.value, b, u, t, t.start.value, q, w);
    assert Word(g, a) == Word(g, b);
    OnePath(t, t.start.value, p, v, q, w, Word(g, a));
    assert SameArc(g, a[k], t, p[k]) && SameArc(g, b[k], t, q[k]);
  }

  // ------------------------------------------------ the weight of a word

  /** `x` is the least weight of a successful path with the word `w`. */
  ghost predicate WordWeight(f: Fst<Weight>, w: seq<Label>, x: Weight) {
    && (forall p, t: nat :: SpelledBy(f, p, t, w) ==> Leq(x, Total(f, p, t)))
    && (x == ZERO || exists p, t: nat :: SpelledBy(f, p, t, w) && Total(f, p, t) == x)
  }

  ghost predicate SpelledBy(f: Fst<Weight>, p: seq<Edge>, t: nat, w: seq<Label>) {
    Successful(f, p, t) && Carries(f, f.start.value, p, t, w)
  }

  lemma SpelledTwin(f: Fst<Weight>, g: Fst<Weight>, p: seq<Edge>, t: nat, w: seq<Label>) returns (q: seq<Edge>, u: nat)
    requires Covered(f, g) && SpelledBy(f, p, t, w)
    ensures SpelledBy(g, q, u, w) && Total(g, q, u) == Total(f, p, t)
  {
    assert HasTwin(f, p, t, g);
    q, u :| SameSuccess(f, p, t, g, q, u);
    TraceTotal(f, p, t, g, q, u);
    TraceCarries(f, f.start.value, p, t, g, g.start.value, q, u);
  }

  lemma CoveredWeight(f: Fst<Weight>, g: Fst<Weight>, w: seq<Label>, x: Weight)
    requires Covered(f, g) && Covered(g, f) && WordWeight(f, w, x)
    ensures WordWeight(g, w, x)
  {
    hide Covered;
    forall q, u: nat | SpelledBy(g, q, u, w) ensures Leq(x, Total(g, q, u)) {
      var p, t := SpelledTwin(g, f, q, u, w);
    }
    if x != ZERO {
      var p, t: nat :| SpelledBy(f, p, t, w) && Total(f, p, t) == x;
      var q, u := SpelledTwin(f, g, p, t, w);
    }
  }

  lemma EndsFacts(t: Fst<Weight>, image: seq<nat>, g: Fst<Weight>)
    requires SameEnds(t, image, g)
    ensures |image| == |t.states|
    ensures t.start.Some? ==> t.start.value < |image| && g.start == Some(image[t.start.value])
    ensures forall u: nat :: u < |image| && IsFinal(t, u) ==> IsFinal(g, image[u])
  {
  }

  lemma CongruentEnds(t: Fst<Weight>, image: seq<nat>, d: Edge, e: Edge)
    requires Congruence(t, image) && Alike(t, image, d, e)
    ensures Arc(t, d).nextstate < |image| && Arc(t, e).nextstate < |image| && d.src < |image| && e.src < |image|
    ensures image[Arc(t, d).nextstate] == image[Arc(t, e).nextstate]
    ensures image[d.src] == image[e.src] && Arc(t, d).ilabel == Arc(t, e).ilabel && IsEdge(t, d) && IsEdge(t, e)
  {
  }

  /** In a trim machine every arc is on a successful path. */
  lemma AroundArc(t: Fst<Weight>, d: Edge) returns (x: seq<Edge>, y: seq<Edge>, u: nat)
    requires Trim(t) && IsEdge(t, d) && Arc(t, d).nextstate < |t.states|
    ensures t.start.Some? && t.start.value < |t.states|
    ensures IsPath(t, t.start.value, x, d.src) && IsPath(t, Arc(t, d).nextstate, y, u) && IsFinal(t, u)
  {
    var v := Arc(t, d).nextstate;
    assert Accessible(t, d.src) && CoReach(t, v);
    x := ReachPath(t, t.start.value, d.src);
    u :| Reach(t, v, u) && IsFinal(t, u);
    y := ReachPath(t, v, u);
  }

  // ------------------------------------------------ the theorem

  /** What `acceptor_minimize` makes of `f` by way of the trim `t` has every successful path of `f`; it has no other,
      and every word keeps its weight, as soon as merged states put equal weights on equal labels. Another path
      appears exactly when they do not. */
  lemma MinimizedWeights(f: Fst<Weight>, t: Fst<Weight>, image: seq<nat>, g: Fst<Weight>)
    requires Suitable(f) && IsTrimmed(f, Useless(f), t) && MergedExactly(t, image, g)
    ensures Covered(f, g) && (Covered(g, f) <==> MergedWeightsAgree(t, image))
    ensures MergedWeightsAgree(t, image) ==> forall w, x :: WordWeight(g, w, x) <==> WordWeight(f, w, x)
  {
    hide Covered, MergedInto, SameEnds, Congruence, Trim, IsTrimmed, WordWeight, MergedWeightsAgree, IsAcceptor;
    TrimReady(f, t);
    TrimCovered(f, t);
    MergedCovers(t, image, g);
    CoveredTrans(f, t, g);
    if MergedWeightsAgree(t, image) {
      AgreeingCovers(t, image, g);
      CoveredTrans(g, t, f);
      forall w, x ensures WordWeight(g, w, x) <==> WordWeight(f, w, x) {
        if WordWeight(g, w, x) {
          CoveredWeight(g, f, w, x);
        }
        if WordWeight(f, w, x) {
          CoveredWeight(f, g, w, x);
        }
      }
    }
    if Covered(g, f) {
      CoveredTrans(g, f, t);
      ClashesAgree(t, image, g);
    }
  }

  lemma ClashesAgree(t: Fst<Weight>, image: seq<nat>, g: Fst<Weight>)
    requires MergedInto(t, image, g) && SameEnds(t, image, g) && Congruence(t, image) && Trim(t) && Deterministic(t)
             && Covered(g, t)
    ensures MergedWeightsAgree(t, image)
  {
    hide Covered, MergedInto, SameEnds, Congruence, Trim, Deterministic;
    forall d, e | Alike(t, image, d, e) ensures Arc(t, d).weight == Arc(t, e).weight {
      ClashPaths(t, image, g, d, e);
    }
  }

  // ------------------------------------------------ a word that does not keep its weight

  /** The word [2, 1] has infinite weight before, and weight one after. */
  lemma ClashingWordWeight(t: Fst<Weight>, image: seq<nat>, g: Fst<Weight>)
    requires WellFormed(CLASHING) && IsTrimmed(CLASHING, Useless(CLASHING), t) && MergedExactly(t, image, g)
             && MergedBy(t, image, true)
    ensures WordWeight(CLASHING, [2, 1], ZERO) && !WordWeight(g, [2, 1], ZERO)
  {
    ClashingBefore();
    ClashingTrimmed(t);
    hide WordWeight, CLASHING, IsTrimmed;
    ClashingAfter(image, g);
  }

  lemma ClashingTrimmed(t: Fst<Weight>)
    requires WellFormed(CLASHING) && IsTrimmed(CLASHING, Useless(CLASHING), t)
    ensures t == CLASHING
  {
    ClashingTrim();
    hide Accessible, CoReach, CLASHING, IsTrimmed;
    NothingUseless(CLASHING);
    TrimmedOnce(CLASHING, Useless(CLASHING), CLASHING, t);
  }

  lemma ClashingTrim()
    ensures WellFormed(CLASHING) && Trim(CLASHING)
  {
    var f := CLASHING;
    hide Reach, CoReach;
    ReachRefl(f, 0);
    ReachEdge(f, 0, 0);
    ReachEdge(f, 0, 1);
    ReachEdge(f, 1, 0);
    ReachEdge(f, 2, 1);
    ReachTrans(f, 0, 1, 3);
    CoReachFinal(f, 3);
    CoReachBack(f, 1, 3);
    CoReachBack(f, 2, 3);
    CoReachBack(f, 0, 1);
  }

  lemma ClashingBefore()
    ensures WordWeight(CLASHING, [2, 1], ZERO)
  {
    forall p, t: nat | SpelledBy(CLASHING, p, t, [2, 1]) ensures Total(CLASHING, p, t) == ZERO {
      CarriesTail(CLASHING, 0, p, t, [2, 1]);
      assert p[0] == Edge(0, 1) && [2, 1][1..] == [1];
      var rest := p[1..];
      assert Carries(CLASHING, 2, rest, t, [1]);
      CarriesTail(CLASHING, 2, rest, t, [1]);
      assert rest[0] == Edge(2, 1) && Cost(CLASHING, 2, rest, t) == ZERO;
    }
  }

  lemma ClashingAfter(image: seq<nat>, g: Fst<Weight>)
    requires MergedExactly(CLASHING, image, g) && MergedBy(CLASHING, image, true)
    ensures !WordWeight(g, [2, 1], ZERO)
  {
    ClashingNerode();
    var f := CLASHING;
    assert image[1] == image[2];
    var d := ImageEdge(f, image, g, Edge(0, 1));
    var e := ImageEdge(f, image, g, Edge(1, 0));
    EndsFacts(f, image, g);
    assert Arc(g, d).ilabel == 2 && Arc(g, d).weight == ONE && Arc(g, e).ilabel == 1 && Arc(g, e).weight == ONE;
    assert d.src == image[0] && Arc(g, d).nextstate == e.src && Arc(g, e).nextstate == image[3];
    assert g.start == Some(image[0]) && FinalWeight(g, image[3]) == ONE && IsFinal(g, image[3]);
    hide MergedInto, SameEnds, Congruence, Nerode, CLASHING;
    TwoArcs(g, d, e, image[3]);
  }

  lemma TwoArcs(g: Fst<Weight>, d: Edge, e: Edge, u: nat)
    requires IsEdge(g, d) && IsEdge(g, e) && g.start == Some(d.src) && Arc(g, d).nextstate == e.src
             && Arc(g, e).nextstate == u
    requires IsFinal(g, u) && FinalWeight(g, u) == ONE && Arc(g, d).weight == ONE == Arc(g, e).weight
    ensures !WordWeight(g, [Arc(g, d).ilabel, Arc(g, e).ilabel], ZERO)
  {
    hide Cost, IsPath, Word, WordWeight;
    var q, w := [d] + [e], [Arc(g, d).ilabel, Arc(g, e).ilabel];
    OneArc(g, d);
    OneArc(g, e);
    CarriesCons(g, d, [e], u, [Arc(g, e).ilabel]);
    assert [Arc(g, d).ilabel] + [Arc(g, e).ilabel] == w;
    CostConcat(g, d.src, [d], e.src, [e], u);
    LighterWord(g, w, q, u);
  }

  lemma LighterWord(g: Fst<Weight>, w: seq<Label>, q: seq<Edge>, u: nat)
    requires SpelledBy(g, q, u, w) && Total(g, q, u) == ONE
    ensures !WordWeight(g, w, ZERO)
  {
    hide SpelledBy, Total;
  }

  lemma OneArc(g: Fst<Weight>, e: Edge)
    requires IsEdge(g, e) && Arc(g, e).weight == ONE && Arc(g, e).nextstate < |g.states|
    ensures Carries(g, e.src, [e], Arc(g, e).nextstate, [Arc(g, e).ilabel])
            && Cost(g, e.src, [e], Arc(g, e).nextstate) == ONE
  {
    var u := Arc(g, e).nextstate;
    assert [e][1..] == [] && IsPath(g, u, [], u) && Cost(g, u, [], u) == ONE;
  }
}
