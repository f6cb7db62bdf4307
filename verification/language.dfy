/** Trimming and merging keep the language: the parts of `acceptor_minimize` put together. */
module Languages {
  import opened Fsts
  import opened Acceptors
  import opened Merges
  import opened Trims
  import opened VectorFsts
  import opened Weights

  ghost predicate Language<W>(f: Fst<W>, w: seq<Label>) {
    f.start.Some? && Accepts(f, f.start.value, w)
  }

  lemma {:induction false} AcceptsCoReach<W>(f: Fst<W>, s: nat, w: seq<Label>)
    requires WellFormed(f) && Accepts(f, s, w)
    ensures CoReach(f, s)
    decreases |w|
  {
    if w == [] {
      CoReachFinal(f, s);
    } else {
      var i := AcceptsArc(f, s, w);
      var t := f.states[s].trs[i].nextstate;
      AcceptsCoReach(f, t, w[1..]);
      ReachEdge(f, s, i);
      CoReachBack(f, s, t);
    }
  }

  // ------------------------------------------------ trimming

  /** A survivor still accepts what it accepted ... */
  lemma {:induction false} TrimKeepsWord<W>(f: Fst<W>, g: Fst<W>, s: nat, w: seq<Label>)
    requires WellFormed(f) && IsTrimmed(f, Useless(f), g) && s < |f.states| && !Useless(f)[s] && Accepts(f, s, w)
    ensures Accepts(g, Rank(Useless(f), s), w)
    decreases |w|
  {
    var dead := Useless(f);
    var k := Rank(dead, s);
    if w != [] {
      var i := AcceptsArc(f, s, w);
      StepAlive(f, s, i, w[1..]);
      hide Useless, Rank;
      var e := Edge(s, i);
      MapEdgeArc(f, dead, g, e);
      TrimKeepsWord(f, g, Arc(f, e).nextstate, w[1..]);
      hide IsTrimmed, WellFormed, ArcRank;
      assert Reads(g, k, MapEdge(f, dead, e).pos, w);
    }
  }

  /** ... and nothing else. */
  lemma {:induction false} TrimAddsNoWord<W>(f: Fst<W>, g: Fst<W>, s: nat, w: seq<Label>)
    requires WellFormed(f) && IsTrimmed(f, Useless(f), g) && s < |f.states| && !Useless(f)[s]
             && Accepts(g, Rank(Useless(f), s), w)
    ensures Accepts(f, s, w)
    decreases |w|
  {
    var dead := Useless(f);
    assert |dead| == |f.states|;
    hide Useless, Rank;
    var k := Rank(dead, s);
    if w != [] {
      var j := AcceptsArc(g, k, w);
      var i := KeptFrom(dead, f.states[s].trs, j);
      MapEdgeArc(f, dead, g, Edge(s, i));
      TrimAddsNoWord(f, g, f.states[s].trs[i].nextstate, w[1..]);
      hide IsTrimmed, WellFormed, ArcRank;
      assert Reads(f, s, i, w);
    }
  }

  lemma TrimAccepts<W>(f: Fst<W>, g: Fst<W>, s: nat, w: seq<Label>)
    requires WellFormed(f) && IsTrimmed(f, Useless(f), g) && s < |f.states| && !Useless(f)[s]
    ensures Accepts(g, Rank(Useless(f), s), w) <==> Accepts(f, s, w)
  {
    if Accepts(f, s, w) {
      TrimKeepsWord(f, g, s, w);
    }
    if Accepts(g, Rank(Useless(f), s), w) {
      TrimAddsNoWord(f, g, s, w);
    }
  }

  lemma StepAlive<W>(f: Fst<W>, s: nat, i: nat, v: seq<Label>)
    requires WellFormed(f) && s < |f.states| && !Useless(f)[s] && i < |f.states[s].trs|
    requires Accepts(f, f.states[s].trs[i].nextstate, v)
    ensures Alive(f, Useless(f), Edge(s, i))
  {
    var t := f.states[s].trs[i].nextstate;
    AcceptsCoReach(f, t, v);
    ReachEdge(f, s, i);
    ReachTrans(f, f.start.value, s, t);
  }

  /** Trimming keeps the language; a machine without a useful start state accepts nothing. */
  lemma TrimLanguage<W>(f: Fst<W>, g: Fst<W>, w: seq<Label>)
    requires WellFormed(f) && IsTrimmed(f, Useless(f), g)
    ensures Language(g, w) <==> Language(f, w)
  {
    if f.start.Some? {
      ReachRefl(f, f.start.value);
      if !Useless(f)[f.start.value] {
        TrimAccepts(f, g, f.start.value, w);
      } else if Accepts(f, f.start.value, w) {
        AcceptsCoReach(f, f.start.value, w);
      }
    }
  }

  // ------------------------------------------------ merging

  /** States of one class are equivalent. */
  ghost predicate Sound(f: Fst<Weight>, classOf: seq<nat>)
    requires |classOf| == |f.states|
  {
    forall p: nat, q: nat :: p < |f.states| && q < |f.states| && classOf[p] == classOf[q] ==> Nerode(f, p, q)
  }

  /** Equivalent states are in one class. */
  ghost predicate Coarse(f: Fst<Weight>, classOf: seq<nat>)
    requires |classOf| == |f.states|
  {
    forall p: nat, q: nat :: p < |f.states| && q < |f.states| && Nerode(f, p, q) ==> classOf[p] == classOf[q]
  }

  /** `m` is `f` merged along a sound partition. */
  ghost predicate MergedSoundly(f: Fst<Weight>, classOf: seq<nat>, members: seq<seq<nat>>, rep: seq<nat>,
                                m: Fst<Weight>) {
    WellFormed(f) && Represents(f, classOf, members, rep) && IsMerged(f, members, classOf, rep, m) && WellFormed(m)
      && Sound(f, classOf)
  }

  lemma RepFacts(f: Fst<Weight>, classOf: seq<nat>, members: seq<seq<nat>>, rep: seq<nat>, x: nat)
    requires WellFormed(f) && Represents(f, classOf, members, rep) && x < |f.states|
    ensures rep[x] < |f.states| && classOf[rep[x]] == classOf[x] && rep[rep[x]] == rep[x]
    ensures MergedState(f, members, classOf, rep, rep[x]) ==
            f.states[rep[x]].(trs := Gathered(f, rep, members[classOf[x]]))
  {
  }

  /** An arc of a representative comes from some member of its class ... */
  lemma MergedFrom(f: Fst<Weight>, classOf: seq<nat>, members: seq<seq<nat>>, rep: seq<nat>, m: Fst<Weight>, x: nat,
                   i: nat)
    returns (y: nat, j: nat)
    requires WellFormed(f) && Represents(f, classOf, members, rep) && IsMerged(f, members, classOf, rep, m)
    requires x < |f.states| && rep[x] < |m.states| && i < |m.states[rep[x]].trs|
    ensures y < |f.states| && classOf[y] == classOf[x] && Gives(f, rep, y, j, m.states[rep[x]].trs[i])
  {
    RepFacts(f, classOf, members, rep, x);
    var tr := m.states[rep[x]].trs[i];
    assert tr in m.states[rep[x]].trs;
    y, j := GatheredFrom(f, rep, members[classOf[x]], tr);
  }

  /** ... and every arc of a member becomes one. */
  lemma MergedHas(f: Fst<Weight>, classOf: seq<nat>, members: seq<seq<nat>>, rep: seq<nat>, m: Fst<Weight>, y: nat,
                  j: nat)
    returns (i: nat)
    requires WellFormed(f) && Represents(f, classOf, members, rep) && IsMerged(f, members, classOf, rep, m)
    requires y < |f.states| && j < |f.states[y].trs|
    ensures rep[y] < |m.states| && i < |m.states[rep[y]].trs|
            && m.states[rep[y]].trs[i] == Redirect(rep, f.states[y].trs[j])
  {
    RepFacts(f, classOf, members, rep, y);
    GatheredHas(f, rep, members[classOf[y]], y, j, Redirect(rep, f.states[y].trs[j]));
    i :| 0 <= i < |m.states[rep[y]].trs| && m.states[rep[y]].trs[i] == Redirect(rep, f.states[y].trs[j]);
  }

  /** Before any arc is dropped the merged machine may be nondeterministic; a representative
      still accepts exactly what each state of its class accepts. */
  lemma {:induction false} MergedAccepts(f: Fst<Weight>, classOf: seq<nat>, members: seq<seq<nat>>, rep: seq<nat>,
                                         m: Fst<Weight>, x: nat, w: seq<Label>)
    requires MergedSoundly(f, classOf, members, rep, m) && x < |f.states|
    ensures Accepts(m, rep[x], w) <==> Accepts(f, x, w)
    decreases |w|
  {
    RepFacts(f, classOf, members, rep, x);
    var r := rep[x];
    assert Nerode(f, x, r);
    if w == [] {
      assert IsFinal(m, r) <==> IsFinal(f, r);
      assert Accepts(f, x, w) <==> Accepts(f, r, w);
    } else {
      if Accepts(m, r, w) {
        var i := AcceptsArc(m, r, w);
        var y, j := MergedFrom(f, classOf, members, rep, m, x, i);
        MergedAccepts(f, classOf, members, rep, m, f.states[y].trs[j].nextstate, w[1..]);
        assert Reads(f, y, j, w);
        assert Nerode(f, x, y);
      }
      if Accepts(f, x, w) {
        var j := AcceptsArc(f, x, w);
        var i := MergedHas(f, classOf, members, rep, m, x, j);
        MergedAccepts(f, classOf, members, rep, m, f.states[x].trs[j].nextstate, w[1..]);
        assert Reads(m, r, i, w);
      }
    }
  }

  lemma MergedLanguage(f: Fst<Weight>, classOf: seq<nat>, members: seq<seq<nat>>, rep: seq<nat>, m: Fst<Weight>,
                       w: seq<Label>)
    requires MergedSoundly(f, classOf, members, rep, m) && f.start.Some?
    ensures Language(m, w) <==> Language(f, w)
  {
    MergedAccepts(f, classOf, members, rep, m, f.start.value, w);
  }

  /** Only representatives are accessible in the merged machine. */
  lemma {:induction false} MergedPath(f: Fst<Weight>, classOf: seq<nat>, members: seq<seq<nat>>, rep: seq<nat>,
                                      m: Fst<Weight>, s: nat, p: seq<Edge>, t: nat)
    requires WellFormed(f) && Represents(f, classOf, members, rep) && IsMerged(f, members, classOf, rep, m)
    requires s < |f.states| && rep[s] == s && IsPath(m, s, p, t)
    ensures t < |f.states| && rep[t] == t
    decreases |p|
  {
    if p != [] {
      var y, j := MergedFrom(f, classOf, members, rep, m, s, p[0].pos);
      RepFacts(f, classOf, members, rep, f.states[y].trs[j].nextstate);
      MergedPath(f, classOf, members, rep, m, Arc(m, p[0]).nextstate, p[1..], t);
    }
  }

  /** Every path is followed by the representatives. */
  lemma {:induction false} MergedFollows(f: Fst<Weight>, classOf: seq<nat>, members: seq<seq<nat>>, rep: seq<nat>,
                                         m: Fst<Weight>, s: nat, p: seq<Edge>, t: nat)
    requires WellFormed(f) && Represents(f, classOf, members, rep) && IsMerged(f, members, classOf, rep, m)
             && WellFormed(m)
    requires IsPath(f, s, p, t)
    ensures s < |f.states| && t < |f.states| && Reach(m, rep[s], rep[t])
    decreases |p|
  {
    if p == [] {
      RepFacts(f, classOf, members, rep, s);
      ReachRefl(m, rep[s]);
    } else {
      var i := MergedHas(f, classOf, members, rep, m, s, p[0].pos);
      ReachEdge(m, rep[s], i);
      MergedFollows(f, classOf, members, rep, m, Arc(f, p[0]).nextstate, p[1..], t);
      ReachTrans(m, rep[s], rep[Arc(f, p[0]).nextstate], rep[t]);
    }
  }
}
