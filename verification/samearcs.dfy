/** Machines whose states have the same arcs, in any order and number. */
module SameArcs {
  import opened Fsts
  import opened Acceptors
  import opened Languages
  import opened Minimals
  import opened TrSorts

  ghost predicate Rearranged<W(!new)>(f: Fst<W>, g: Fst<W>) {
    && |f.states| == |g.states| && f.start == g.start
    && forall s :: 0 <= s < |f.states| ==> SameState(f.states[s], g.states[s])
  }

  ghost predicate SameState<W(!new)>(a: State<W>, b: State<W>) {
    a.finalWeight == b.finalWeight && forall tr :: tr in a.trs <==> tr in b.trs
  }

  lemma RearrangedBack<W(!new)>(f: Fst<W>, g: Fst<W>)
    requires Rearranged(f, g)
    ensures Rearranged(g, f)
  {
  }

  lemma SameTr<W(!new)>(f: Fst<W>, g: Fst<W>, s: nat, i: nat) returns (j: nat)
    requires Rearranged(f, g) && s < |f.states| && i < |f.states[s].trs|
    ensures j < |g.states[s].trs| && g.states[s].trs[j] == f.states[s].trs[i]
  {
    assert SameState(f.states[s], g.states[s]);
    assert f.states[s].trs[i] in g.states[s].trs;
    j :| 0 <= j < |g.states[s].trs| && g.states[s].trs[j] == f.states[s].trs[i];
  }

  lemma RearrangedWellFormed<W(!new)>(f: Fst<W>, g: Fst<W>)
    requires Rearranged(f, g) && WellFormed(f)
    ensures WellFormed(g)
  {
    RearrangedBack(f, g);
    forall s, i | 0 <= s < |g.states| && 0 <= i < |g.states[s].trs| ensures g.states[s].trs[i].nextstate < |g.states| {
      var j := SameTr(g, f, s, i);
    }
  }

  lemma {:induction false} RearrangedPath<W(!new)>(f: Fst<W>, g: Fst<W>, s: nat, p: seq<Edge>, t: nat)
    returns (q: seq<Edge>)
    requires Rearranged(f, g) && IsPath(f, s, p, t)
    ensures IsPath(g, s, q, t) && |q| == |p|
    decreases |p|
  {
    if p == [] {
      q := [];
    } else {
      var j := SameTr(f, g, s, p[0].pos);
      q := RearrangedPath(f, g, Arc(f, p[0]).nextstate, p[1..], t);
      assert ([Edge(s, j)] + q)[1..] == q;
      q := [Edge(s, j)] + q;
    }
  }

  lemma RearrangedReach<W(!new)>(f: Fst<W>, g: Fst<W>, s: nat, t: nat)
    requires Rearranged(f, g) && Reach(f, s, t)
    ensures Reach(g, s, t)
  {
    var p := ReachPath(f, s, t);
    var q := RearrangedPath(f, g, s, p, t);
  }

  lemma RearrangedTrim<W(!new)>(f: Fst<W>, g: Fst<W>)
    requires Rearranged(f, g) && Trim(f)
    ensures Trim(g)
  {
    forall s: nat | s < |g.states| ensures Accessible(g, s) && CoReach(g, s) {
      assert Accessible(f, s) && CoReach(f, s);
      RearrangedReach(f, g, f.start.value, s);
      var t: nat :| Reach(f, s, t) && IsFinal(f, t);
      RearrangedReach(f, g, s, t);
      var p := ReachPath(f, s, t);
      assert SameState(f.states[t], g.states[t]);
      assert IsFinal(g, t);
    }
  }

  lemma {:induction false} RearrangedAccepts<W(!new)>(f: Fst<W>, g: Fst<W>, s: nat, w: seq<Label>)
    requires Rearranged(f, g) && Accepts(f, s, w)
    ensures Accepts(g, s, w)
    decreases |w|
  {
    assert s < |f.states|;
    assert SameState(f.states[s], g.states[s]);
    if w != [] {
      var i := AcceptsArc(f, s, w);
      var j := SameTr(f, g, s, i);
      RearrangedAccepts(f, g, f.states[s].trs[i].nextstate, w[1..]);
      assert Reads(g, s, j, w);
    }
  }

  lemma RearrangedSame<W(!new)>(f: Fst<W>, g: Fst<W>, s: nat, w: seq<Label>)
    requires Rearranged(f, g)
    ensures Accepts(f, s, w) <==> Accepts(g, s, w)
  {
    RearrangedBack(f, g);
    if Accepts(f, s, w) {
      RearrangedAccepts(f, g, s, w);
    }
    if Accepts(g, s, w) {
      RearrangedAccepts(g, f, s, w);
    }
  }

  lemma RearrangedReduced<W(!new)>(f: Fst<W>, g: Fst<W>)
    requires Rearranged(f, g) && Reduced(f)
    ensures Reduced(g)
  {
    forall k, l | 0 <= k < l < |g.states| ensures !Nerode(g, k, l) {
      assert !Nerode(f, k, l);
      var w :| Accepts(f, k, w) != Accepts(f, l, w);
      RearrangedSame(f, g, k, w);
      RearrangedSame(f, g, l, w);
    }
  }

  // ------------------------------------------------ sorting keeps labels distinct

  lemma {:induction false} SortDistinct<W(!new)>(le: (Tr<W>, Tr<W>) -> bool, trs: seq<Tr<W>>)
    requires LabelsDistinct(trs)
    ensures LabelsDistinct(SortBy(le, trs)) && forall x :: x in SortBy(le, trs) <==> x in trs
  {
    if trs != [] {
      SortDistinct(le, trs[1..]);
      InsertDistinct(le, trs[0], SortBy(le, trs[1..]));
      InsertElements(le, trs[0], SortBy(le, trs[1..]));
      assert trs == [trs[0]] + trs[1..];
    }
  }

  lemma {:induction false} InsertDistinct<W(!new)>(le: (Tr<W>, Tr<W>) -> bool, tr: Tr<W>, sorted: seq<Tr<W>>)
    requires LabelsDistinct(sorted) && forall x :: x in sorted ==> x.ilabel != tr.ilabel
    ensures LabelsDistinct(Insert(le, tr, sorted))
  {
    if sorted == [] || le(tr, sorted[0]) {
    } else {
      InsertDistinct(le, tr, sorted[1..]);
      InsertElements(le, tr, sorted[1..]);
      var rest := Insert(le, tr, sorted[1..]);
      forall j | 0 <= j < |rest| ensures rest[j].ilabel != sorted[0].ilabel {
        assert rest[j] in rest;
      }
    }
  }
}
