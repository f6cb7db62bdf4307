/** The language read along input labels, and the equivalence of states it induces. */
module Acceptors {
  import opened Fsts

  /** The word `w` can be read from `s` to a final state; label 0 is an ordinary symbol. */
  ghost predicate Accepts<W>(f: Fst<W>, s: nat, w: seq<Label>)
    decreases |w|
  {
    if w == [] then IsFinal(f, s)
    else s < |f.states| && exists i :: 0 <= i < |f.states[s].trs| && Reads(f, s, i, w)
  }

  ghost predicate Reads<W>(f: Fst<W>, s: nat, i: nat, w: seq<Label>)
    requires w != [] && s < |f.states| && i < |f.states[s].trs|
    decreases |w|, 0
  {
    f.states[s].trs[i].ilabel == w[0] && Accepts(f, f.states[s].trs[i].nextstate, w[1..])
  }

  /** Equal right languages. */
  ghost predicate Nerode<W>(f: Fst<W>, p: nat, q: nat) {
    forall w :: Accepts(f, p, w) <==> Accepts(f, q, w)
  }

  ghost predicate Step<W>(f: Fst<W>, s: nat, a: Label, t: nat) {
    s < |f.states| &&
         exists i :: 0 <= i < |f.states[s].trs| && f.states[s].trs[i].ilabel == a && f.states[s].trs[i].nextstate == t
  }

  /** The word `u` leads from `s` to `t`. */
  ghost predicate ReadsTo<W>(f: Fst<W>, s: nat, u: seq<Label>, t: nat)
    decreases |u|
  {
    if u == [] then s == t && s < |f.states|
    else exists m :: Step(f, s, u[0], m) && ReadsTo(f, m, u[1..], t)
  }

  ghost predicate Deterministic<W>(f: Fst<W>) {
    forall s, i, j :: 0 <= s < |f.states| && 0 <= i < j < |f.states[s].trs|
                      ==> f.states[s].trs[i].ilabel != f.states[s].trs[j].ilabel
  }

  predicate LabelSorted<W>(trs: seq<Tr<W>>) {
    forall i, j :: 0 <= i < j < |trs| ==> trs[i].ilabel <= trs[j].ilabel
  }

  ghost predicate ILabelSorted<W>(f: Fst<W>) {
    forall s :: 0 <= s < |f.states| ==> LabelSorted(f.states[s].trs)
  }

  predicate IsAcceptor<W>(f: Fst<W>) {
    forall s, i :: 0 <= s < |f.states| && 0 <= i < |f.states[s].trs|
      ==> f.states[s].trs[i].ilabel == f.states[s].trs[i].olabel
  }

  ghost predicate AllCoAccessible<W>(f: Fst<W>) {
    forall s :: 0 <= s < |f.states| ==> CoReach(f, s)
  }

  lemma AcceptsArc<W>(f: Fst<W>, s: nat, w: seq<Label>) returns (i: nat)
    requires Accepts(f, s, w) && w != []
    ensures s < |f.states| && i < |f.states[s].trs| && Reads(f, s, i, w)
  {
    i :| 0 <= i < |f.states[s].trs| && Reads(f, s, i, w);
  }

  lemma AcceptsStep<W>(f: Fst<W>, s: nat, a: Label, t: nat, w: seq<Label>)
    requires Step(f, s, a, t) && Accepts(f, t, w)
    ensures Accepts(f, s, [a] + w)
  {
    var i :| 0 <= i < |f.states[s].trs| && f.states[s].trs[i].ilabel == a && f.states[s].trs[i].nextstate == t;
    assert ([a] + w)[1..] == w;
    assert Reads(f, s, i, [a] + w);
  }

  lemma StepOfAccepts<W>(f: Fst<W>, s: nat, a: Label, w: seq<Label>) returns (t: nat)
    requires Accepts(f, s, [a] + w)
    ensures Step(f, s, a, t) && Accepts(f, t, w)
  {
    assert ([a] + w)[1..] == w;
    var i :| 0 <= i < |f.states[s].trs| && Reads(f, s, i, [a] + w);
    t := f.states[s].trs[i].nextstate;
  }

  lemma StepUnique<W>(f: Fst<W>, s: nat, a: Label, t: nat, u: nat)
    requires Deterministic(f) && Step(f, s, a, t) && Step(f, s, a, u)
    ensures t == u
  {
  }

  lemma {:induction false} PathWord<W>(f: Fst<W>, s: nat, p: seq<Edge>, t: nat) returns (w: seq<Label>)
    requires IsPath(f, s, p, t) && IsFinal(f, t)
    ensures Accepts(f, s, w) && |w| == |p|
    decreases |p|
  {
    if p == [] {
      w := [];
    } else {
      var tr := Arc(f, p[0]);
      var w' := PathWord(f, tr.nextstate, p[1..], t);
      AcceptsStep(f, s, tr.ilabel, tr.nextstate, w');
      w := [tr.ilabel] + w';
    }
  }

  /** Some word is accepted from a co-accessible state. */
  lemma CoReachWord<W>(f: Fst<W>, s: nat) returns (w: seq<Label>)
    requires CoReach(f, s)
    ensures Accepts(f, s, w)
  {
    var t :| Reach(f, s, t) && IsFinal(f, t);
    var p :| IsPath(f, s, p, t);
    w := PathWord(f, s, p, t);
  }

  /** Equivalent states step, on the same labels, to equivalent states. */
  lemma NerodeStep<W>(f: Fst<W>, p: nat, q: nat, a: Label, t: nat) returns (u: nat)
    requires Deterministic(f) && AllCoAccessible(f) && WellFormed(f)
    requires Nerode(f, p, q) && Step(f, p, a, t)
    ensures Step(f, q, a, u) && Nerode(f, t, u)
  {
    var w := CoReachWord(f, t);
    AcceptsStep(f, p, a, t, w);
    u := StepOfAccepts(f, q, a, w);
    forall v ensures Accepts(f, t, v) <==> Accepts(f, u, v) {
      if Accepts(f, t, v) {
        AcceptsStep(f, p, a, t, v);
        var u' := StepOfAccepts(f, q, a, v);
        StepUnique(f, q, a, u, u');
      }
      if Accepts(f, u, v) {
        AcceptsStep(f, q, a, u, v);
        var t' := StepOfAccepts(f, p, a, v);
        StepUnique(f, p, a, t, t');
      }
    }
  }
}
