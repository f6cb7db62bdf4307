/** A trim, reduced, deterministic acceptor has the fewest states among the deterministic ones of its language. */
module Counts {
  import opened Fsts
  import opened Acceptors
  import opened Languages
  import opened Minimals
  import opened Partitions

  lemma {:induction false} PathReads<W>(f: Fst<W>, s: nat, p: seq<Edge>, t: nat) returns (u: seq<Label>)
    requires IsPath(f, s, p, t)
    ensures ReadsTo(f, s, u, t)
    decreases |p|
  {
    if p == [] {
      u := [];
    } else {
      var tr := Arc(f, p[0]);
      var v := PathReads(f, tr.nextstate, p[1..], t);
      u := [tr.ilabel] + v;
      assert u[1..] == v;
      assert Step(f, s, tr.ilabel, tr.nextstate);
    }
  }

  /** What is accepted along `u` is what is accepted after it. */
  lemma {:induction false} AcceptsAfter<W>(f: Fst<W>, s: nat, u: seq<Label>, t: nat, v: seq<Label>)
    requires Deterministic(f) && ReadsTo(f, s, u, t)
    ensures Accepts(f, s, u + v) <==> Accepts(f, t, v)
    decreases |u|
  {
    if u == [] {
      assert u + v == v;
    } else {
      var m :| Step(f, s, u[0], m) && ReadsTo(f, m, u[1..], t);
      AcceptsAfter(f, m, u[1..], t, v);
      assert u + v == [u[0]] + (u[1..] + v);
      if Accepts(f, s, u + v) {
        var m' := StepOfAccepts(f, s, u[0], u[1..] + v);
        StepUnique(f, s, u[0], m, m');
      }
      if Accepts(f, t, v) {
        AcceptsStep(f, s, u[0], m, u[1..] + v);
      }
    }
  }

  lemma {:induction false} AcceptedPrefix<W>(f: Fst<W>, s: nat, u: seq<Label>, v: seq<Label>) returns (t: nat)
    requires WellFormed(f) && s < |f.states| && Accepts(f, s, u + v)
    ensures ReadsTo(f, s, u, t) && t < |f.states|
    decreases |u|
  {
    if u == [] {
      t := s;
    } else {
      assert u + v == [u[0]] + (u[1..] + v);
      var m := StepOfAccepts(f, s, u[0], u[1..] + v);
      t := AcceptedPrefix(f, m, u[1..], v);
      assert ReadsTo(f, m, u[1..], t);
    }
  }

  /** A state of `h` that accepts the same words as state `k` of `g`. */
  lemma Counterpart<W>(g: Fst<W>, h: Fst<W>, k: nat) returns (t: nat)
    requires WellFormed(g) && WellFormed(h) && Deterministic(g) && Deterministic(h) && Trim(g) && k < |g.states|
    requires forall w :: Language(g, w) <==> Language(h, w)
    ensures t < |h.states| && forall v :: Accepts(g, k, v) <==> Accepts(h, t, v)
  {
    assert Accessible(g, k) && CoReach(g, k);
    var p := ReachPath(g, g.start.value, k);
    var u := PathReads(g, g.start.value, p, k);
    var w := CoReachWord(g, k);
    AcceptsAfter(g, g.start.value, u, k, w);
    assert Language(g, u + w);
    assert Language(h, u + w);
    t := AcceptedPrefix(h, h.start.value, u, w);
    forall v ensures Accepts(g, k, v) <==> Accepts(h, t, v) {
      AcceptsAfter(g, g.start.value, u, k, v);
      AcceptsAfter(h, h.start.value, u, t, v);
      assert Language(g, u + v) <==> Language(h, u + v);
    }
  }

  /** Distinct counterparts for the first `n` states. */
  lemma {:induction false} Counterparts<W>(g: Fst<W>, h: Fst<W>, n: nat) returns (used: set<nat>)
    requires WellFormed(g) && WellFormed(h) && Deterministic(g) && Deterministic(h) && Trim(g) && Reduced(g)
             && n <= |g.states|
    requires forall w :: Language(g, w) <==> Language(h, w)
    ensures |used| == n && forall t :: t in used ==> t < |h.states| && exists k :: 0 <= k < n && SameWords(g, k, h, t)
  {
    if n == 0 {
      used := {};
    } else {
      var before := Counterparts(g, h, n - 1);
      var t := Counterpart(g, h, n - 1);
      assert SameWords(g, n - 1, h, t);
      forall k | 0 <= k < n - 1 ensures !SameWords(g, k, h, t) {
        assert !Nerode(g, k, n - 1);
        var w :| Accepts(g, k, w) != Accepts(g, n - 1, w);
      }
      used := before + {t};
    }
  }

  ghost predicate SameWords<W>(g: Fst<W>, k: nat, h: Fst<W>, t: nat) {
    forall v :: Accepts(g, k, v) <==> Accepts(h, t, v)
  }

  /** Minimality: no deterministic acceptor of the language has fewer states. */
  lemma FewestStates<W>(g: Fst<W>, h: Fst<W>)
    requires WellFormed(g) && Deterministic(g) && Trim(g) && Reduced(g)
    requires WellFormed(h) && Deterministic(h) && forall w :: Language(g, w) <==> Language(h, w)
    ensures |g.states| <= |h.states|
  {
    var used := Counterparts(g, h, |g.states|);
    BoundedSetSize(used, |h.states|);
  }
}
