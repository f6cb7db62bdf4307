/** Reversal with a super-initial state, `reverse.rs`. */
module Reverses {
  import opened Fsts
  import opened Weights

  /** The arcs entering `t`, in the order of their source states and positions,
      among those before position `i` of state `s`. */
  function Entering(f: Fst<Weight>, t: nat, s: nat, i: nat): seq<Edge>
    requires s <= |f.states| && (s < |f.states| ==> i <= |f.states[s].trs|) && (s == |f.states| ==> i == 0)
    decreases s, i
  {
    if i > 0 then
      Entering(f, t, s, i - 1) + (if f.states[s].trs[i-1].nextstate == t then [Edge(s, i - 1)] else [])
    else if s > 0 then Entering(f, t, s - 1, |f.states[s-1].trs|)
    else []
  }

  function AllEntering(f: Fst<Weight>, t: nat): seq<Edge> {
    Entering(f, t, |f.states|, 0)
  }

  predicate Before(e: Edge, s: nat, i: nat) {
    e.src < s || (e.src == s && e.pos < i)
  }

  /** `Entering` lists exactly the arcs into `t` that come before, each once. */
  lemma {:induction false} EnteringExact(f: Fst<Weight>, t: nat, s: nat, i: nat)
    requires s <= |f.states| && (s < |f.states| ==> i <= |f.states[s].trs|) && (s == |f.states| ==> i == 0)
    ensures forall e :: e in Entering(f, t, s, i) <==> IsEdge(f, e) && Arc(f, e).nextstate == t && Before(e, s, i)
    ensures forall j, k :: 0 <= j < k < |Entering(f, t, s, i)| ==> Entering(f, t, s, i)[j] != Entering(f, t, s, i)[k]
    decreases s, i
  {
    if i > 0 {
      EnteringExact(f, t, s, i - 1);
      var last := Edge(s, i - 1);
      assert IsEdge(f, last) && !Before(last, s, i - 1);
      forall e ensures e in Entering(f, t, s, i) <==> IsEdge(f, e) && Arc(f, e).nextstate == t && Before(e, s, i) {
        assert Before(e, s, i) <==> Before(e, s, i - 1) || e == last;
      }
    } else if s > 0 {
      EnteringExact(f, t, s - 1, |f.states[s-1].trs|);
    }
  }

  function Flip(f: Fst<Weight>, e: Edge): Tr<Weight>
    requires IsEdge(f, e)
  {
    Arc(f, e).(nextstate := e.src + 1)
  }

  /** The reversed arcs out of copy `t + 1`. */
  ghost predicate Flipped(f: Fst<Weight>, es: seq<Edge>, trs: seq<Tr<Weight>>) {
    && |trs| == |es|
    && forall j :: 0 <= j < |es| ==> IsEdge(f, es[j]) && trs[j] == Flip(f, es[j])
  }

  /** The arcs of the super-initial state to the final states below `n`. */
  function Leaving(f: Fst<Weight>, n: nat): seq<Tr<Weight>>
    requires n <= |f.states|
  {
    if n == 0 then [] else
      Leaving(f, n - 1) + match f.states[n-1].finalWeight
                          case Some(w) => [Tr(EPS_LABEL, EPS_LABEL, w, n)]
                          case None => []
  }

  lemma {:induction false} LeavingExact(f: Fst<Weight>, n: nat)
    requires n <= |f.states|
    ensures forall tr :: tr in Leaving(f, n) ==>
              1 <= tr.nextstate <= n && IsFinal(f, tr.nextstate - 1) && tr.weight == FinalWeight(f, tr.nextstate - 1)
    ensures forall s :: 0 <= s < n && IsFinal(f, s) ==>
        Tr(EPS_LABEL, EPS_LABEL, FinalWeight(f, s), s + 1) in Leaving(f, n)
  {
    if n > 0 {
      LeavingExact(f, n - 1);
    }
  }

  ghost predicate IsReverse(f: Fst<Weight>, r: Fst<Weight>) {
    && |r.states| == |f.states| + 1
    && r.start == Some(0)
    && r.states[0] == State(None, Leaving(f, |f.states|))
    && forall t :: 0 <= t < |f.states| ==>
         && Flipped(f, AllEntering(f, t), r.states[t+1].trs)
         && r.states[t+1].finalWeight == if f.start == Some(t) then Some(ONE) else None
  }

  /** The buckets once every arc before position `i` of state `s` is turned around. */
  ghost predicate BucketsAt(f: Fst<Weight>, buckets: seq<seq<Tr<Weight>>>, s: nat, i: nat)
    requires s <= |f.states| && (s < |f.states| ==> i <= |f.states[s].trs|) && (s == |f.states| ==> i == 0)
  {
    |buckets| == |f.states| + 1
    && forall t :: 0 <= t < |f.states| ==> Flipped(f, Entering(f, t, s, i), buckets[t+1])
  }

  lemma FlippedNext(f: Fst<Weight>, buckets: seq<seq<Tr<Weight>>>, s: nat, i: nat)
    returns (buckets': seq<seq<Tr<Weight>>>)
    requires WellFormed(f) && s < |f.states| && i < |f.states[s].trs| && BucketsAt(f, buckets, s, i)
    ensures var nos := f.states[s].trs[i].nextstate + 1; buckets' == buckets[nos := buckets[nos] + [Flip(f,
        Edge(s, i))]]
    ensures BucketsAt(f, buckets', s, i + 1)
  {
    var nos := f.states[s].trs[i].nextstate + 1;
    buckets' := buckets[nos := buckets[nos] + [Flip(f, Edge(s, i))]];
    var j := i + 1;
    forall t | 0 <= t < |f.states| ensures Flipped(f, Entering(f, t, s, j), buckets'[t+1]) {
      assert Flipped(f, Entering(f, t, s, i), buckets[t+1]);
    }
  }

  method Reverse(f: Fst<Weight>) returns (r: Fst<Weight>)
    requires WellFormed(f)
    ensures IsReverse(f, r)
  {
    var n := |f.states|;
    var finals: seq<Option<Weight>> := seq(n + 1, _ => None);
    var buckets: seq<seq<Tr<Weight>>> := seq(n + 1, _ => []);
    for s := 0 to n
      invariant |buckets| == |finals| == n + 1
      invariant finals[0] == None && buckets[0] == Leaving(f, s)
      invariant BucketsAt(f, buckets, s, 0)
      invariant forall t :: 1 <= t <= n ==> finals[t] == if t <= s && f.start == Some(t - 1) then Some(ONE) else None
    {
      var os := s + 1;
      if f.start == Some(s) {
        finals := finals[os := Some(ONE)];
      }
      match f.states[s].finalWeight {
        case Some(w) => buckets := buckets[0 := buckets[0] + [Tr(EPS_LABEL, EPS_LABEL, w, os)]];
        case None =>
      }
      for i := 0 to |f.states[s].trs|
        invariant |buckets| == n + 1 && buckets[0] == Leaving(f, os)
        invariant BucketsAt(f, buckets, s, i)
      {
        ghost var _ := FlippedNext(f, buckets, s, i);
        var itr := f.states[s].trs[i];
        var nos := itr.nextstate + 1;
        buckets := buckets[nos := buckets[nos] + [Tr(itr.ilabel, itr.olabel, itr.weight, os)]];
      }
    }
    r := Fst(seq(n + 1, t requires 0 <= t <= n => State(finals[t], buckets[t])), Some(0));
  }

  // ------------------------------------------------ paths

  /** The arc of the original that arc `e` of a copy turns around. */
  ghost predicate Turns(f: Fst<Weight>, e: Edge, d: Edge) {
    1 <= e.src <= |f.states| && e.pos < |AllEntering(f, e.src - 1)| && AllEntering(f, e.src - 1)[e.pos] == d
  }

  /** `q` is `p` read backwards, arc by arc. */
  ghost predicate Mirrors(f: Fst<Weight>, p: seq<Edge>, q: seq<Edge>) {
    |p| == |q| && forall k :: 0 <= k < |q| ==> Turns(f, q[k], p[|p| - 1 - k])
  }

  lemma TurnsUnique(f: Fst<Weight>, d: Edge, e: Edge, e': Edge)
    requires WellFormed(f) && Turns(f, e, d) && Turns(f, e', d)
    ensures e == e'
  {
    EnteringExact(f, e.src - 1, |f.states|, 0);
    EnteringExact(f, e'.src - 1, |f.states|, 0);
    assert d in AllEntering(f, e.src - 1) && d in AllEntering(f, e'.src - 1);
  }

  /** A path has one mirror image and mirrors one path. */
  lemma MirrorUnique(f: Fst<Weight>, p: seq<Edge>, q: seq<Edge>, p': seq<Edge>, q': seq<Edge>)
    requires WellFormed(f) && Mirrors(f, p, q) && Mirrors(f, p', q')
    ensures p == p' <==> q == q'
  {
    if p == p' {
      forall k | 0 <= k < |q| ensures q[k] == q'[k] {
        TurnsUnique(f, p[|p| - 1 - k], q[k], q'[k]);
      }
    }
    if q == q' {
      forall j | 0 <= j < |p| ensures p[j] == p'[j] {
        var k := |p| - 1 - j;
        assert Turns(f, q[k], p[|p| - 1 - k]) && Turns(f, q'[k], p'[|p'| - 1 - k]);
      }
    }
  }

  lemma MirrorGrows(f: Fst<Weight>, p: seq<Edge>, q: seq<Edge>, d: Edge, e: Edge)
    requires Mirrors(f, p, q) && Turns(f, e, d)
    ensures Mirrors(f, [d] + p, q + [e]) && Mirrors(f, p + [d], [e] + q)
  {
    var a, b := [d] + p, q + [e];
    forall k | 0 <= k < |b| ensures Turns(f, b[k], a[|a| - 1 - k]) {
      assert k < |q| ==> b[k] == q[k] && a[|a| - 1 - k] == p[|p| - 1 - k];
    }
    var c, g := p + [d], [e] + q;
    forall k | 0 <= k < |g| ensures Turns(f, g[k], c[|c| - 1 - k]) {
      assert k > 0 ==> g[k] == q[k - 1] && c[|c| - 1 - k] == p[|p| - 1 - (k - 1)];
    }
  }

  /** Every arc is found again, turned around. */
  lemma ReversedArc(f: Fst<Weight>, r: Fst<Weight>, e: Edge) returns (j: nat)
    requires WellFormed(f) && IsReverse(f, r) && IsEdge(f, e)
    ensures var t := Arc(f, e).nextstate;
        j < |r.states[t+1].trs| && r.states[t+1].trs[j] == Flip(f, e) && Turns(f, Edge(t + 1, j), e)
  {
    var t := Arc(f, e).nextstate;
    EnteringExact(f, t, |f.states|, 0);
    var es := AllEntering(f, t);
    assert Before(e, |f.states|, 0) && e in es;
    j :| 0 <= j < |es| && es[j] == e;
    assert Flipped(f, es, r.states[t+1].trs);
  }

  /** And no arc but the turned ones leaves a copy. */
  lemma ArcReversed(f: Fst<Weight>, r: Fst<Weight>, t: nat, j: nat) returns (e: Edge)
    requires WellFormed(f) && IsReverse(f, r) && t < |f.states| && j < |r.states[t+1].trs|
    ensures IsEdge(f, e) && Arc(f, e).nextstate == t && r.states[t+1].trs[j] == Flip(f, e)
            && Turns(f, Edge(t + 1, j), e)
  {
    EnteringExact(f, t, |f.states|, 0);
    assert Flipped(f, AllEntering(f, t), r.states[t+1].trs);
    e := AllEntering(f, t)[j];
    assert e in AllEntering(f, t);
  }

  lemma ReverseWellFormed(f: Fst<Weight>, r: Fst<Weight>)
    requires WellFormed(f) && IsReverse(f, r)
    ensures WellFormed(r)
    ensures NonNegativeArcs(f) && NonNegativeFinals(f) ==> NonNegativeArcs(r)
  {
    LeavingExact(f, |f.states|);
    forall s, j | 0 <= s < |r.states| && 0 <= j < |r.states[s].trs|
      ensures r.states[s].trs[j].nextstate < |r.states|
      ensures NonNegativeArcs(f) && NonNegativeFinals(f) ==> NonNegative(r.states[s].trs[j].weight)
    {
      if s == 0 {
        assert r.states[0].trs[j] in Leaving(f, |f.states|);
      } else {
        var e := ArcReversed(f, r, s - 1, j);
      }
    }
  }

  /** A path of the original, read backwards, is a path between the copies, at the same cost. */
  lemma ReverseSizes(f: Fst<Weight>, r: Fst<Weight>)
    requires IsReverse(f, r)
    ensures |r.states| == |f.states| + 1
  {
  }

  lemma MirrorNone(f: Fst<Weight>)
    ensures Mirrors(f, [], [])
  {
  }

  lemma NextBelow(f: Fst<Weight>, e: Edge)
    requires WellFormed(f) && IsEdge(f, e)
    ensures Arc(f, e).nextstate < |f.states|
  {
  }

  lemma {:induction false} PathReversed(f: Fst<Weight>, r: Fst<Weight>, s: nat, p: seq<Edge>, t: nat)
    returns (q: seq<Edge>)
    requires WellFormed(f) && IsReverse(f, r) && IsPath(f, s, p, t)
    ensures IsPath(r, t + 1, q, s + 1) && Cost(r, t + 1, q, s + 1) == Cost(f, s, p, t) && Mirrors(f, p, q)
    decreases |p|
  {
    hide IsReverse, Mirrors, WellFormed, Turns;
    ReverseSizes(f, r);
    if p == [] {
      q := [];
      MirrorNone(f);
    } else {
      NextBelow(f, p[0]);
      ReverseWellFormed(f, r);
      var m := Arc(f, p[0]).nextstate;
      var q' := PathReversed(f, r, m, p[1..], t);
      var j := ReversedArc(f, r, p[0]);
      CostSnoc(r, t + 1, q', m + 1, j);
      MirrorGrows(f, p[1..], q', p[0], Edge(m + 1, j));
      assert p == [p[0]] + p[1..];
      q := q' + [Edge(m + 1, j)];
    }
  }

  /** And the other way around. */
  lemma {:induction false} PathUnreversed(f: Fst<Weight>, r: Fst<Weight>, t: nat, q: seq<Edge>, b: nat)
    returns (s: nat, p: seq<Edge>)
    requires WellFormed(f) && IsReverse(f, r) && t < |f.states| && IsPath(r, t + 1, q, b)
    ensures b == s + 1 && IsPath(f, s, p, t) && Cost(f, s, p, t) == Cost(r, t + 1, q, b) && Mirrors(f, p, q)
    decreases |q|
  {
    hide NonNegativeArcs, NonNegativeFinals, Turns;
    if q == [] {
      s, p := t, [];
    } else {
      var e := ArcReversed(f, r, t, q[0].pos);
      var p';
      s, p' := PathUnreversed(f, r, e.src, q[1..], b);
      CostSnoc(f, s, p', e.src, e.pos);
      MirrorGrows(f, p', q[1..], e, q[0]);
      assert q == [q[0]] + q[1..];
      p := p' + [e];
    }
  }

  // ------------------------------------------------ completions

  /** A path from `v` to the final state `t`, with its final weight. */
  ghost predicate Completes(f: Fst<Weight>, v: nat, p: seq<Edge>, t: nat, w: Weight) {
    IsPath(f, v, p, t) && IsFinal(f, t) && w == Times(Cost(f, v, p, t), FinalWeight(f, t))
  }

  /** `q` enters the copy of `t` from the super-initial state and then mirrors `p`. */
  ghost predicate Unfolds(f: Fst<Weight>, p: seq<Edge>, t: nat, q: seq<Edge>) {
    && q != [] && q[0].src == 0 && q[0].pos < |Leaving(f, |f.states|)|
      && Leaving(f, |f.states|)[q[0].pos].nextstate == t + 1
    && Mirrors(f, p, q[1..])
  }

  /** The super-initial arcs lead to different copies. */
  lemma {:induction false} LeavingIncreasing(f: Fst<Weight>, n: nat)
    requires n <= |f.states|
    ensures forall i :: 0 <= i < |Leaving(f, n)| ==> 1 <= Leaving(f, n)[i].nextstate <= n
    ensures forall i, j :: 0 <= i < j < |Leaving(f, n)| ==> Leaving(f, n)[i].nextstate < Leaving(f, n)[j].nextstate
  {
    if n > 0 {
      LeavingIncreasing(f, n - 1);
    }
  }

  lemma UnfoldUnique(f: Fst<Weight>, p: seq<Edge>, t: nat, q: seq<Edge>, p': seq<Edge>, t': nat, q': seq<Edge>)
    requires WellFormed(f) && Unfolds(f, p, t, q) && Unfolds(f, p', t', q')
    ensures p == p' && t == t' <==> q == q'
  {
    LeavingIncreasing(f, |f.states|);
    MirrorUnique(f, p, q[1..], p', q'[1..]);
    assert q == [q[0]] + q[1..] && q' == [q'[0]] + q'[1..];
  }

  lemma CompletionReversed(f: Fst<Weight>, r: Fst<Weight>, v: nat, p: seq<Edge>, t: nat, w: Weight)
    returns (q: seq<Edge>)
    requires WellFormed(f) && IsReverse(f, r) && Completes(f, v, p, t, w)
    ensures IsPath(r, 0, q, v + 1) && Cost(r, 0, q, v + 1) == w && Unfolds(f, p, t, q)
  {
    var q' := PathReversed(f, r, v, p, t);
    var j := FinalArc(f, r, t);
    q := [Edge(0, j)] + q';
    assert q[1..] == q';
  }

  lemma FinalArc(f: Fst<Weight>, r: Fst<Weight>, t: nat) returns (j: nat)
    requires IsReverse(f, r) && IsFinal(f, t)
    ensures j < |r.states[0].trs| && r.states[0].trs[j] == Tr(EPS_LABEL, EPS_LABEL, FinalWeight(f, t), t + 1)
  {
    LeavingExact(f, |f.states|);
    var tr := Tr(EPS_LABEL, EPS_LABEL, FinalWeight(f, t), t + 1);
    assert tr in r.states[0].trs;
    j :| 0 <= j < |r.states[0].trs| && r.states[0].trs[j] == tr;
  }

  lemma CompletionUnreversed(f: Fst<Weight>, r: Fst<Weight>, v: nat, q: seq<Edge>) returns (p: seq<Edge>, t: nat)
    requires WellFormed(f) && IsReverse(f, r) && IsPath(r, 0, q, v + 1)
    ensures Completes(f, v, p, t, Cost(r, 0, q, v + 1)) && Unfolds(f, p, t, q)
  {
    hide Leaving, Entering, WellFormed;
    LeavingExact(f, |f.states|);
    var tr := Arc(r, q[0]);
    assert tr in Leaving(f, |f.states|);
    t := tr.nextstate - 1;
    var s;
    s, p := PathUnreversed(f, r, t, q[1..], v + 1);
  }
}
