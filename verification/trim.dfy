/** Deleting useless states keeps every successful path, `connect.rs` with `del_states`. */
module Trims {
  import opened Fsts
  import opened Connects
  import opened Properties
  import opened VectorFsts
  import opened Weights

  /** The states `connect` deletes. */
  ghost function Useless<W>(f: Fst<W>): seq<bool> {
    seq(|f.states|, s requires 0 <= s < |f.states| => !(Accessible(f, s) && CoReach(f, s)))
  }

  /** The two paths read, write and cost the same, arc by arc. */
  ghost predicate SameTrace<W>(f: Fst<W>, p: seq<Edge>, g: Fst<W>, q: seq<Edge>) {
    |p| == |q| && forall k :: 0 <= k < |p| ==> SameArc(f, p[k], g, q[k])
  }

  ghost predicate SameArc<W>(f: Fst<W>, d: Edge, g: Fst<W>, e: Edge) {
    && IsEdge(f, d) && IsEdge(g, e)
    && Arc(f, d).ilabel == Arc(g, e).ilabel && Arc(f, d).olabel == Arc(g, e).olabel
      && Arc(f, d).weight == Arc(g, e).weight
  }

  /** How many of the first `i` arcs lead to survivors. */
  function ArcRank<W>(dead: seq<bool>, trs: seq<Tr<W>>, i: nat): nat
    requires i <= |trs| && TargetsKnown(dead, State(None, trs))
  {
    if i == 0 then 0 else (if dead[trs[0].nextstate] then 0 else 1) + ArcRank(dead, trs[1..], i - 1)
  }

  lemma {:induction false} ArcRankStrict<W>(dead: seq<bool>, trs: seq<Tr<W>>, i: nat, j: nat)
    requires i < j <= |trs| && TargetsKnown(dead, State(None, trs)) && !dead[trs[i].nextstate]
    ensures ArcRank(dead, trs, i) < ArcRank(dead, trs, j)
    decreases j
  {
    if i > 0 {
      ArcRankStrict(dead, trs[1..], i - 1, j - 1);
    }
  }

  lemma {:induction false} KeptAt<W>(dead: seq<bool>, trs: seq<Tr<W>>, i: nat)
    requires i < |trs| && TargetsKnown(dead, State(None, trs)) && !dead[trs[i].nextstate]
    ensures ArcRank(dead, trs, i) < |KeptTrs(dead, trs)|
    ensures KeptTrs(dead, trs)[ArcRank(dead, trs, i)] == Renumbered(dead, trs[i])
    decreases i
  {
    if i > 0 {
      KeptAt(dead, trs[1..], i - 1);
    }
  }

  lemma {:induction false} KeptFrom<W>(dead: seq<bool>, trs: seq<Tr<W>>, k: nat) returns (i: nat)
    requires TargetsKnown(dead, State(None, trs)) && k < |KeptTrs(dead, trs)|
    ensures i < |trs| && !dead[trs[i].nextstate] && ArcRank(dead, trs, i) == k
    decreases |trs|
  {
    if !dead[trs[0].nextstate] && k == 0 {
      i := 0;
    } else {
      i := KeptFrom(dead, trs[1..], if dead[trs[0].nextstate] then k else k - 1);
      i := i + 1;
    }
  }

  function MapEdge<W>(f: Fst<W>, dead: seq<bool>, e: Edge): Edge
    requires IsEdge(f, e) && |dead| == |f.states| && TargetsKnown(dead, f.states[e.src])
  {
    Edge(Rank(dead, e.src), ArcRank(dead, f.states[e.src].trs, e.pos))
  }

  /** An arc between survivors. */
  ghost predicate Alive<W>(f: Fst<W>, dead: seq<bool>, e: Edge)
    requires WellFormed(f) && |dead| == |f.states|
  {
    IsEdge(f, e) && !dead[e.src] && !dead[Arc(f, e).nextstate]
  }

  ghost function MapPath<W>(f: Fst<W>, dead: seq<bool>, p: seq<Edge>): seq<Edge>
    requires WellFormed(f) && |dead| == |f.states|
    requires forall k :: 0 <= k < |p| ==> Alive(f, dead, p[k])
  {
    if p == [] then []
    else
      assert Alive(f, dead, p[0]);
      [MapEdge(f, dead, p[0])] + MapPath(f, dead, p[1..])
  }

  lemma MapEdgeArc<W>(f: Fst<W>, dead: seq<bool>, g: Fst<W>, e: Edge)
    requires WellFormed(f) && |dead| == |f.states| && IsTrimmed(f, dead, g) && Alive(f, dead, e)
    ensures IsEdge(g, MapEdge(f, dead, e)) && Arc(g, MapEdge(f, dead, e)) == Renumbered(dead, Arc(f, e))
  {
    KeptAt(dead, f.states[e.src].trs, e.pos);
  }

  lemma MapEdgeInjective<W>(f: Fst<W>, dead: seq<bool>, d: Edge, e: Edge)
    requires WellFormed(f) && |dead| == |f.states| && Alive(f, dead, d) && Alive(f, dead, e)
    requires MapEdge(f, dead, d) == MapEdge(f, dead, e)
    ensures d == e
  {
    if d.src < e.src {
      RankMonotone(dead, d.src, e.src);
    } else if e.src < d.src {
      RankMonotone(dead, e.src, d.src);
    } else if d.pos < e.pos {
      ArcRankStrict(dead, f.states[d.src].trs, d.pos, e.pos);
    } else if e.pos < d.pos {
      ArcRankStrict(dead, f.states[d.src].trs, e.pos, d.pos);
    }
  }

  /** A path among survivors is a path of the trimmed transducer, with the same trace. */
  lemma {:induction false} PathSurvives<W>(f: Fst<W>, dead: seq<bool>, g: Fst<W>, s: nat, p: seq<Edge>, t: nat)
    requires WellFormed(f) && |dead| == |f.states| && IsTrimmed(f, dead, g)
    requires IsPath(f, s, p, t) && s < |f.states| && !dead[s] && forall k :: 0 <= k < |p| ==> Alive(f, dead, p[k])
    ensures t < |f.states| && !dead[t] && IsPath(g, Rank(dead, s), MapPath(f, dead, p), Rank(dead, t))
    ensures SameTrace(f, p, g, MapPath(f, dead, p))
    decreases |p|
  {
    if p != [] {
      assert Alive(f, dead, p[0]);
      var q := MapPath(f, dead, p);
      MapEdgeArc(f, dead, g, p[0]);
      PathSurvives(f, dead, g, Arc(f, p[0]).nextstate, p[1..], t);
      hide IsTrimmed, WellFormed, MapEdge;
      assert q[1..] == MapPath(f, dead, p[1..]);
      assert forall k :: 0 < k < |q| ==> q[k] == q[1..][k-1];
    }
  }

  lemma ConsPath<W>(f: Fst<W>, dead: seq<bool>, e: Edge, p: seq<Edge>, t: nat)
    requires WellFormed(f) && |dead| == |f.states| && Alive(f, dead, e) &&
         forall k :: 0 <= k < |p| ==> Alive(f, dead, p[k])
    requires IsPath(f, Arc(f, e).nextstate, p, t)
    ensures IsPath(f, e.src, [e] + p, t) && forall k :: 0 <= k < |[e] + p| ==> Alive(f, dead, ([e] + p)[k])
    ensures MapPath(f, dead, [e] + p) == [MapEdge(f, dead, e)] + MapPath(f, dead, p)
  {
    assert ([e] + p)[1..] == p;
  }

  /** Every path of the trimmed transducer comes from one, and only one, among survivors. */
  lemma {:induction false} PathComesFrom<W>(f: Fst<W>, dead: seq<bool>, g: Fst<W>, s: nat, q: seq<Edge>, u: nat)
    returns (p: seq<Edge>, t: nat)
    requires WellFormed(f) && |dead| == |f.states| && IsTrimmed(f, dead, g)
    requires s < |f.states| && !dead[s] && IsPath(g, Rank(dead, s), q, u)
    ensures IsPath(f, s, p, t) && t < |f.states| && !dead[t] && u == Rank(dead, t)
    ensures (forall k :: 0 <= k < |p| ==> Alive(f, dead, p[k])) && MapPath(f, dead, p) == q
    decreases |q|
  {
    if q == [] {
      p, t := [], s;
    } else {
      var i := KeptFrom(dead, f.states[s].trs, q[0].pos);
      var e := Edge(s, i);
      MapEdgeArc(f, dead, g, e);
      p, t := PathComesFrom(f, dead, g, Arc(f, e).nextstate, q[1..], u);
      hide IsTrimmed, WellFormed, IsPath;
      ConsPath(f, dead, e, p, t);
      p := [e] + p;
    }
  }

  lemma {:induction false} MapPathInjective<W>(f: Fst<W>, dead: seq<bool>, p: seq<Edge>, q: seq<Edge>)
    requires WellFormed(f) && |dead| == |f.states|
    requires forall k :: 0 <= k < |p| ==> Alive(f, dead, p[k])
    requires forall k :: 0 <= k < |q| ==> Alive(f, dead, q[k])
    requires MapPath(f, dead, p) == MapPath(f, dead, q)
    ensures p == q
    decreases |p|
  {
    if p != [] {
      assert MapPath(f, dead, p)[0] == MapPath(f, dead, q)[0] && MapPath(f, dead, p)[1..] == MapPath(f, dead, q)[1..];
      assert Alive(f, dead, p[0]) && Alive(f, dead, q[0]);
      MapEdgeInjective(f, dead, p[0], q[0]);
      MapPathInjective(f, dead, p[1..], q[1..]);
      assert p == [p[0]] + p[1..] && q == [q[0]] + q[1..];
    }
  }

  // ------------------------------------------------ states and arcs of the trimmed machine

  lemma TrimmedArcs(f: Fst<Weight>, dead: seq<bool>, g: Fst<Weight>, k: nat) returns (s: nat)
    requires WellFormed(f) && |dead| == |f.states| && IsTrimmed(f, dead, g) && k < |g.states|
    ensures s < |f.states| && !dead[s] && Rank(dead, s) == k && g.states[k] == KeptState(dead, f.states[s])
  {
    s := Unrank(dead, k, |dead|);
  }

  /** There is one trimmed machine. */
  lemma TrimmedOnce(f: Fst<Weight>, dead: seq<bool>, g: Fst<Weight>, g': Fst<Weight>)
    requires WellFormed(f) && |dead| == |f.states| && IsTrimmed(f, dead, g) && IsTrimmed(f, dead, g')
    ensures g == g'
  {
    forall k | 0 <= k < |g.states| ensures g.states[k] == g'.states[k] {
      var s := Unrank(dead, k, |dead|);
    }
    assert g.states == g'.states;
  }

  /** Two arcs of the trimmed machine come from two arcs in the same order. */
  lemma KeptOrder(dead: seq<bool>, trs: seq<Tr<Weight>>, k: nat, l: nat) returns (i: nat, j: nat)
    requires TargetsKnown(dead, State(None, trs)) && k < l < |KeptTrs(dead, trs)|
    ensures i < j < |trs| && KeptTrs(dead, trs)[k] == Renumbered(dead, trs[i])
            && KeptTrs(dead, trs)[l] == Renumbered(dead, trs[j])
  {
    i := KeptFrom(dead, trs, k);
    j := KeptFrom(dead, trs, l);
    KeptAt(dead, trs, i);
    KeptAt(dead, trs, j);
    if j < i {
      ArcRankStrict(dead, trs, j, i);
    }
  }

  lemma TrimmedAcyclic(f: Fst<Weight>, dead: seq<bool>, g: Fst<Weight>)
    requires WellFormed(f) && Acyclic(f) && |dead| == |f.states| && IsTrimmed(f, dead, g)
    ensures Acyclic(g)
  {
    forall k, q | q != [] ensures !IsPath(g, k, q, k) {
      if IsPath(g, k, q, k) {
        var s := TrimmedArcs(f, dead, g, k);
        var p, t := PathComesFrom(f, dead, g, s, q, k);
        if s < t {
          RankMonotone(dead, s, t);
        } else if t < s {
          RankMonotone(dead, t, s);
        }
      }
    }
  }

  // ------------------------------------------------ successful paths

  /** Paths that read, write and weigh the same, arc by arc and at the end. */
  ghost predicate SameSuccess(f: Fst<Weight>, p: seq<Edge>, t: nat, g: Fst<Weight>, q: seq<Edge>, u: nat) {
    && Successful(f, p, t) && Successful(g, q, u) && SameTrace(f, p, g, q)
    && g.states[u].finalWeight == f.states[t].finalWeight
  }

  lemma {:induction false} TraceCost(f: Fst<Weight>, s: nat, p: seq<Edge>, t: nat, g: Fst<Weight>, s': nat,
                                     q: seq<Edge>, t': nat)
    requires IsPath(f, s, p, t) && IsPath(g, s', q, t') && SameTrace(f, p, g, q)
    ensures Cost(f, s, p, t) == Cost(g, s', q, t')
    decreases |p|
  {
    if p != [] {
      assert SameArc(f, p[0], g, q[0]);
      forall k | 0 <= k < |p| - 1 ensures SameArc(f, p[1..][k], g, q[1..][k]) {
        var k' := k + 1;
        assert SameArc(f, p[k'], g, q[k']);
      }
      TraceCost(f, Arc(f, p[0]).nextstate, p[1..], t, g, Arc(g, q[0]).nextstate, q[1..], t');
    }
  }

  lemma TraceCons<W>(f: Fst<W>, p: seq<Edge>, g: Fst<W>, d: Edge, q: seq<Edge>)
    requires p != [] && SameArc(f, p[0], g, d) && SameTrace(f, p[1..], g, q)
    ensures SameTrace(f, p, g, [d] + q)
  {
    var r := [d] + q;
    forall k | 0 <= k < |p| ensures SameArc(f, p[k], g, r[k]) {
      if k > 0 {
        assert SameArc(f, p[1..][k-1], g, q[k-1]);
      }
    }
  }

  lemma TraceTotal(f: Fst<Weight>, p: seq<Edge>, t: nat, g: Fst<Weight>, q: seq<Edge>, u: nat)
    requires SameSuccess(f, p, t, g, q, u)
    ensures Total(f, p, t) == Total(g, q, u)
  {
    TraceCost(f, f.start.value, p, t, g, g.start.value, q, u);
  }

  lemma TraceTrans(f: Fst<Weight>, p: seq<Edge>, h: Fst<Weight>, q: seq<Edge>, g: Fst<Weight>, r: seq<Edge>)
    requires SameTrace(f, p, h, q) && SameTrace(h, q, g, r)
    ensures SameTrace(f, p, g, r)
  {
    forall k | 0 <= k < |p| ensures SameArc(f, p[k], g, r[k]) {
      assert SameArc(f, p[k], h, q[k]) && SameArc(h, q[k], g, r[k]);
    }
  }

  lemma {:induction false} UsefulPath<W>(f: Fst<W>, s: nat, p: seq<Edge>, t: nat)
    requires WellFormed(f) && IsPath(f, s, p, t) && IsFinal(f, t) && Accessible(f, s)
    ensures s < |f.states| && !Useless(f)[s] && forall k :: 0 <= k < |p| ==> Alive(f, Useless(f), p[k])
    decreases |p|
  {
    assert Reach(f, s, t);
    if p != [] {
      var e := p[0];
      ReachEdge(f, s, e.pos);
      ReachTrans(f, f.start.value, s, Arc(f, e).nextstate);
      UsefulPath(f, Arc(f, e).nextstate, p[1..], t);
      assert forall k :: 0 < k < |p| ==> p[k] == p[1..][k-1];
    }
  }

  /** Trimming keeps every successful path, with its trace and its final weight. */
  lemma SuccessSurvives<W>(f: Fst<W>, g: Fst<W>, p: seq<Edge>, t: nat)
    requires WellFormed(f) && IsTrimmed(f, Useless(f), g) && Successful(f, p, t)
    ensures forall k :: 0 <= k < |p| ==> Alive(f, Useless(f), p[k])
    ensures var q := MapPath(f, Useless(f), p); var u := Rank(Useless(f), t);
            && Successful(g, q, u) && g.states[u].finalWeight == f.states[t].finalWeight
            && SameTrace(f, p, g, q)
  {
    ReachRefl(f, f.start.value);
    UsefulPath(f, f.start.value, p, t);
    hide Useless, Alive;
    PathSurvives(f, Useless(f), g, f.start.value, p, t);
  }

  /** Trimming adds no successful path. */
  lemma SuccessComesFrom<W>(f: Fst<W>, g: Fst<W>, q: seq<Edge>, u: nat) returns (p: seq<Edge>, t: nat)
    requires WellFormed(f) && IsTrimmed(f, Useless(f), g) && Successful(g, q, u)
    ensures Successful(f, p, t) && u == Rank(Useless(f), t) && g.states[u].finalWeight == f.states[t].finalWeight
    ensures (forall k :: 0 <= k < |p| ==> Alive(f, Useless(f), p[k])) && MapPath(f, Useless(f), p) == q
  {
    p, t := PathComesFrom(f, Useless(f), g, f.start.value, q, u);
  }

  /** Every state of the trimmed transducer lies on a successful path. */
  lemma TrimmedIsTrim<W>(f: Fst<W>, g: Fst<W>, k: nat) returns (s: nat)
    requires WellFormed(f) && IsTrimmed(f, Useless(f), g) && k < |g.states|
    ensures s < |f.states| && Rank(Useless(f), s) == k && Accessible(g, k) && CoReach(g, k)
  {
    hide Accessible, CoReach, Alive;
    s := Unrank(Useless(f), k, |f.states|);
    var p, q, t := ThroughUseful(f, s);
    HalfSurvives(f, Useless(f), g, f.start.value, p, s);
    HalfSurvives(f, Useless(f), g, s, q, t);
    FinalSurvives(f, g, k, t);
  }

  /** A state that is kept lies on a successful path of kept arcs. */
  lemma ThroughUseful<W>(f: Fst<W>, s: nat) returns (p: seq<Edge>, q: seq<Edge>, t: nat)
    requires WellFormed(f) && s < |f.states| && !Useless(f)[s]
    ensures f.start.Some? && f.start.value < |f.states| && !Useless(f)[f.start.value]
    ensures IsPath(f, f.start.value, p, s) && IsPath(f, s, q, t) && IsFinal(f, t) && !Useless(f)[t]
    ensures forall k :: 0 <= k < |p| ==> Alive(f, Useless(f), p[k])
    ensures forall k :: 0 <= k < |q| ==> Alive(f, Useless(f), q[k])
  {
    p := ReachPath(f, f.start.value, s);
    t :| Reach(f, s, t) && IsFinal(f, t);
    q := ReachPath(f, s, t);
    ReachRefl(f, f.start.value);
    PathConcat(f, f.start.value, p, s, q, t);
    UsefulPath(f, f.start.value, p + q, t);
    ReachTrans(f, f.start.value, s, t);
    CoReachFinal(f, t);
    hide Alive, Accessible, CoReach, Reach;
    assert forall k :: 0 <= k < |p| ==> p[k] == (p + q)[k];
    assert forall k :: 0 <= k < |q| ==> q[k] == (p + q)[|p| + k];
  }

  lemma HalfSurvives<W>(f: Fst<W>, dead: seq<bool>, g: Fst<W>, s: nat, p: seq<Edge>, t: nat)
    requires WellFormed(f) && |dead| == |f.states| && IsTrimmed(f, dead, g)
    requires IsPath(f, s, p, t) && s < |f.states| && !dead[s] && forall k :: 0 <= k < |p| ==> Alive(f, dead, p[k])
    ensures t < |f.states| && !dead[t] && Reach(g, Rank(dead, s), Rank(dead, t))
  {
    PathSurvives(f, dead, g, s, p, t);
  }

  lemma FinalSurvives<W>(f: Fst<W>, g: Fst<W>, k: nat, t: nat)
    requires WellFormed(f) && IsTrimmed(f, Useless(f), g) && t < |f.states| && !Useless(f)[t] && IsFinal(f, t)
    requires f.start.Some? && Reach(g, Rank(Useless(f), f.start.value), k) && !Useless(f)[f.start.value]
             && Reach(g, k, Rank(Useless(f), t))
    ensures Accessible(g, k) && CoReach(g, k)
  {
    var u := Rank(Useless(f), t);
    hide Useless, Reach, KeptTrs, Rank;
    assert IsFinal(g, u);
  }

  // ------------------------------------------------ connect

  /** What `connect` trusts: a machine with both bits is trim. */
  ghost predicate TrimBitsTrue<W>(f: Fst<W>, props: set<Property>) {
    ACCESSIBLE in props && COACCESSIBLE in props ==>
         forall s :: 0 <= s < |f.states| ==> Accessible(f, s) && CoReach(f, s)
  }

  /** Where nothing is useless, deleting the useless states changes nothing. */
  lemma NothingUseless<W>(f: Fst<W>)
    requires WellFormed(f) && forall s :: 0 <= s < |f.states| ==> Accessible(f, s) && CoReach(f, s)
    ensures IsTrimmed(f, Useless(f), f)
  {
    hide Accessible, CoReach, Rank, KeptTrs;
    var dead := Useless(f);
    RankAll(dead, |dead|);
    forall s | 0 <= s < |f.states| ensures KeptState(dead, f.states[s]) == f.states[s] {
      KeptNone(dead, f.states[s].trs);
    }
  }

  lemma {:induction false} RankAll(dead: seq<bool>, n: nat)
    requires n <= |dead| && forall s :: 0 <= s < |dead| ==> !dead[s]
    ensures forall s :: 0 <= s <= n ==> Rank(dead, s) == s
  {
    if n > 0 {
      RankAll(dead, n - 1);
    }
  }

  lemma {:induction false} KeptNone<W>(dead: seq<bool>, trs: seq<Tr<W>>)
    requires TargetsKnown(dead, State(None, trs))
    requires forall s :: 0 <= s < |dead| ==> !dead[s] && Rank(dead, s) == s
    ensures KeptTrs(dead, trs) == trs
  {
    if trs != [] {
      KeptNone(dead, trs[1..]);
    }
  }

  lemma TrimBitsAfter<W>(f: Fst<W>, g: Fst<W>, props: set<Property>)
    requires WellFormed(f) && IsTrimmed(f, Useless(f), g)
    ensures TrimBitsTrue(g, props)
  {
    hide Useless, IsTrimmed, Accessible, CoReach;
    forall k | 0 <= k < |g.states| ensures Accessible(g, k) && CoReach(g, k) {
      var s := TrimmedIsTrim(f, g, k);
    }
  }

  /** Trims in place; a machine whose bits say it is trim already is left alone. */
  method Connect(fst: VectorFst)
    requires WellFormed(fst.Value()) && TrimBitsTrue(fst.Value(), fst.properties)
    modifies fst
    ensures IsTrimmed(old(fst.Value()), Useless(old(fst.Value())), fst.Value())
    ensures ACCESSIBLE in fst.properties && COACCESSIBLE in fst.properties && TrimBitsTrue(fst.Value(), fst.properties)
    ensures old({ACCESSIBLE, COACCESSIBLE} <= fst.properties)
         ==> fst.Value() == old(fst.Value()) && fst.properties == old(fst.properties)
    ensures old(!({ACCESSIBLE, COACCESSIBLE} <= fst.properties)) ==>
              fst.properties == old(fst.properties) * DELETE_STATES_PROPERTIES + {ACCESSIBLE, COACCESSIBLE}
  {
    ghost var f := fst.Value();
    if {ACCESSIBLE, COACCESSIBLE} <= fst.properties {
      NothingUseless(f);
      return;
    }
    hide IsTrimmed, TrimBitsTrue, Useless;
    var visitor := new ConnectVisitor(fst.Value());
    DfsVisit(fst.Value(), visitor);
    ghost var dead := Useless(f);
    UselessVerdicts(f, visitor.access, visitor.coaccess);
    var dstates: seq<nat> := [];
    for s := 0 to |visitor.access|
      invariant fst.Value() == f && fst.properties == old(fst.properties)
      invariant forall k :: 0 <= k < |dstates| ==> dstates[k] < |f.states|
      invariant forall t :: 0 <= t < s ==> (t in dstates <==> !visitor.access[t] || !visitor.coaccess[t])
      invariant forall t :: s <= t ==> t !in dstates
    {
      if !visitor.access[s] || !visitor.coaccess[s] {
        dstates := dstates + [s];
      }
    }
    fst.DelStates(dstates, dead);
    fst.properties := fst.properties + {ACCESSIBLE, COACCESSIBLE};
    TrimBitsAfter(f, fst.Value(), fst.properties);
  }

  lemma UselessVerdicts<W>(f: Fst<W>, access: seq<bool>, coaccess: seq<bool>)
    requires |access| == |coaccess| == |f.states|
    requires f.start.None? ==> forall v :: 0 <= v < |f.states| ==> !access[v]
    requires f.start.Some? ==>
         forall v :: 0 <= v < |f.states| ==> (access[v] <==> Accessible(f, v)) && (coaccess[v] <==> CoReach(f, v))
    ensures |Useless(f)| == |f.states| &&
         forall v :: 0 <= v < |f.states| ==> (Useless(f)[v] <==> !access[v] || !coaccess[v])
  {
  }
}
