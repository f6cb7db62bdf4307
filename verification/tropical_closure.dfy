/** The closure over the tropical semiring, with the star of `tropical_weight.rs`. */
module TropicalClosures {
  import opened Closures
  import opened Fsts
  import opened Relaxations
  import opened Weights

  /** The star leaves the usual weights: it can be minus infinity. */
  datatype ExtWeight = NegInf | Val(w: Weight)

  function ExtPlus(a: ExtWeight, b: ExtWeight): ExtWeight {
    if a.NegInf? || b.NegInf? then NegInf else Val(Plus(a.w, b.w))
  }

  /** Plus infinity wins over minus infinity. */
  function ExtTimes(a: ExtWeight, b: ExtWeight): ExtWeight {
    if a == Val(ZERO) then a
    else if b == Val(ZERO) then b
    else if a.NegInf? || b.NegInf? then NegInf
    else Val(Times(a.w, b.w))
  }

  function ExtStar(a: ExtWeight): ExtWeight {
    if a.Val? && a.w.Fin? && a.w.v >= 0 then Val(ONE) else NegInf
  }

  const TROPICAL: StarSemiring<ExtWeight> := StarSemiring(Val(ZERO), Val(ONE), ExtPlus, ExtTimes, ExtStar)

  lemma PlusLaws(a: ExtWeight, b: ExtWeight, c: ExtWeight)
    ensures ExtPlus(ExtPlus(a, b), c) == ExtPlus(a, ExtPlus(b, c)) && ExtPlus(a, b) == ExtPlus(b, a)
            && ExtPlus(Val(ZERO), a) == a
  {
  }

  lemma TimesLaws(a: ExtWeight, b: ExtWeight, c: ExtWeight)
    ensures ExtTimes(ExtTimes(a, b), c) == ExtTimes(a, ExtTimes(b, c))
            && ExtTimes(Val(ONE), a) == a == ExtTimes(a, Val(ONE))
    ensures ExtTimes(Val(ZERO), a) == Val(ZERO) == ExtTimes(a, Val(ZERO))
  {
  }

  lemma DistributiveLaws(a: ExtWeight, b: ExtWeight, c: ExtWeight)
    ensures ExtTimes(a, ExtPlus(b, c)) == ExtPlus(ExtTimes(a, b), ExtTimes(a, c))
    ensures ExtTimes(ExtPlus(a, b), c) == ExtPlus(ExtTimes(a, c), ExtTimes(b, c))
  {
  }

  lemma TropicalIsSemiring()
    ensures IsSemiring(TROPICAL)
  {
    hide ExtPlus, ExtTimes;
    forall a, b, c ensures LawsAt(TROPICAL, a, b, c) {
      PlusLaws(a, b, c);
      TimesLaws(a, b, c);
      DistributiveLaws(a, b, c);
    }
  }

  /** The star law fails for the semiring zero, and nowhere else. */
  lemma TropicalStarLaw(a: ExtWeight)
    ensures StarLaw(TROPICAL, a) <==> a != Val(ZERO)
  {
  }

  function Lift(f: Fst<Weight>): (g: Fst<ExtWeight>)
    ensures |g.states| == |f.states|
    ensures forall s :: 0 <= s < |f.states| ==> |g.states[s].trs| == |f.states[s].trs|
    ensures forall s, i :: 0 <= s < |f.states| && 0 <= i < |f.states[s].trs| ==>
        g.states[s].trs[i] == LiftTr(f.states[s].trs[i])
  {
    Fst(seq(|f.states|, s requires 0 <= s < |f.states| =>
          State(None, seq(|f.states[s].trs|, i requires 0 <= i < |f.states[s].trs| => LiftTr(f.states[s].trs[i])))),
            f.start)
  }

  function LiftTr(tr: Tr<Weight>): Tr<ExtWeight> {
    Tr(tr.ilabel, tr.olabel, Val(tr.weight), tr.nextstate)
  }

  ghost function Arcs(f: Fst<Weight>): (a: Matrix<ExtWeight>)
    ensures |a| == |f.states| && Square(a)
  {
    ArcMatrix(TROPICAL, Lift(f))
  }

  ghost function Rounds(f: Fst<Weight>, m: nat): (d: Matrix<ExtWeight>)
    requires m <= |f.states|
    ensures |d| == |f.states| && Square(d)
  {
    Iterate(TROPICAL, Arcs(f), m)
  }

  // ------------------------------------------------ low paths

  /** All states strictly inside the path are below `m`. */
  predicate Low(p: seq<Edge>, m: nat) {
    forall k :: 1 <= k < |p| ==> p[k].src < m
  }

  /** A path through states below `m`; an empty one only ends below `m`. */
  ghost predicate LowPath(f: Fst<Weight>, i: nat, p: seq<Edge>, j: nat, m: nat) {
    IsPath(f, i, p, j) && Low(p, m) && (p == [] ==> j < m)
  }

  /** A cycle of finite cost from `m` through states below `m`. */
  ghost predicate LowCycle(f: Fst<Weight>, m: nat) {
    exists p :: LowPath(f, m, p, m, m) && Cost(f, m, p, m).Fin?
  }

  /** The star goes wrong at a state without low cycle: its entry is still infinite when its turn comes. */
  ghost function Toll(f: Fst<Weight>, m: nat, x: nat): ExtWeight {
    if x < m && !LowCycle(f, x) then NegInf else Val(ONE)
  }

  /** The cost of a path with the tolls of the states below `m` that it visits, its ends among them. */
  ghost function Tolled(f: Fst<Weight>, m: nat, i: nat, p: seq<Edge>, j: nat): ExtWeight
    requires IsPath(f, i, p, j)
    decreases |p|
  {
    ExtTimes(Toll(f, m, i),
             if p == [] then Val(ONE)
             else ExtTimes(Val(Arc(f, p[0]).weight), Tolled(f, m, Arc(f, p[0]).nextstate, p[1..], j)))
  }

  predicate ExtLeq(a: ExtWeight, b: ExtWeight) {
    a.NegInf? || (b.Val? && Leq(a.w, b.w))
  }

  lemma ExtMonotone(a: ExtWeight, b: ExtWeight, c: ExtWeight, d: ExtWeight)
    requires ExtLeq(a, b) && ExtLeq(c, d)
    ensures ExtLeq(ExtTimes(a, c), ExtTimes(b, d))
  {
  }

  /** A path is infinite in cost or not, whatever the tolls; a finite one is tolled exactly when it
      visits such a state. */
  lemma {:induction false} TolledIs(f: Fst<Weight>, m: nat, i: nat, p: seq<Edge>, j: nat)
    requires IsPath(f, i, p, j)
    ensures var c := Cost(f, i, p, j);
        Tolled(f, m, i, p, j) == if c == ZERO then Val(ZERO) else if Visits(f, m, i, p, j) then NegInf else Val(c)
    decreases |p|
  {
    hide LowCycle;
    if p != [] {
      var t := Arc(f, p[0]).nextstate;
      TolledIs(f, m, t, p[1..], j);
      VisitsCons(f, m, i, p, j);
    }
  }

  /** The path starts at, passes or ends at a state below `m` without low cycle. */
  ghost predicate Visits(f: Fst<Weight>, m: nat, i: nat, p: seq<Edge>, j: nat) {
    || (j < m && !LowCycle(f, j))
    || exists k :: 0 <= k < |p| && p[k].src < m && !LowCycle(f, p[k].src)
  }

  lemma VisitsCons(f: Fst<Weight>, m: nat, i: nat, p: seq<Edge>, j: nat)
    requires p != [] && p[0].src == i
    ensures Visits(f, m, i, p, j) <==> (i < m && !LowCycle(f, i)) || Visits(f, m, i, p[1..], j)
  {
    hide LowCycle;
    if k :| 0 <= k < |p| && p[k].src < m && !LowCycle(f, p[k].src) {
      assert k > 0 ==> p[1..][k-1] == p[k];
    }
    if k :| 0 <= k < |p[1..]| && p[1..][k].src < m && !LowCycle(f, p[1..][k].src) {
      assert p[k+1] == p[1..][k];
    }
  }

  /** The toll of the place where two paths meet is paid twice, which is no more than once. */
  lemma {:induction false} TolledConcat(f: Fst<Weight>, m: nat, i: nat, p: seq<Edge>, s: nat, q: seq<Edge>, j: nat)
    requires IsPath(f, i, p, s) && IsPath(f, s, q, j)
    ensures IsPath(f, i, p + q, j)
            && Tolled(f, m, i, p + q, j) == ExtTimes(Tolled(f, m, i, p, s), Tolled(f, m, s, q, j))
    decreases |p|
  {
    hide ExtTimes, LowCycle;
    if p == [] {
      assert p + q == q;
      TollTwice(Toll(f, m, s), if q == [] then Val(ONE) else
                ExtTimes(Val(Arc(f, q[0]).weight), Tolled(f, m, Arc(f, q[0]).nextstate, q[1..], j)));
    } else {
      var t := Arc(f, p[0]).nextstate;
      TolledConcat(f, m, t, p[1..], s, q, j);
      assert (p + q)[1..] == p[1..] + q && (p + q)[0] == p[0];
      var a, w, x, y := Toll(f, m, i), Val(Arc(f, p[0]).weight), Tolled(f, m, t, p[1..], s), Tolled(f, m, s, q, j);
      TimesLaws(w, x, y);
      TimesLaws(a, ExtTimes(w, x), y);
    }
  }

  lemma TollTwice(a: ExtWeight, x: ExtWeight)
    requires a.NegInf? || a == Val(ONE)
    ensures ExtTimes(a, x) == ExtTimes(ExtTimes(a, Val(ONE)), ExtTimes(a, x))
  {
  }

  /** One more state with a toll matters only at the ends of a path that does not pass it. */
  lemma {:induction false} TolledNext(f: Fst<Weight>, m: nat, i: nat, p: seq<Edge>, j: nat)
    requires IsPath(f, i, p, j) && Low(p, m)
    ensures Tolled(f, m + 1, i, p, j) ==
            ExtTimes(ExtTimes(if i == m then Toll(f, m + 1, m) else Val(ONE), Tolled(f, m, i, p, j)),
                     if j == m then Toll(f, m + 1, m) else Val(ONE))
    decreases |p|
  {
    hide LowCycle, ExtTimes, Tolled, Toll;
    var b: ExtWeight, e := if i == m then Toll(f, m + 1, m) else Val(ONE),
                           if j == m then Toll(f, m + 1, m) else Val(ONE);
    NextToll(f, m, i);
    NextToll(f, m, j);
    if p == [] {
      TolledNone(f, m, i);
      TolledNone(f, m + 1, i);
      TollIs(f, m + 1, m);
      TollEnds(b, Toll(f, m, i), if i == m then Toll(f, m + 1, m) else Val(ONE));
    } else {
      var t, w := Arc(f, p[0]).nextstate, Val(Arc(f, p[0]).weight);
      TolledCons(f, m, i, p, j);
      TolledCons(f, m + 1, i, p, j);
      assert forall k :: 1 <= k < |p[1..]| ==> p[1..][k] == p[k+1];
      TolledNext(f, m, t, p[1..], j);
      if p[1..] == [] {
        TolledNone(f, m, t);
        TolledNone(f, m + 1, t);
        MiddleStep(b, Toll(f, m, i), w, Toll(f, m, t), e);
      } else {
        assert p[1].src == t && p[1..][0] == p[1];
        MiddleStep(b, Toll(f, m, i), w, Tolled(f, m, t, p[1..], j), e);
      }
    }
  }

  lemma TollIs(f: Fst<Weight>, m: nat, x: nat)
    ensures Toll(f, m, x).NegInf? || Toll(f, m, x) == Val(ONE)
  {
  }

  lemma NextToll(f: Fst<Weight>, m: nat, x: nat)
    ensures Toll(f, m + 1, x) == ExtTimes(if x == m then Toll(f, m + 1, m) else Val(ONE), Toll(f, m, x))
    ensures Toll(f, m + 1, x) == ExtTimes(Toll(f, m, x), if x == m then Toll(f, m + 1, m) else Val(ONE))
  {
  }

  lemma TolledNone(f: Fst<Weight>, m: nat, i: nat)
    requires i < |f.states|
    ensures Tolled(f, m, i, [], i) == Toll(f, m, i)
  {
  }

  lemma TolledCons(f: Fst<Weight>, m: nat, i: nat, p: seq<Edge>, j: nat)
    requires IsPath(f, i, p, j) && p != []
    ensures Tolled(f, m, i, p, j) ==
            ExtTimes(Toll(f, m, i), ExtTimes(Val(Arc(f, p[0]).weight), Tolled(f, m, Arc(f, p[0]).nextstate, p[1..], j)))
  {
  }

  lemma TollEnds(b: ExtWeight, a: ExtWeight, c: ExtWeight)
    requires b == c && (b.NegInf? || b == Val(ONE))
    ensures ExtTimes(b, a) == ExtTimes(ExtTimes(b, a), c)
  {
  }

  lemma MiddleStep(b: ExtWeight, a: ExtWeight, w: ExtWeight, x: ExtWeight, e: ExtWeight)
    ensures ExtTimes(ExtTimes(b, a), ExtTimes(w, ExtTimes(x, e)))
         == ExtTimes(ExtTimes(b, ExtTimes(a, ExtTimes(w, x))), e)
    ensures ExtTimes(Val(ONE), x) == x
  {
  }

  // ------------------------------------------------ the entries after each state

  /** The entry is at most the tolled cost of every low path, and some low path costs just that. */
  ghost predicate EntryExact(f: Fst<Weight>, d: Matrix<ExtWeight>, m: nat, i: nat, j: nat)
    requires Square(d) && |d| == |f.states| && i < |d| && j < |d|
  {
    EntryBelow(f, d, m, i, j) && (d[i][j] == Val(ZERO) || EntryReached(f, d, m, i, j))
  }

  ghost predicate EntryBelow(f: Fst<Weight>, d: Matrix<ExtWeight>, m: nat, i: nat, j: nat)
    requires Square(d) && |d| == |f.states| && i < |d| && j < |d|
  {
    forall p :: LowPath(f, i, p, j, m) ==> ExtLeq(d[i][j], Tolled(f, m, i, p, j))
  }

  ghost predicate EntryReached(f: Fst<Weight>, d: Matrix<ExtWeight>, m: nat, i: nat, j: nat)
    requires Square(d) && |d| == |f.states| && i < |d| && j < |d|
  {
    exists p :: LowPath(f, i, p, j, m) && Tolled(f, m, i, p, j) == d[i][j]
  }

  ghost predicate AllExact(f: Fst<Weight>, d: Matrix<ExtWeight>, m: nat)
    requires Square(d) && |d| == |f.states|
  {
    forall i, j :: 0 <= i < |d| && 0 <= j < |d| ==> EntryExact(f, d, m, i, j)
  }

  lemma {:induction false} ArcSumFacts(f: Fst<Weight>, i: nat, j: nat, k: nat)
    requires i < |f.states| && k <= |f.states[i].trs|
    ensures var a := ArcSum(TROPICAL, Lift(f), i, j, k);
            && a.Val?
            && (forall l :: 0 <= l < k && f.states[i].trs[l].nextstate == j ==> Leq(a.w, f.states[i].trs[l].weight))
            && (a.w != ZERO ==>
                 exists l :: 0 <= l < k && f.states[i].trs[l].nextstate == j && f.states[i].trs[l].weight == a.w)
  {
    if k > 0 {
      ArcSumFacts(f, i, j, k - 1);
    }
  }

  lemma LoneArc(f: Fst<Weight>, i: nat, l: nat)
    requires WellFormed(f) && i < |f.states| && l < |f.states[i].trs|
    ensures var tr := f.states[i].trs[l];
            LowPath(f, i, [Edge(i, l)], tr.nextstate, 0) &&
            Tolled(f, 0, i, [Edge(i, l)], tr.nextstate) == Val(tr.weight)
  {
    hide LowCycle, ExtTimes, Tolled;
    var e, t := Edge(i, l), f.states[i].trs[l].nextstate;
    assert [e][1..] == [] && IsPath(f, t, [], t);
    TolledCons(f, 0, i, [e], t);
    TolledNone(f, 0, t);
    TimesLaws(Val(Arc(f, e).weight), Val(ONE), Val(ONE));
  }

  lemma ArcsExact(f: Fst<Weight>)
    requires WellFormed(f)
    ensures AllExact(f, Arcs(f), 0)
  {
    hide EntryExact, Arcs;
    forall i, j | 0 <= i < |f.states| && 0 <= j < |f.states| ensures EntryExact(f, Arcs(f), 0, i, j) {
      ArcExact(f, i, j);
    }
  }

  lemma ArcExact(f: Fst<Weight>, i: nat, j: nat)
    requires WellFormed(f) && i < |f.states| && j < |f.states|
    ensures EntryExact(f, Arcs(f), 0, i, j)
  {
    hide ArcSum, Tolled, LowCycle;
    ArcSumFacts(f, i, j, |f.states[i].trs|);
    var d := Arcs(f);
    forall p: seq<Edge> | LowPath(f, i, p, j, 0) ensures ExtLeq(d[i][j], Tolled(f, 0, i, p, j)) {
      SingleArc(f, i, p, j);
      LoneArc(f, i, p[0].pos);
    }
    if d[i][j] != Val(ZERO) {
      var l :| 0 <= l < |f.states[i].trs| && f.states[i].trs[l].nextstate == j &&
               f.states[i].trs[l].weight == d[i][j].w;
      LoneArc(f, i, l);
    }
  }

  lemma SingleArc(f: Fst<Weight>, i: nat, p: seq<Edge>, j: nat)
    requires LowPath(f, i, p, j, 0)
    ensures |p| == 1 && p[0].pos < |f.states[i].trs| && p == [Edge(i, p[0].pos)] && i < |f.states|
    ensures f.states[i].trs[p[0].pos].nextstate == j
  {
    assert |p| > 1 ==> p[1].src < 0;
    assert p[1..] == [] && p == [p[0]] && p[0] == Edge(i, p[0].pos);
    assert IsPath(f, Arc(f, p[0]).nextstate, [], j);
  }

  // ------------------------------------------------ the star

  ghost predicate Stage(f: Fst<Weight>, d: Matrix<ExtWeight>, m: nat) {
    && WellFormed(f) && NonNegativeArcs(f) && Square(d) && |d| == |f.states| && m < |d| && AllExact(f, d, m)
  }

  function Star(d: Matrix<ExtWeight>, m: nat): ExtWeight
    requires Square(d) && m < |d|
  {
    ExtStar(d[m][m])
  }

  /** A low cycle keeps the entry from being infinite, and nothing else does. */
  lemma DiagonalFinite(f: Fst<Weight>, d: Matrix<ExtWeight>, m: nat)
    requires Stage(f, d, m)
    ensures d[m][m] != Val(ZERO) <==> LowCycle(f, m)
    ensures d[m][m].Val? ==> NonNegative(d[m][m].w)
  {
    assert EntryExact(f, d, m, m, m);
    if d[m][m] != Val(ZERO) {
      var p :| LowPath(f, m, p, m, m) && Tolled(f, m, m, p, m) == d[m][m];
      TolledIs(f, m, m, p, m);
      CostNonNegative(f, m, p, m);
    }
    if p :| LowPath(f, m, p, m, m) && Cost(f, m, p, m).Fin? {
      TolledIs(f, m, m, p, m);
    }
  }

  lemma StarFacts(f: Fst<Weight>, d: Matrix<ExtWeight>, m: nat)
    requires Stage(f, d, m)
    ensures var c, b := Star(d, m), Toll(f, m + 1, m);
            && (c.NegInf? || c == Val(ONE)) && (b.NegInf? || b == Val(ONE)) && (b.NegInf? ==> c.NegInf?)
            && (c == Val(ONE) <==> d[m][m].Val? && d[m][m] != Val(ZERO))
  {
    hide AllExact, LowCycle;
    DiagonalFinite(f, d, m);
  }

  /** The star is at most the tolled cost of every low cycle ... */
  lemma StarBelow(f: Fst<Weight>, d: Matrix<ExtWeight>, m: nat, p: seq<Edge>)
    requires Stage(f, d, m) && LowPath(f, m, p, m, m)
    ensures ExtLeq(Star(d, m), Tolled(f, m + 1, m, p, m))
  {
    StarFacts(f, d, m);
    DiagonalFinite(f, d, m);
    assert EntryExact(f, d, m, m, m);
    TolledNext(f, m, m, p, m);
    TolledIs(f, m, m, p, m);
    CostNonNegative(f, m, p, m);
    hide LowCycle, Tolled, AllExact;
  }

  /** ... and the cost of one. */
  lemma StarReached(f: Fst<Weight>, d: Matrix<ExtWeight>, m: nat) returns (q: seq<Edge>)
    requires Stage(f, d, m)
    ensures LowPath(f, m, q, m, m + 1) && Tolled(f, m + 1, m, q, m) == Star(d, m)
  {
    hide LowCycle, Tolled, AllExact;
    StarFacts(f, d, m);
    DiagonalFinite(f, d, m);
    TolledNone(f, m + 1, m);
    if Star(d, m) == Toll(f, m + 1, m) {
      q := [];
    } else {
      q := ReachedBy(f, d, m, m, m);
      TolledNext(f, m, m, q, m);
    }
  }

  lemma ReachedBy(f: Fst<Weight>, d: Matrix<ExtWeight>, m: nat, i: nat, j: nat) returns (p: seq<Edge>)
    requires Stage(f, d, m) && i < |d| && j < |d| && d[i][j] != Val(ZERO)
    ensures LowPath(f, i, p, j, m) && Tolled(f, m, i, p, j) == d[i][j]
  {
    hide Tolled, EntryBelow;
    assert EntryExact(f, d, m, i, j);
    p :| LowPath(f, i, p, j, m) && Tolled(f, m, i, p, j) == d[i][j];
  }

  // ------------------------------------------------ one more state

  lemma EntryIs(d: Matrix<ExtWeight>, m: nat, i: nat, j: nat)
    requires Square(d) && m < |d| && i < |d| && j < |d|
    ensures var c := Star(d, m);
            Step(TROPICAL, d, m)[i][j] ==
            if i != m && j != m then ExtPlus(d[i][j], ExtTimes(ExtTimes(d[i][m], c), d[m][j]))
            else if j != m then ExtTimes(c, d[m][j])
            else if i != m then ExtTimes(d[i][m], c)
            else c
  {
    assert Step(TROPICAL, d, m)[i][j] == StepEntry(TROPICAL, d, m, i, j);
  }

  /** Going through `m` is never better than the new entry. */
  lemma StepThrough(d: Matrix<ExtWeight>, m: nat, i: nat, j: nat)
    requires Square(d) && m < |d| && i < |d| && j < |d| && (Star(d, m).NegInf? || Star(d, m) == Val(ONE))
    ensures var d' := Step(TROPICAL, d, m); ExtLeq(d'[i][j], ExtTimes(d'[i][m], d'[m][j]))
  {
    EntryIs(d, m, i, j);
    EntryIs(d, m, i, m);
    EntryIs(d, m, m, j);
    hide Step, Star;
    ThroughTwice(d[i][j], d[i][m], Star(d, m), d[m][j]);
  }

  lemma ThroughTwice(x: ExtWeight, a: ExtWeight, c: ExtWeight, b: ExtWeight)
    requires c.NegInf? || c == Val(ONE)
    ensures ExtLeq(ExtPlus(x, ExtTimes(ExtTimes(a, c), b)), ExtTimes(ExtTimes(a, c), ExtTimes(c, b)))
    ensures ExtLeq(ExtTimes(c, b), ExtTimes(c, ExtTimes(c, b)))
    ensures ExtLeq(ExtTimes(a, c), ExtTimes(ExtTimes(a, c), c))
    ensures ExtLeq(c, ExtTimes(c, c))
  {
  }

  /** A path that does not pass `m` costs at least the new entry. */
  lemma StepAside(f: Fst<Weight>, d: Matrix<ExtWeight>, m: nat, i: nat, p: seq<Edge>, j: nat)
    requires Stage(f, d, m) && i < |d| && j < |d| && LowPath(f, i, p, j, m + 1) && Low(p, m)
    ensures ExtLeq(Step(TROPICAL, d, m)[i][j], Tolled(f, m + 1, i, p, j))
  {
    StarFacts(f, d, m);
    EntryIs(d, m, i, j);
    if p == [] && i == m {
      TolledNone(f, m + 1, m);
    } else if i == m && j == m {
      StarBelow(f, d, m, p);
    } else {
      assert EntryExact(f, d, m, i, j);
      assert ExtLeq(d[i][j], Tolled(f, m, i, p, j));
      TolledNext(f, m, i, p, j);
      hide LowCycle, Tolled, AllExact, Step, Toll;
      AsideOnce(d[i][j], Tolled(f, m, i, p, j), Star(d, m), Toll(f, m + 1, m),
                ExtTimes(ExtTimes(d[i][m], Star(d, m)), d[m][j]));
    }
  }

  lemma AsideOnce(x: ExtWeight, y: ExtWeight, c: ExtWeight, b: ExtWeight, z: ExtWeight)
    requires ExtLeq(x, y) && (c.NegInf? || c == Val(ONE)) && (b.NegInf? || b == Val(ONE)) && (b.NegInf? ==> c.NegInf?)
    ensures ExtLeq(ExtPlus(x, z), ExtTimes(ExtTimes(Val(ONE), y), Val(ONE)))
    ensures ExtLeq(ExtTimes(c, x), ExtTimes(ExtTimes(b, y), Val(ONE)))
    ensures ExtLeq(ExtTimes(x, c), ExtTimes(ExtTimes(Val(ONE), y), b))
  {
  }

  lemma {:induction false} StepBelow(f: Fst<Weight>, d: Matrix<ExtWeight>, m: nat, i: nat, p: seq<Edge>, j: nat)
    requires Stage(f, d, m) && i < |d| && j < |d| && LowPath(f, i, p, j, m + 1)
    ensures ExtLeq(Step(TROPICAL, d, m)[i][j], Tolled(f, m + 1, i, p, j))
    decreases |p|
  {
    hide Stage, Tolled, Step, LowCycle, Star, IsPath;
    StageFacts(f, d, m);
    if Low(p, m) {
      StepAside(f, d, m, i, p, j);
    } else {
      var k :| 1 <= k < |p| && p[k].src == m;
      var a, b := p[..k], p[k..];
      assert p == a + b;
      SplitLow(f, i, p, j, k, m + 1);
      StepBelow(f, d, m, i, a, m);
      StepBelow(f, d, m, m, b, j);
      TolledConcat(f, m + 1, i, a, m, b, j);
      StarFacts(f, d, m);
      StepThrough(d, m, i, j);
      var d' := Step(TROPICAL, d, m);
      ExtMonotone(d'[i][m], Tolled(f, m + 1, i, a, m), d'[m][j], Tolled(f, m + 1, m, b, j));
    }
  }

  lemma StageFacts(f: Fst<Weight>, d: Matrix<ExtWeight>, m: nat)
    requires Stage(f, d, m)
    ensures WellFormed(f) && Square(d) && |d| == |f.states| && m < |d|
  {
  }

  lemma SplitLow(f: Fst<Weight>, i: nat, p: seq<Edge>, j: nat, k: nat, m: nat)
    requires WellFormed(f) && LowPath(f, i, p, j, m) && 1 <= k < |p| && i < |f.states|
    ensures LowPath(f, i, p[..k], p[k].src, m) && LowPath(f, p[k].src, p[k..], j, m)
  {
    assert p == p[..k] + p[k..];
    var s := PathSplit(f, i, p[..k], p[k..], j);
    assert p[k..][0] == p[k];
  }

  /** Low paths to `m`, round it and on from it make a low path. */
  lemma LowJoin(f: Fst<Weight>, m: nat, i: nat, a: seq<Edge>, q: seq<Edge>, j: nat)
    requires LowPath(f, i, a, m, m + 1) && LowPath(f, m, q, j, m + 1)
    ensures LowPath(f, i, a + q, j, m + 1)
    ensures Tolled(f, m + 1, i, a + q, j) == ExtTimes(Tolled(f, m + 1, i, a, m), Tolled(f, m + 1, m, q, j))
  {
    hide LowCycle;
    TolledConcat(f, m + 1, i, a, m, q, j);
    forall k | 1 <= k < |a + q| ensures (a + q)[k].src < m + 1 {
      if k < |a| {
        assert (a + q)[k] == a[k];
      } else {
        assert (a + q)[k] == q[k - |a|];
      }
    }
  }

  /** A low path to `m`, with the star in place of the toll, ... */
  lemma ToStar(f: Fst<Weight>, d: Matrix<ExtWeight>, m: nat, i: nat) returns (p: seq<Edge>)
    requires Stage(f, d, m) && i < |d| && i != m && d[i][m] != Val(ZERO)
    ensures LowPath(f, i, p, m, m + 1) && Tolled(f, m + 1, i, p, m) == ExtTimes(d[i][m], Star(d, m))
  {
    hide Tolled, LowCycle, AllExact, Star, Toll;
    var a := ReachedBy(f, d, m, i, m);
    var q := StarReached(f, d, m);
    StarFacts(f, d, m);
    TolledNext(f, m, i, a, m);
    LowJoin(f, m, i, a, q, m);
    p := a + q;
    StarOnce(d[i][m], Star(d, m), Toll(f, m + 1, m));
  }

  /** ... and one from `m`. */
  lemma FromStar(f: Fst<Weight>, d: Matrix<ExtWeight>, m: nat, j: nat) returns (p: seq<Edge>)
    requires Stage(f, d, m) && j < |d| && j != m && d[m][j] != Val(ZERO)
    ensures LowPath(f, m, p, j, m + 1) && Tolled(f, m + 1, m, p, j) == ExtTimes(Star(d, m), d[m][j])
  {
    hide Tolled, LowCycle, AllExact, Star, Toll;
    var b := ReachedBy(f, d, m, m, j);
    var q := StarReached(f, d, m);
    StarFacts(f, d, m);
    TolledNext(f, m, m, b, j);
    LowJoin(f, m, m, q, b, j);
    p := q + b;
    StarOnce(d[m][j], Star(d, m), Toll(f, m + 1, m));
  }

  lemma StarOnce(x: ExtWeight, c: ExtWeight, b: ExtWeight)
    requires (c.NegInf? || c == Val(ONE)) && (b.NegInf? || b == Val(ONE)) && (b.NegInf? ==> c.NegInf?)
    ensures ExtTimes(ExtTimes(ExtTimes(Val(ONE), x), b), c) == ExtTimes(x, c)
    ensures ExtTimes(c, ExtTimes(ExtTimes(b, x), Val(ONE))) == ExtTimes(c, x)
  {
  }

  lemma ThroughStar(f: Fst<Weight>, d: Matrix<ExtWeight>, m: nat, i: nat, j: nat) returns (p: seq<Edge>)
    requires Stage(f, d, m) && i < |d| && j < |d| && i != m && j != m && d[i][m] != Val(ZERO) && d[m][j] != Val(ZERO)
    ensures LowPath(f, i, p, j, m + 1)
    ensures Tolled(f, m + 1, i, p, j) == ExtTimes(ExtTimes(d[i][m], Star(d, m)), d[m][j])
  {
    hide Tolled, LowCycle, AllExact, Star, Toll, ExtTimes;
    var a := ToStar(f, d, m, i);
    var b := FromStar(f, d, m, j);
    StarFacts(f, d, m);
    LowJoin(f, m, i, a, b, j);
    p := a + b;
    StarTwice(d[i][m], Star(d, m), d[m][j]);
  }

  lemma StarTwice(x: ExtWeight, c: ExtWeight, y: ExtWeight)
    requires c.NegInf? || c == Val(ONE)
    ensures ExtTimes(ExtTimes(x, c), ExtTimes(c, y)) == ExtTimes(ExtTimes(x, c), y)
  {
  }

  lemma PathAside(f: Fst<Weight>, d: Matrix<ExtWeight>, m: nat, i: nat, j: nat) returns (p: seq<Edge>)
    requires Stage(f, d, m) && i < |d| && j < |d| && i != m && j != m && d[i][j] != Val(ZERO)
    ensures LowPath(f, i, p, j, m + 1) && Tolled(f, m + 1, i, p, j) == d[i][j]
  {
    hide Tolled, LowCycle, AllExact;
    p := ReachedBy(f, d, m, i, j);
    TolledNext(f, m, i, p, j);
    TimesLaws(d[i][j], Val(ONE), Val(ONE));
  }

  lemma StepReached(f: Fst<Weight>, d: Matrix<ExtWeight>, m: nat, i: nat, j: nat)
    requires Stage(f, d, m) && i < |d| && j < |d|
    ensures var d' := Step(TROPICAL, d, m); d'[i][j] == Val(ZERO) || EntryReached(f, d', m + 1, i, j)
  {
    hide Tolled, LowCycle, Step, AllExact, Star;
    EntryIs(d, m, i, j);
    PlusPicks(d[i][j], ExtTimes(ExtTimes(d[i][m], Star(d, m)), d[m][j]));
    var d' := Step(TROPICAL, d, m);
    if d'[i][j] != Val(ZERO) {
      var p;
      if i != m && j != m && d'[i][j] == d[i][j] {
        p := PathAside(f, d, m, i, j);
      } else if i != m && j != m {
        p := ThroughStar(f, d, m, i, j);
      } else if j != m {
        p := FromStar(f, d, m, j);
      } else if i != m {
        p := ToStar(f, d, m, i);
      } else {
        p := StarReached(f, d, m);
      }
    }
  }

  lemma PlusPicks(a: ExtWeight, b: ExtWeight)
    ensures ExtPlus(a, b) == a || ExtPlus(a, b) == b
  {
  }

  lemma StepExact(f: Fst<Weight>, d: Matrix<ExtWeight>, m: nat)
    requires Stage(f, d, m)
    ensures AllExact(f, Step(TROPICAL, d, m), m + 1)
  {
    hide Tolled, LowCycle, Step, Stage;
    StageFacts(f, d, m);
    var d', m' := Step(TROPICAL, d, m), m + 1;
    forall i, j | 0 <= i < |d'| && 0 <= j < |d'| ensures EntryExact(f, d', m', i, j) {
      forall p | LowPath(f, i, p, j, m') ensures ExtLeq(d'[i][j], Tolled(f, m', i, p, j)) {
        StepBelow(f, d, m, i, p, j);
      }
      StepReached(f, d, m, i, j);
    }
  }

  lemma {:induction false} IterateExact(f: Fst<Weight>, m: nat)
    requires WellFormed(f) && NonNegativeArcs(f) && m <= |f.states|
    ensures AllExact(f, Rounds(f, m), m)
  {
    hide AllExact, Step, Arcs;
    if m == 0 {
      ArcsExact(f);
    } else {
      IterateExact(f, m - 1);
      StepExact(f, Rounds(f, m - 1), m - 1);
    }
  }

  // ------------------------------------------------ every entry of the result

  /** A path of finite cost that starts at, passes or ends at a state without low cycle. */
  ghost predicate Spoiled(f: Fst<Weight>, i: nat, j: nat) {
    exists p :: IsPath(f, i, p, j) && Cost(f, i, p, j).Fin? && Visits(f, |f.states|, i, p, j)
  }

  /** Minus infinity exactly for spoiled pairs; for all others the least cost over all paths. */
  ghost predicate EntryRight(f: Fst<Weight>, i: nat, j: nat, x: ExtWeight) {
    if Spoiled(f, i, j) then x == NegInf else x.Val? && IsDistance(f, i, j, x.w)
  }

  lemma TropicalEntries(f: Fst<Weight>, i: nat, j: nat)
    requires WellFormed(f) && NonNegativeArcs(f) && i < |f.states| && j < |f.states|
    ensures EntryRight(f, i, j, Rounds(f, |f.states|)[i][j])
  {
    hide LowCycle, Tolled, Visits, EntryExact, EntryRight, Rounds;
    IterateExact(f, |f.states|);
    EntryRead(f, Rounds(f, |f.states|), i, j);
  }

  lemma EntryRead(f: Fst<Weight>, d: Matrix<ExtWeight>, i: nat, j: nat)
    requires Square(d) && |d| == |f.states| && i < |d| && j < |d| && EntryExact(f, d, |d|, i, j)
    ensures EntryRight(f, i, j, d[i][j])
  {
    hide LowCycle, Tolled, Visits, LowPath, Cost, IsPath;
    var n := |d|;
    forall p | IsPath(f, i, p, j)
      ensures LowPath(f, i, p, j, n)
      ensures Tolled(f, n, i, p, j) == if Cost(f, i, p, j) == ZERO then Val(ZERO)
                                       else if Visits(f, n, i, p, j) then NegInf else Val(Cost(f, i, p, j))
    {
      PathLow(f, i, p, j);
      TolledIs(f, n, i, p, j);
    }
    if d[i][j] != Val(ZERO) {
      var p := LowReached(f, d, n, i, j);
      if d[i][j].Val? {
        assert Witnessed(f, i, j, d[i][j].w);
      }
    }
  }

  lemma LowReached(f: Fst<Weight>, d: Matrix<ExtWeight>, m: nat, i: nat, j: nat) returns (p: seq<Edge>)
    requires Square(d) && |d| == |f.states| && i < |d| && j < |d| && EntryReached(f, d, m, i, j)
    ensures IsPath(f, i, p, j) && Tolled(f, m, i, p, j) == d[i][j]
  {
    hide Tolled;
    p :| LowPath(f, i, p, j, m) && Tolled(f, m, i, p, j) == d[i][j];
  }

  lemma {:induction false} PathLow(f: Fst<Weight>, i: nat, p: seq<Edge>, j: nat)
    requires IsPath(f, i, p, j)
    ensures forall k :: 0 <= k < |p| ==> p[k].src < |f.states|
    ensures j < |f.states| && LowPath(f, i, p, j, |f.states|)
    decreases |p|
  {
    if p != [] {
      PathLow(f, Arc(f, p[0]).nextstate, p[1..], j);
      assert forall k :: 1 <= k < |p| ==> p[k] == p[1..][k-1];
    }
  }

  /** Everywhere the distances, exactly when every state has a low cycle. */
  lemma TropicalClosureExact(f: Fst<Weight>)
    requires WellFormed(f) && NonNegativeArcs(f)
    ensures (forall i, j :: 0 <= i < |f.states| && 0 <= j < |f.states| ==> DistanceAt(f, Rounds(f, |f.states|), i, j))
       <==> (forall k :: 0 <= k < |f.states| ==> LowCycle(f, k))
  {
    hide LowCycle, IsDistance;
    var n, d := |f.states|, Rounds(f, |f.states|);
    forall i: nat, j: nat | i < n && j < n ensures EntryRight(f, i, j, d[i][j]) && (i == j ==> IsPath(f, i, [], j)) {
      TropicalEntries(f, i, j);
    }
    if k :| 0 <= k < n && !LowCycle(f, k) {
      assert Visits(f, n, k, [], k) && Cost(f, k, [], k) == ONE;
      assert Spoiled(f, k, k) && !DistanceAt(f, d, k, k);
    }
  }

  ghost predicate DistanceAt(f: Fst<Weight>, d: Matrix<ExtWeight>, i: nat, j: nat)
    requires Square(d) && |d| == |f.states| && i < |d| && j < |d|
  {
    d[i][j].Val? && IsDistance(f, i, j, d[i][j].w)
  }

  /** Where the star does not go wrong the result solves `D = I + A D`. */
  lemma TropicalEquation(f: Fst<Weight>, i: nat, j: nat)
    requires WellFormed(f) && NonNegativeArcs(f) && i < |f.states| && j < |f.states|
    requires forall k :: 0 <= k < |f.states| ==> LowCycle(f, k)
    ensures var d := Rounds(f, |f.states|);
            d[i][j] == ExtPlus(Unit(TROPICAL, i, j), RowCol(TROPICAL, Arcs(f), d, i, j, |f.states|))
  {
    forall k | 0 <= k < |f.states| ensures LawfulAt(TROPICAL, Arcs(f), k) {
      IterateExact(f, k);
      DiagonalFinite(f, Rounds(f, k), k);
      TropicalStarLaw(Rounds(f, k)[k][k]);
    }
    TropicalIsSemiring();
    ClosureEquation(TROPICAL, Arcs(f), i, j);
  }

  /** One state without arcs: it is at distance one from itself, but its entry becomes minus infinity. */
  const LONE: Fst<Weight> := Fst([State(None, [])], Some(0))

  lemma LoneFails()
    ensures WellFormed(LONE) && NonNegativeArcs(LONE) && IsDistance(LONE, 0, 0, ONE)
    ensures Rounds(LONE, 1)[0][0] == NegInf
  {
    assert IsPath(LONE, 0, [], 0);
    assert forall p :: IsPath(LONE, 0, p, 0) ==> p == [];
    assert Witnessed(LONE, 0, 0, ONE);
    TropicalEntries(LONE, 0, 0);
    assert Visits(LONE, 1, 0, [], 0) && Cost(LONE, 0, [], 0) == ONE;
  }

  method TropicalAllPairs(f: Fst<Weight>) returns (d: array2<ExtWeight>)
    requires WellFormed(f) && NonNegativeArcs(f)
    ensures d.Length0 == d.Length1 == |f.states|
    ensures forall i, j :: 0 <= i < |f.states| && 0 <= j < |f.states| ==> EntryRight(f, i, j, d[i, j])
  {
    hide LowCycle, EntryRight;
    assert WellFormed(Lift(f));
    d := AllPairsShortestDistance(TROPICAL, Lift(f));
    forall i, j | 0 <= i < |f.states| && 0 <= j < |f.states| ensures EntryRight(f, i, j, d[i, j]) {
      TropicalEntries(f, i, j);
    }
  }
}
