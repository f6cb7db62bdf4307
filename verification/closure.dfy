/** `all_pairs_shortest_distance`: in-place closure of the arc matrix over a star semiring. */
module Closures {
  import opened Fsts

  datatype StarSemiring<!W> = StarSemiring(zero: W, one: W, plus: (W, W) -> W, times: (W, W) -> W, star: W -> W)

  type Matrix<W> = seq<seq<W>>

  function Sum<W>(sr: StarSemiring<W>, a: W, b: W): W {
    sr.plus(a, b)
  }

  function Prod<W>(sr: StarSemiring<W>, a: W, b: W): W {
    sr.times(a, b)
  }

  /** The semiring laws; the star is not mentioned. */
  ghost predicate IsSemiring<W(!new)>(sr: StarSemiring<W>) {
    forall a, b, c :: LawsAt(sr, a, b, c)
  }

  predicate LawsAt<W(==)>(sr: StarSemiring<W>, a: W, b: W, c: W) {
    && Sum(sr, Sum(sr, a, b), c) == Sum(sr, a, Sum(sr, b, c))
    && Sum(sr, a, b) == Sum(sr, b, a)
    && Sum(sr, sr.zero, a) == a
    && Prod(sr, Prod(sr, a, b), c) == Prod(sr, a, Prod(sr, b, c))
    && Prod(sr, sr.one, a) == a && Prod(sr, a, sr.one) == a
    && Prod(sr, sr.zero, a) == sr.zero && Prod(sr, a, sr.zero) == sr.zero
    && Prod(sr, a, Sum(sr, b, c)) == Sum(sr, Prod(sr, a, b), Prod(sr, a, c))
    && Prod(sr, Sum(sr, a, b), c) == Sum(sr, Prod(sr, a, c), Prod(sr, b, c))
  }

  /** `a* = 1 + a a*`. */
  predicate StarLaw<W(==)>(sr: StarSemiring<W>, a: W) {
    sr.star(a) == Sum(sr, sr.one, Prod(sr, a, sr.star(a)))
  }

  lemma TimesOverSum<W(!new)>(sr: StarSemiring<W>, x: W, a: W, b: W, c: W)
    requires IsSemiring(sr)
    ensures Prod(sr, x, Sum(sr, a, Prod(sr, b, c))) == Sum(sr, Prod(sr, x, a), Prod(sr, Prod(sr, x, b), c))
  {
    assert LawsAt(sr, x, a, Prod(sr, b, c)) && LawsAt(sr, x, b, c);
  }

  lemma SumTimes<W(!new)>(sr: StarSemiring<W>, a: W, b: W, x: W)
    requires IsSemiring(sr)
    ensures Sum(sr, Prod(sr, a, x), Prod(sr, b, x)) == Prod(sr, Sum(sr, a, b), x)
  {
    assert LawsAt(sr, a, b, x);
  }

  lemma PlusAssociates<W(!new)>(sr: StarSemiring<W>, a: W, b: W, c: W)
    requires IsSemiring(sr)
    ensures Sum(sr, Sum(sr, a, b), c) == Sum(sr, a, Sum(sr, b, c)) && Sum(sr, a, b) == Sum(sr, b, a)
  {
    assert LawsAt(sr, a, b, c);
  }

  lemma Zeros<W(!new)>(sr: StarSemiring<W>, a: W)
    requires IsSemiring(sr)
    ensures Sum(sr, sr.zero, a) == a == Sum(sr, a, sr.zero) && Prod(sr, sr.zero, a) == sr.zero == Prod(sr, a, sr.zero)
    ensures Prod(sr, sr.one, a) == a == Prod(sr, a, sr.one)
  {
    assert LawsAt(sr, a, sr.zero, a);
  }

  lemma ProdAssociates<W(!new)>(sr: StarSemiring<W>, a: W, b: W, c: W)
    requires IsSemiring(sr)
    ensures Prod(sr, Prod(sr, a, b), c) == Prod(sr, a, Prod(sr, b, c))
  {
    assert LawsAt(sr, a, b, c);
  }

  ghost predicate Square<W>(d: Matrix<W>) {
    forall i :: 0 <= i < |d| ==> |d[i]| == |d|
  }

  // ------------------------------------------------ the arc matrix

  /** The sum of the weights of the first `k` arcs of `i` that lead to `j`. */
  function ArcSum<W>(sr: StarSemiring<W>, f: Fst<W>, i: nat, j: nat, k: nat): W
    requires i < |f.states| && k <= |f.states[i].trs|
  {
    if k == 0 then sr.zero
    else if f.states[i].trs[k-1].nextstate == j then Sum(sr, ArcSum(sr, f, i, j, k - 1), f.states[i].trs[k-1].weight)
    else ArcSum(sr, f, i, j, k - 1)
  }

  ghost function ArcMatrix<W>(sr: StarSemiring<W>, f: Fst<W>): (a: Matrix<W>)
    ensures |a| == |f.states| && Square(a)
    ensures forall i, j :: 0 <= i < |a| && 0 <= j < |a| ==> a[i][j] == ArcSum(sr, f, i, j, |f.states[i].trs|)
  {
    seq(|f.states|, i requires 0 <= i < |f.states| => seq(|f.states|, j
                                                          requires 0 <= j => ArcSum(sr, f, i, j, |f.states[i].trs|)))
  }

  // ------------------------------------------------ one state

  /** The entries once state `m` may be passed through. */
  function StepEntry<W>(sr: StarSemiring<W>, d: Matrix<W>, m: nat, i: nat, j: nat): W
    requires m < |d| && i < |d| && |d[m]| == |d[i]| == |d| && j < |d|
  {
    var c := sr.star(d[m][m]);
    if i != m && j != m then Sum(sr, d[i][j], Prod(sr, Prod(sr, d[i][m], c), d[m][j]))
    else if j != m then Prod(sr, c, d[m][j])
    else if i != m then Prod(sr, d[i][m], c)
    else c
  }

  ghost predicate IsStep<W>(sr: StarSemiring<W>, d: Matrix<W>, m: nat, d': Matrix<W>)
    requires Square(d) && m < |d| == |d'| && Square(d')
  {
    forall i, j :: 0 <= i < |d| && 0 <= j < |d| ==> d'[i][j] == StepEntry(sr, d, m, i, j)
  }

  ghost function Step<W>(sr: StarSemiring<W>, d: Matrix<W>, m: nat): (d': Matrix<W>)
    requires Square(d) && m < |d|
    ensures |d'| == |d| && Square(d') && IsStep(sr, d, m, d')
  {
    seq(|d|, i requires 0 <= i < |d| => seq(|d|, j requires 0 <= j < |d| => StepEntry(sr, d, m, i, j)))
  }

  /** The matrix after the first `m` states. */
  ghost function Iterate<W>(sr: StarSemiring<W>, a: Matrix<W>, m: nat): (d: Matrix<W>)
    requires Square(a) && m <= |a|
    ensures |d| == |a| && Square(d)
  {
    if m == 0 then a else Step(sr, Iterate(sr, a, m - 1), m - 1)
  }

  // ------------------------------------------------ the fixpoint equation

  /** The sum of `a[i][k] d[k][j]` over the first `m` states `k`. */
  ghost function RowCol<W>(sr: StarSemiring<W>, a: Matrix<W>, d: Matrix<W>, i: nat, j: nat, m: nat): W
    requires Square(a) && Square(d) && |a| == |d| && i < |a| && j < |a| && m <= |a|
  {
    if m == 0 then sr.zero else Sum(sr, RowCol(sr, a, d, i, j, m - 1), Prod(sr, a[i][m-1], d[m-1][j]))
  }

  function Unit<W>(sr: StarSemiring<W>, i: nat, j: nat): W {
    if i == j then sr.one else sr.zero
  }

  /** Columns of the states already passed through count the empty path, the others the bare arcs. */
  ghost function Base<W>(sr: StarSemiring<W>, a: Matrix<W>, i: nat, j: nat, m: nat): W
    requires Square(a) && i < |a| && j < |a|
  {
    if j < m then Unit(sr, i, j) else a[i][j]
  }

  ghost predicate ClosedUpTo<W>(sr: StarSemiring<W>, a: Matrix<W>, d: Matrix<W>, m: nat)
    requires Square(a) && Square(d) && |a| == |d| && m <= |a|
  {
    forall i, j :: 0 <= i < |a| && 0 <= j < |a| ==> ClosedAt(sr, a, d, m, i, j)
  }

  ghost predicate ClosedAt<W>(sr: StarSemiring<W>, a: Matrix<W>, d: Matrix<W>, m: nat, i: nat, j: nat)
    requires Square(a) && Square(d) && |a| == |d| && m <= |a| && i < |a| && j < |a|
  {
    d[i][j] == Sum(sr, Base(sr, a, i, j, m), RowCol(sr, a, d, i, j, m))
  }

  /** The four cases of a step in one equation, by the star law. */
  lemma StepUnified<W(!new)>(sr: StarSemiring<W>, d: Matrix<W>, m: nat, i: nat, j: nat)
    requires IsSemiring(sr) && Square(d) && m < |d| && i < |d| && j < |d| && StarLaw(sr, d[m][m])
    ensures var d' := Step(sr, d, m);
            d'[i][j] == Sum(sr, if j == m then Unit(sr, i, m) else d[i][j], Prod(sr, d[i][m], d'[m][j]))
  {
    hide LawsAt, Sum, Prod;
    var c, x := sr.star(d[m][m]), d[m][m];
    Zeros(sr, Prod(sr, d[i][m], c));
    if j != m && i == m {
      var y := d[m][j];
      SumTimes(sr, sr.one, Prod(sr, x, c), y);
      Zeros(sr, y);
      ProdAssociates(sr, x, c, y);
    } else if j != m {
      ProdAssociates(sr, d[i][m], c, d[m][j]);
    }
  }

  lemma PlusShuffle<W(!new)>(sr: StarSemiring<W>, p: W, q: W, u: W, v: W)
    requires IsSemiring(sr)
    ensures Sum(sr, Sum(sr, p, q), Sum(sr, u, v)) == Sum(sr, Sum(sr, p, u), Sum(sr, q, v))
  {
    hide LawsAt, Sum;
    PlusAssociates(sr, p, q, Sum(sr, u, v));
    PlusAssociates(sr, q, u, v);
    PlusAssociates(sr, u, q, v);
    PlusAssociates(sr, p, u, Sum(sr, q, v));
  }

  /** Passing through `m` adds to each product of row and column the part that goes through `m`. */
  lemma {:induction false} RowColStep<W(!new)>(sr: StarSemiring<W>, a: Matrix<W>, d: Matrix<W>, m: nat, i: nat, j: nat,
                                               k: nat)
    requires IsSemiring(sr) && Square(a) && Square(d) && |a| == |d| && m < |a| && i < |a| && j < |a| && k <= m
             && StarLaw(sr, d[m][m])
    ensures var d' := Step(sr, d, m);
            RowCol(sr, a, d', i, j, k)
            == Sum(sr, if j == m then sr.zero else RowCol(sr, a, d, i, j, k),
                   Prod(sr, RowCol(sr, a, d, i, m, k), d'[m][j]))
  {
    hide IsSemiring, StarLaw, Sum, Prod, Step, IsStep;
    var d' := Step(sr, d, m);
    var x := d'[m][j];
    if k == 0 {
      Zeros(sr, x);
      Zeros(sr, sr.zero);
    } else {
      var l := k - 1;
      RowColStep(sr, a, d, m, i, j, l);
      StepUnified(sr, d, m, l, j);
      var own := if j == m then sr.zero else d[l][j];
      var p := if j == m then sr.zero else RowCol(sr, a, d, i, j, l);
      var q := RowCol(sr, a, d, i, m, l);
      TimesOverSum(sr, a[i][l], own, d[l][m], x);
      PlusShuffle(sr, p, Prod(sr, q, x), Prod(sr, a[i][l], own), Prod(sr, Prod(sr, a[i][l], d[l][m]), x));
      SumTimes(sr, q, Prod(sr, a[i][l], d[l][m]), x);
      Zeros(sr, a[i][l]);
      Zeros(sr, sr.zero);
    }
  }

  lemma StepClosed<W(!new)>(sr: StarSemiring<W>, a: Matrix<W>, d: Matrix<W>, m: nat)
    requires IsSemiring(sr) && Square(a) && Square(d) && |a| == |d| && m < |a| && StarLaw(sr, d[m][m])
    requires ClosedUpTo(sr, a, d, m)
    ensures ClosedUpTo(sr, a, Step(sr, d, m), m + 1)
  {
    hide IsSemiring, StarLaw, Sum, Prod, Step, IsStep;
    var d' := Step(sr, d, m);
    var m' := m + 1;
    forall i, j | 0 <= i < |a| && 0 <= j < |a| ensures ClosedAt(sr, a, d', m', i, j) {
      StepClosedAt(sr, a, d, m, i, j);
    }
  }

  lemma StepClosedAt<W(!new)>(sr: StarSemiring<W>, a: Matrix<W>, d: Matrix<W>, m: nat, i: nat, j: nat)
    requires IsSemiring(sr) && Square(a) && Square(d) && |a| == |d| && m < |a| && StarLaw(sr, d[m][m])
    requires ClosedUpTo(sr, a, d, m) && i < |a| && j < |a|
    ensures ClosedAt(sr, a, Step(sr, d, m), m + 1, i, j)
  {
    hide IsSemiring, StarLaw, Sum, Prod, Step, IsStep;
    var d' := Step(sr, d, m);
    RowColStep(sr, a, d, m, i, j, m);
    StepUnified(sr, d, m, i, j);
    var x := d'[m][j];
    var r := RowCol(sr, a, d, i, m, m);
    var p := if j == m then sr.zero else RowCol(sr, a, d, i, j, m);
    var base := Base(sr, a, i, j, m + 1);
    var rx, ax := Prod(sr, r, x), Prod(sr, a[i][m], x);
    assert ClosedAt(sr, a, d, m, i, m) && ClosedAt(sr, a, d, m, i, j);
    assert d[i][m] == Sum(sr, a[i][m], r);
    SumTimes(sr, a[i][m], r, x);
    PlusAssociates(sr, ax, rx, ax);
    assert Prod(sr, d[i][m], x) == Sum(sr, ax, rx) == Sum(sr, rx, ax);
    PlusAssociates(sr, p, rx, ax);
    PlusAssociates(sr, base, p, Sum(sr, rx, ax));
    Zeros(sr, base);
    assert RowCol(sr, a, d', i, j, m + 1) == Sum(sr, RowCol(sr, a, d', i, j, m), ax);
    assert RowCol(sr, a, d', i, j, m) == Sum(sr, p, rx);
    assert Sum(sr, base, p) == if j == m then Unit(sr, i, m) else d[i][j];
  }

  /** The star law for every diagonal entry that is starred. */
  ghost predicate Lawful<W>(sr: StarSemiring<W>, a: Matrix<W>, m: nat)
    requires Square(a) && m <= |a|
  {
    forall k :: 0 <= k < m ==> LawfulAt(sr, a, k)
  }

  ghost predicate LawfulAt<W>(sr: StarSemiring<W>, a: Matrix<W>, k: nat)
    requires Square(a) && k < |a|
  {
    StarLaw(sr, Iterate(sr, a, k)[k][k])
  }

  lemma LawAt<W>(sr: StarSemiring<W>, a: Matrix<W>, k: nat)
    requires Square(a) && k < |a| && LawfulAt(sr, a, k)
    ensures StarLaw(sr, Iterate(sr, a, k)[k][k])
  {
  }

  lemma BaseClosed<W(!new)>(sr: StarSemiring<W>, a: Matrix<W>)
    requires IsSemiring(sr) && Square(a)
    ensures ClosedUpTo(sr, a, a, 0)
  {
    hide IsSemiring, Sum, Prod;
    forall i, j | 0 <= i < |a| && 0 <= j < |a| ensures ClosedAt(sr, a, a, 0, i, j) {
      Zeros(sr, a[i][j]);
    }
  }

  lemma {:induction false} IterateClosed<W(!new)>(sr: StarSemiring<W>, a: Matrix<W>, m: nat)
    requires IsSemiring(sr) && Square(a) && m <= |a| && Lawful(sr, a, m)
    ensures ClosedUpTo(sr, a, Iterate(sr, a, m), m)
  {
    hide IsSemiring, LawfulAt, Sum, Prod;
    if m == 0 {
      BaseClosed(sr, a);
    } else {
      IterateClosed(sr, a, m - 1);
      LawAt(sr, a, m - 1);
      StepClosed(sr, a, Iterate(sr, a, m - 1), m - 1);
    }
  }

  /** The result solves `D = I + A D`. */
  lemma ClosureEquation<W(!new)>(sr: StarSemiring<W>, a: Matrix<W>, i: nat, j: nat)
    requires IsSemiring(sr) && Square(a) && Lawful(sr, a, |a|) && i < |a| && j < |a|
    ensures var d := Iterate(sr, a, |a|); d[i][j] == Sum(sr, Unit(sr, i, j), RowCol(sr, a, d, i, j, |a|))
  {
    IterateClosed(sr, a, |a|);
    assert ClosedAt(sr, a, Iterate(sr, a, |a|), |a|, i, j);
  }

  // ------------------------------------------------ the loops

  ghost predicate Shows<W>(d: array2<W>, m: Matrix<W>)
    reads d
  {
    Square(m) && d.Length0 == d.Length1 == |m| && forall i, j :: 0 <= i < |m| && 0 <= j < |m| ==> d[i, j] == m[i][j]
  }

  method FillArcs<W(0)>(sr: StarSemiring<W>, f: Fst<W>) returns (d: array2<W>)
    requires WellFormed(f)
    ensures fresh(d) && Shows(d, ArcMatrix(sr, f))
  {
    var n := |f.states|;
    d := new W[n, n]((_, _) => sr.zero);
    for s := 0 to n
      invariant forall i: nat, j: nat :: i < n && j < n ==> d[i, j] == if i < s
                then ArcSum(sr, f, i, j, |f.states[i].trs|) else sr.zero
    {
      var trs := f.states[s].trs;
      for k := 0 to |trs|
        invariant forall i: nat, j: nat :: i < n && j < n ==>
                    d[i, j] == if i < s then ArcSum(sr, f, i, j, |f.states[i].trs|) else if i == s
                      then ArcSum(sr, f, i, j, k) else sr.zero
      {
        d[s, trs[k].nextstate] := sr.plus(d[s, trs[k].nextstate], trs[k].weight);
      }
    }
  }

  /** Entries away from row and column `k`. */
  method StepInner<W>(sr: StarSemiring<W>, d: array2<W>, k: nat, c: W, ghost m: Matrix<W>)
    requires Shows(d, m) && k < |m| && c == sr.star(m[k][k])
    modifies d
    ensures forall i, j :: 0 <= i < |m| && 0 <= j < |m| ==> d[i, j] == if i != k && j != k
            then StepEntry(sr, m, k, i, j) else m[i][j]
  {
    var n := d.Length0;
    for i := 0 to n
      invariant forall p, q :: 0 <= p < n && 0 <= q < n ==> d[p, q] == if p < i && p != k && q != k
                then StepEntry(sr, m, k, p, q) else m[p][q]
    {
      if i != k {
        for j := 0 to n
          invariant forall p, q :: 0 <= p < n && 0 <= q < n ==>
                      d[p, q] == if (p < i || (p == i && q < j)) && p != k && q != k then StepEntry(sr, m, k, p, q)
                        else m[p][q]
        {
          if j != k {
            var a := sr.times(sr.times(d[i, k], c), d[k, j]);
            d[i, j] := sr.plus(d[i, j], a);
          }
        }
      }
    }
  }

  /** Then row and column `k`, and the diagonal entry. */
  method StepCross<W>(sr: StarSemiring<W>, d: array2<W>, k: nat, c: W, ghost m: Matrix<W>)
    requires Square(m) && d.Length0 == d.Length1 == |m| && k < |m| && c == sr.star(m[k][k])
    requires forall i, j :: 0 <= i < |m| && 0 <= j < |m| ==> d[i, j] == if i != k && j != k
             then StepEntry(sr, m, k, i, j) else m[i][j]
    modifies d
    ensures Shows(d, Step(sr, m, k))
  {
    var n := d.Length0;
    for i := 0 to n
      invariant forall p, q :: 0 <= p < n && 0 <= q < n ==>
                  d[p, q] == if (p != k && q != k) || (p == k && q != k && q < i) || (p != k && q == k && p < i)
                             then StepEntry(sr, m, k, p, q) else m[p][q]
    {
      if i != k {
        d[k, i] := sr.times(c, d[k, i]);
        d[i, k] := sr.times(d[i, k], c);
      }
    }
    d[k, k] := c;
  }

  method StepState<W>(sr: StarSemiring<W>, d: array2<W>, k: nat, ghost m: Matrix<W>)
    requires Shows(d, m) && k < |m|
    modifies d
    ensures Square(m) && Shows(d, Step(sr, m, k))
  {
    hide StepEntry;
    var c := sr.star(d[k, k]);
    StepInner(sr, d, k, c, m);
    StepCross(sr, d, k, c, m);
  }

  method AllPairsShortestDistance<W(0)>(sr: StarSemiring<W>, f: Fst<W>) returns (d: array2<W>)
    requires WellFormed(f)
    ensures fresh(d) && Shows(d, Iterate(sr, ArcMatrix(sr, f), |f.states|))
  {
    hide Shows, ArcMatrix, ArcSum, Step;
    ghost var a := ArcMatrix(sr, f);
    d := FillArcs(sr, f);
    for k := 0 to |f.states|
      invariant fresh(d) && Shows(d, Iterate(sr, a, k))
    {
      StepState(sr, d, k, Iterate(sr, a, k));
    }
  }
}
