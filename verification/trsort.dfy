/** Stable sorting of the arcs of a state, and removal of adjacent repetitions: `tr_sort.rs`, `tr_unique.rs`. */
module TrSorts {
  import opened Fsts
  import opened Acceptors

  /** The order of `ILabelCompare`. */
  predicate ILabelLe<W>(a: Tr<W>, b: Tr<W>) {
    a.ilabel <= b.ilabel
  }

  /** The order of `tr_compare`, which does not look at weights. */
  predicate TrLe<W>(a: Tr<W>, b: Tr<W>) {
    a.ilabel < b.ilabel
    || (a.ilabel == b.ilabel && (a.olabel < b.olabel || (a.olabel == b.olabel && a.nextstate <= b.nextstate)))
  }

  ghost predicate Preorder<W(!new)>(le: (Tr<W>, Tr<W>) -> bool) {
    && (forall a, b :: le(a, b) || le(b, a))
    && (forall a, b, c :: le(a, b) && le(b, c) ==> le(a, c))
  }

  predicate Sorted<W>(le: (Tr<W>, Tr<W>) -> bool, trs: seq<Tr<W>>) {
    forall i, j :: 0 <= i < j < |trs| ==> le(trs[i], trs[j])
  }

  function Insert<W>(le: (Tr<W>, Tr<W>) -> bool, tr: Tr<W>, sorted: seq<Tr<W>>): seq<Tr<W>> {
    if sorted == [] || le(tr, sorted[0]) then [tr] + sorted
    else [sorted[0]] + Insert(le, tr, sorted[1..])
  }

  function SortBy<W>(le: (Tr<W>, Tr<W>) -> bool, trs: seq<Tr<W>>): seq<Tr<W>> {
    if trs == [] then [] else Insert(le, trs[0], SortBy(le, trs[1..]))
  }

  function SortTrs<W>(trs: seq<Tr<W>>): seq<Tr<W>> {
    SortBy(ILabelLe, trs)
  }

  lemma {:induction false} InsertElements<W>(le: (Tr<W>, Tr<W>) -> bool, tr: Tr<W>, sorted: seq<Tr<W>>)
    ensures multiset(Insert(le, tr, sorted)) == multiset(sorted) + multiset{tr}
    ensures forall x :: x in Insert(le, tr, sorted) <==> x == tr || x in sorted
    ensures |Insert(le, tr, sorted)| == |sorted| + 1
  {
    if sorted == [] || le(tr, sorted[0]) {
    } else {
      InsertElements(le, tr, sorted[1..]);
      assert sorted == [sorted[0]] + sorted[1..];
    }
  }

  lemma {:induction false} InsertSorted<W(!new)>(le: (Tr<W>, Tr<W>) -> bool, tr: Tr<W>, sorted: seq<Tr<W>>)
    requires Preorder(le) && Sorted(le, sorted)
    ensures Sorted(le, Insert(le, tr, sorted))
  {
    if sorted == [] || le(tr, sorted[0]) {
      forall j | 0 <= j < |sorted| ensures le(tr, sorted[j]) {
        if j > 0 {
          assert le(sorted[0], sorted[j]);
        }
      }
    } else {
      InsertSorted(le, tr, sorted[1..]);
      InsertElements(le, tr, sorted[1..]);
      var rest := Insert(le, tr, sorted[1..]);
      forall j | 0 <= j < |rest| ensures le(sorted[0], rest[j]) {
        assert rest[j] in rest;
      }
    }
  }

  lemma NoneSorted<W(!new)>(le: (Tr<W>, Tr<W>) -> bool)
    ensures Sorted(le, [])
  {
  }

  lemma {:induction false} SortBySorted<W(!new)>(le: (Tr<W>, Tr<W>) -> bool, trs: seq<Tr<W>>)
    requires Preorder(le)
    ensures Sorted(le, SortBy(le, trs))
    ensures multiset(SortBy(le, trs)) == multiset(trs)
    ensures forall x :: x in SortBy(le, trs) <==> x in trs
    ensures |SortBy(le, trs)| == |trs|
  {
    hide Preorder, Sorted, Insert;
    if trs == [] {
      NoneSorted(le);
    } else {
      SortBySorted(le, trs[1..]);
      InsertSorted(le, trs[0], SortBy(le, trs[1..]));
      InsertElements(le, trs[0], SortBy(le, trs[1..]));
      assert trs == [trs[0]] + trs[1..];
    }
  }

  lemma SortTrsSorted<W(!new)>(trs: seq<Tr<W>>)
    ensures LabelSorted(SortTrs(trs))
    ensures multiset(SortTrs(trs)) == multiset(trs)
    ensures forall x :: x in SortTrs(trs) <==> x in trs
    ensures |SortTrs(trs)| == |trs|
  {
    assert forall a: Tr<W>, b: Tr<W> :: ILabelLe(a, b) || ILabelLe(b, a);
    SortBySorted(ILabelLe, trs);
    var sorted := SortTrs(trs);
    forall i, j | 0 <= i < j < |sorted| ensures sorted[i].ilabel <= sorted[j].ilabel {
      assert ILabelLe(sorted[i], sorted[j]);
    }
  }

  /** Sorting loses no arc ... */
  lemma SortedPosition<W(!new)>(trs: seq<Tr<W>>, k: nat) returns (j: nat)
    requires k < |trs|
    ensures j < |SortTrs(trs)| && SortTrs(trs)[j] == trs[k]
  {
    SortTrsSorted(trs);
    assert trs[k] in SortTrs(trs);
    j :| 0 <= j < |SortTrs(trs)| && SortTrs(trs)[j] == trs[k];
  }

  /** ... and invents none. */
  lemma OriginalPosition<W(!new)>(trs: seq<Tr<W>>, j: nat) returns (k: nat)
    requires j < |SortTrs(trs)|
    ensures k < |trs| && trs[k] == SortTrs(trs)[j]
  {
    SortTrsSorted(trs);
    assert SortTrs(trs)[j] in SortTrs(trs);
    k :| 0 <= k < |trs| && trs[k] == SortTrs(trs)[j];
  }

  // ------------------------------------------------ adjacent repetitions

  function Dedup<T(==)>(l: seq<T>): seq<T> {
    if |l| < 2 then l
    else if l[0] == l[1] then Dedup(l[1..])
    else [l[0]] + Dedup(l[1..])
  }

  lemma {:induction false} DedupElements<T>(l: seq<T>)
    ensures forall a :: a in Dedup(l) <==> a in l
  {
    if |l| >= 2 {
      DedupElements(l[1..]);
      assert l == [l[0]] + l[1..];
    }
  }

  predicate LabelsIncreasing<W>(trs: seq<Tr<W>>) {
    forall i, j :: 0 <= i < j < |trs| ==> trs[i].ilabel < trs[j].ilabel
  }

  predicate LabelsDistinct<W>(trs: seq<Tr<W>>) {
    forall i, j :: 0 <= i < j < |trs| ==> trs[i].ilabel != trs[j].ilabel
  }

  /** `unique_trs` on one state. */
  function UniqueTrs<W(==)>(trs: seq<Tr<W>>): seq<Tr<W>> {
    Dedup(SortBy(TrLe, trs))
  }

  /** No label is on two different arcs. */
  ghost predicate OneArcPerLabel<W(!new)>(trs: seq<Tr<W>>) {
    forall a, b :: a in trs && b in trs && a.ilabel == b.ilabel ==> a == b
  }

  lemma ConsIncreasing<W>(tr: Tr<W>, rest: seq<Tr<W>>)
    requires LabelsIncreasing(rest) && forall j :: 0 <= j < |rest| ==> tr.ilabel < rest[j].ilabel
    ensures LabelsIncreasing([tr] + rest)
  {
  }

  lemma FirstIsLeast<W>(l: seq<Tr<W>>, x: Tr<W>)
    requires LabelSorted(l) && x in l
    ensures l[0].ilabel <= x.ilabel
  {
  }

  lemma DedupAt<T(!new)>(l: seq<T>, j: nat)
    requires j < |Dedup(l)|
    ensures Dedup(l)[j] in l
  {
    DedupElements(l);
    assert Dedup(l)[j] in Dedup(l);
  }

  lemma AboveFirst<W(!new)>(l: seq<Tr<W>>)
    requires |l| >= 2 && LabelSorted(l) && l[0].ilabel != l[1].ilabel
    ensures var rest := Dedup(l[1..]); forall j :: 0 <= j < |rest| ==> l[0].ilabel < rest[j].ilabel
  {
    var rest := Dedup(l[1..]);
    forall j | 0 <= j < |rest| ensures l[0].ilabel < rest[j].ilabel {
      DedupAt(l[1..], j);
      FirstIsLeast(l[1..], rest[j]);
    }
  }

  lemma FewIncreasing<W(!new)>(l: seq<Tr<W>>)
    requires |l| < 2
    ensures LabelsIncreasing(l)
  {
  }

  lemma {:induction false} DedupOne<W(!new)>(l: seq<Tr<W>>)
    requires LabelSorted(l) && OneArcPerLabel(l)
    ensures LabelsIncreasing(Dedup(l))
  {
    hide LabelsIncreasing;
    if |l| < 2 {
      FewIncreasing(l);
    } else {
      assert OneArcPerLabel(l[1..]);
      DedupOne(l[1..]);
      if l[0] != l[1] {
        assert l[0] in l && l[1] in l;
        AboveFirst(l);
        ConsIncreasing(l[0], Dedup(l[1..]));
      }
    }
  }

  // ------------------------------------------------ repetitions that stay

  /** `tr_compare` calls the two equal. */
  predicate EqualButWeight<W>(a: Tr<W>, b: Tr<W>) {
    a.ilabel == b.ilabel && a.olabel == b.olabel && a.nextstate == b.nextstate
  }

  /** Two equal arcs with one of another weight between them. */
  predicate Parted<W(==)>(l: seq<Tr<W>>, i: nat, j: nat, k: nat) {
    i < j < k < |l| && l[i] == l[k] && l[j] != l[i] && EqualButWeight(l[j], l[i])
  }

  ghost predicate Interleaved<W>(l: seq<Tr<W>>) {
    exists i: nat, j: nat, k: nat :: Parted(l, i, j, k)
  }

  predicate NoRepeats<T(==)>(l: seq<T>) {
    forall i, j :: 0 <= i < j < |l| ==> l[i] != l[j]
  }

  /** The arcs that `tr_compare` cannot tell from `x`, in order. */
  function Alikes<W>(x: Tr<W>, l: seq<Tr<W>>): seq<Tr<W>> {
    if l == [] then [] else (if EqualButWeight(l[0], x) then [l[0]] else []) + Alikes(x, l[1..])
  }

  /** Inserting in front of what is not less keeps the order of arcs that compare equal. */
  lemma {:induction false} InsertStable<W>(x: Tr<W>, tr: Tr<W>, l: seq<Tr<W>>)
    ensures Alikes(x, Insert(TrLe, tr, l)) == Alikes(x, [tr] + l)
  {
    assert ([tr] + l)[1..] == l;
    if l != [] && !TrLe(tr, l[0]) {
      InsertStable(x, tr, l[1..]);
      var r := Insert(TrLe, tr, l[1..]);
      assert ([l[0]] + r)[1..] == r;
      assert ([tr] + l[1..])[1..] == l[1..];
    }
  }

  lemma {:induction false} SortStable<W>(x: Tr<W>, l: seq<Tr<W>>)
    ensures Alikes(x, SortBy(TrLe, l)) == Alikes(x, l)
  {
    if l != [] {
      SortStable(x, l[1..]);
      var r := SortBy(TrLe, l[1..]);
      InsertStable(x, l[0], r);
      assert ([l[0]] + r)[1..] == r;
    }
  }

  /** How many of the first `i` arcs are like `x`. */
  function AlikesBefore<W>(x: Tr<W>, l: seq<Tr<W>>, i: nat): nat
    requires i <= |l|
  {
    if i == 0 then 0 else (if EqualButWeight(l[0], x) then 1 else 0) + AlikesBefore(x, l[1..], i - 1)
  }

  lemma {:induction false} AlikeAt<W>(x: Tr<W>, l: seq<Tr<W>>, i: nat)
    requires i < |l| && EqualButWeight(l[i], x)
    ensures AlikesBefore(x, l, i) < |Alikes(x, l)| && Alikes(x, l)[AlikesBefore(x, l, i)] == l[i]
  {
    if i > 0 {
      AlikeAt(x, l[1..], i - 1);
    }
  }

  lemma {:induction false} BeforeGrows<W>(x: Tr<W>, l: seq<Tr<W>>, i: nat, j: nat)
    requires i < j <= |l| && EqualButWeight(l[i], x)
    ensures AlikesBefore(x, l, i) < AlikesBefore(x, l, j)
  {
    if i > 0 {
      BeforeGrows(x, l[1..], i - 1, j - 1);
    }
  }

  /** The place of the `p`-th arc like `x`. */
  function AlikeIndex<W>(x: Tr<W>, l: seq<Tr<W>>, p: nat): (i: nat)
    requires p < |Alikes(x, l)|
    ensures i < |l| && l[i] == Alikes(x, l)[p] && EqualButWeight(l[i], x)
  {
    if !EqualButWeight(l[0], x) then 1 + AlikeIndex(x, l[1..], p)
    else if p == 0 then 0
    else 1 + AlikeIndex(x, l[1..], p - 1)
  }

  lemma {:induction false} IndexGrows<W>(x: Tr<W>, l: seq<Tr<W>>, p: nat, q: nat)
    requires p < q < |Alikes(x, l)|
    ensures AlikeIndex(x, l, p) < AlikeIndex(x, l, q)
  {
    if !EqualButWeight(l[0], x) {
      IndexGrows(x, l[1..], p, q);
    } else if p > 0 {
      IndexGrows(x, l[1..], p - 1, q - 1);
    }
  }

  /** Whether repetitions are parted depends only on the order among arcs that compare equal. */
  lemma InterleavedMoves<W>(l: seq<Tr<W>>, r: seq<Tr<W>>)
    requires Interleaved(l) && forall x :: Alikes(x, l) == Alikes(x, r)
    ensures Interleaved(r)
  {
    var i: nat, j: nat, k: nat :| Parted(l, i, j, k);
    var x := l[i];
    AlikeAt(x, l, i);
    AlikeAt(x, l, j);
    AlikeAt(x, l, k);
    BeforeGrows(x, l, i, j);
    BeforeGrows(x, l, j, k);
    var p, q, s := AlikesBefore(x, l, i), AlikesBefore(x, l, j), AlikesBefore(x, l, k);
    IndexGrows(x, r, p, q);
    IndexGrows(x, r, q, s);
    assert Parted(r, AlikeIndex(x, r, p), AlikeIndex(x, r, q), AlikeIndex(x, r, s));
  }

  lemma {:induction false} DedupParted<W(!new)>(l: seq<Tr<W>>)
    requires Sorted(TrLe, l)
    ensures NoRepeats(Dedup(l)) <==> !Interleaved(l)
  {
    if |l| >= 2 {
      var tail := l[1..];
      DedupParted(tail);
      InterleavedTail(l);
      if l[0] != l[1] {
        DedupElements(tail);
        NoRepeatsCons(l[0], Dedup(tail));
      }
    }
  }

  lemma NoRepeatsCons<T(!new)>(a: T, l: seq<T>)
    ensures NoRepeats([a] + l) <==> NoRepeats(l) && a !in l
  {
    var r := [a] + l;
    assert r[1..] == l && r[0] == a;
    if NoRepeats(r) {
      forall i, j | 0 <= i < j < |l| ensures l[i] != l[j] {
        assert r[i+1] != r[j+1];
      }
      forall i | 0 <= i < |l| ensures l[i] != a {
        assert r[0] != r[i+1];
      }
    }
  }

  /** Dropping the first arc only matters if it comes back after another one. */
  lemma InterleavedTail<W(!new)>(l: seq<Tr<W>>)
    requires Sorted(TrLe, l) && |l| >= 2
    ensures Interleaved(l) <==> Interleaved(l[1..]) || (l[0] != l[1] && l[0] in l[1..])
  {
    var tail := l[1..];
    if Interleaved(l) {
      var i: nat, j: nat, k: nat :| Parted(l, i, j, k);
      if i > 0 {
        assert Parted(tail, i - 1, j - 1, k - 1);
      } else if l[0] != l[1] {
        assert tail[k-1] == l[0];
      } else {
        assert Parted(tail, 0, j - 1, k - 1);
      }
    }
    if Interleaved(tail) {
      var i: nat, j: nat, k: nat :| Parted(tail, i, j, k);
      assert Parted(l, i + 1, j + 1, k + 1);
    }
    if l[0] != l[1] && l[0] in tail {
      var m :| 0 <= m < |tail| && tail[m] == l[0];
      assert l[m+1] == l[0] && TrLe(l[0], l[1]) && TrLe(l[1], l[m+1]);
      assert Parted(l, 0, 1, m + 1);
    }
  }

  /** After `unique_trs` no arc is there twice, exactly when no repetition was parted from the first
      by an arc that differs from it in weight alone. */
  lemma UniqueTrsDistinct<W(!new)>(trs: seq<Tr<W>>)
    ensures NoRepeats(UniqueTrs(trs)) <==> !Interleaved(trs)
  {
    var sorted := SortBy(TrLe, trs);
    SortBySorted(TrLe, trs);
    DedupParted(sorted);
    forall x ensures Alikes(x, sorted) == Alikes(x, trs) {
      SortStable(x, trs);
    }
    if Interleaved(sorted) {
      InterleavedMoves(sorted, trs);
    }
    if Interleaved(trs) {
      InterleavedMoves(trs, sorted);
    }
  }

  /** Three arcs, the first and the last equal, all of which stay. */
  lemma RepetitionStays<W>(a: Tr<W>, b: Tr<W>)
    requires EqualButWeight(a, b) && a.weight != b.weight
    ensures UniqueTrs([a, b, a]) == [a, b, a] && Interleaved([a, b, a])
  {
    var l := [a, b, a];
    assert l[1..] == [b, a] && [b, a][1..] == [a] && [a][1..] == [];
    assert SortBy(TrLe, [a]) == [a];
    assert SortBy(TrLe, [b, a]) == [b, a];
    assert SortBy(TrLe, l) == l;
    assert Dedup([b, a]) == [b, a];
    assert Parted(l, 0, 1, 2);
  }

  /** `unique_trs` keeps the same arcs; they end up with distinct labels exactly when
      no label was on two different arcs. */
  lemma UniqueTrsExact<W(!new)>(trs: seq<Tr<W>>)
    ensures forall x :: x in UniqueTrs(trs) <==> x in trs
    ensures LabelsIncreasing(UniqueTrs(trs)) <==> OneArcPerLabel(trs)
    ensures LabelsDistinct(UniqueTrs(trs)) <==> OneArcPerLabel(trs)
  {
    var sorted, u := SortBy(TrLe, trs), UniqueTrs(trs);
    assert forall a: Tr<W>, b: Tr<W> :: TrLe(a, b) || TrLe(b, a);
    SortBySorted(TrLe, trs);
    DedupElements(sorted);
    if LabelsDistinct(u) {
      forall a, b | a in trs && b in trs && a.ilabel == b.ilabel ensures a == b {
        assert a in u && b in u;
      }
    }
    if OneArcPerLabel(trs) {
      forall i, j | 0 <= i < j < |sorted| ensures sorted[i].ilabel <= sorted[j].ilabel {
        assert TrLe(sorted[i], sorted[j]);
      }
      DedupOne(sorted);
    }
  }
}
