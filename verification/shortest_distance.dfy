/** `ShortestDistanceState`: distances from a source under any queue discipline, with buffers
    that may be retained from one source to the next. */
module ShortestDistances {
  import opened Fsts
  import opened Relaxations
  import opened Reverses
  import opened Weights

  // ------------------------------------------------ the pending weights

  ghost function Dirty(r: seq<Weight>): set<nat> {
    set v: nat | v < |r| && r[v].Fin?
  }

  /** `r[v]` is what `v` still has to pass on: nothing, or its whole distance, and then it is queued. */
  ghost predicate Pending(d: seq<Weight>, r: seq<Weight>, queue: multiset<nat>) {
    |r| == |d| && forall v :: 0 <= v < |r| ==> r[v] == ZERO || (r[v] == d[v] && v in queue)
  }

  ghost predicate Distances(f: Fst<Weight>, source: nat, d: seq<Weight>, r: seq<Weight>, queue: multiset<nat>) {
    Estimates(f, source, d, Dirty(r)) && Pending(d, r, queue) && forall v :: v in queue ==> v < |f.states|
  }

  /** While state `s` passes on the weight `w0` along its first `i` arcs; with nothing to pass on it stays clean. */
  ghost predicate PassingOn(f: Fst<Weight>, source: nat, d: seq<Weight>, r: seq<Weight>, queue: multiset<nat>, s: nat,
                            w0: Weight, i: nat) {
    && Scanning(f, source, d, Dirty(r), s, i) && Pending(d, r, queue) && (forall v :: v in queue ==> v < |f.states|)
    && if w0 == ZERO then Estimates(f, source, d, Dirty(r)) else w0 == d[s]
  }

  lemma StartPassing(f: Fst<Weight>, source: nat, d: seq<Weight>, r: seq<Weight>, queue: multiset<nat>, s: nat)
    requires Distances(f, source, d, r, queue) && s in queue
    ensures s < |r| && PassingOn(f, source, d, r[s := ZERO], queue - multiset{s}, s, r[s], 0)
  {
    assert Dirty(r[s := ZERO]) == Dirty(r) - {s};
    StartScan(f, source, d, Dirty(r), s);
    if r[s] == ZERO {
      assert Dirty(r) - {s} == Dirty(r);
    }
  }

  /** One arc: the target takes over a better weight and is queued; nothing else changes. */
  lemma PassArc(f: Fst<Weight>, source: nat, d: seq<Weight>, r: seq<Weight>, queue: multiset<nat>, s: nat, w0: Weight,
                i: nat)
    requires WellFormed(f) && NonNegativeArcs(f) && PassingOn(f, source, d, r, queue, s, w0, i) && s < |f.states|
             && i < |f.states[s].trs|
    ensures |d| == |r| == |f.states| && f.states[s].trs[i].nextstate < |d|
    ensures var tr := f.states[s].trs[i]; var t := tr.nextstate; var w := Times(w0, tr.weight);
            if Leq(d[t], w) then PassingOn(f, source, d, r, queue, s, w0, i + 1)
            else t != s && Plus(r[t], w) == w && NonNegative(d[t]) && w.Fin? && w.v >= 0
                 && PassingOn(f, source, d[t := w], r[t := w], queue + multiset{t}, s, w0, i + 1)
  {
    var tr := f.states[s].trs[i];
    var t, w := tr.nextstate, Times(w0, tr.weight);
    if w0 == ZERO {
      assert Relaxed(f, d, s, i);
    } else {
      ScanArc(f, source, d, Dirty(r), s, i);
      if !Leq(d[t], w) {
        assert Dirty(r[t := w]) == Dirty(r) + {t};
      }
    }
  }

  lemma QueueBelow(f: Fst<Weight>, source: nat, d: seq<Weight>, r: seq<Weight>, queue: multiset<nat>)
    requires Distances(f, source, d, r, queue)
    ensures forall v :: v in queue ==> v < |f.states|
  {
  }

  lemma EndPassing(f: Fst<Weight>, source: nat, d: seq<Weight>, r: seq<Weight>, queue: multiset<nat>, s: nat,
                   w0: Weight)
    requires s < |f.states| && PassingOn(f, source, d, r, queue, s, w0, |f.states[s].trs|)
    ensures Distances(f, source, d, r, queue)
  {
    EndScan(f, source, d, Dirty(r), s);
  }

  lemma AllPassed(f: Fst<Weight>, source: nat, d: seq<Weight>, r: seq<Weight>)
    requires Distances(f, source, d, r, multiset{})
    ensures |d| == |f.states| && forall v :: 0 <= v < |d| ==> IsDistance(f, source, v, d[v])
  {
    assert Dirty(r) == {};
    EstimatesExact(f, source, d);
  }

  // ------------------------------------------------ the buffers

  /** The buffers only grow, and no further than `n`. */
  predicate Grew(was: nat, now: nat, n: nat) {
    was <= now && (now <= n || now == was)
  }

  class ShortestDistanceState {
    var distance: seq<Weight>
    var adder: seq<Weight>
    var radder: seq<Weight>
    var enqueued: seq<bool>
    var sources: seq<Option<nat>>
    var sourceId: nat
    var queue: multiset<nat>
    const retain: bool

    /** Entry `v` belongs to the pass under way. */
    predicate Current(v: nat)
      reads this
    {
      v < |distance| && (retain ==> v < |sources| && sources[v] == Some(sourceId))
    }

    /** What the buffers say of the first `n` states in this pass; stale and missing entries are infinite. */
    ghost function View(n: nat): (d: seq<Weight>)
      reads this
      ensures |d| == n && forall v :: 0 <= v < n ==> d[v] == if Current(v) then distance[v] else ZERO
    {
      seq(n, v requires 0 <= v < n reads this => if Current(v) then distance[v] else ZERO)
    }

    ghost function PendingView(n: nat): (r: seq<Weight>)
      reads this
      requires |radder| == |distance|
      ensures |r| == n && forall v :: 0 <= v < n ==> r[v] == if Current(v) then radder[v] else ZERO
    {
      seq(n, v requires 0 <= v < n && |radder| == |distance| reads this => if Current(v) then radder[v] else ZERO)
    }

    ghost predicate Sized()
      reads this
    {
      && |distance| == |adder| == |radder| == |enqueued|
      && (forall v :: 0 <= v < |distance| && Current(v) ==> adder[v] == distance[v])
      && forall v :: 0 <= v < |sources| && sources[v].Some? ==> sources[v].value <= sourceId
    }

    /** Between two passes: no entry carries the stamp of the next one. */
    ghost predicate Valid()
      reads this
    {
      && |distance| == |adder| == |radder| == |enqueued|
      && forall v :: 0 <= v < |sources| && sources[v].Some? ==> sources[v].value < sourceId
    }

    constructor (retain: bool)
      ensures Valid() && this.retain == retain && distance == [] && sourceId == 0
    {
      this.retain := retain;
      distance, adder, radder, enqueued, sources, sourceId, queue := [], [], [], [], [], 0, multiset{};
    }

    method EnsureIndex(v: nat)
      requires Sized()
      modifies this`distance, this`adder, this`radder, this`enqueued
      ensures Sized() && v < |distance| && |old(distance)| <= |distance|
              && (|distance| <= v + 1 || distance == old(distance))
      ensures forall x: nat :: x < |old(distance)| ==>
                Current(x) == old(Current(x)) && distance[x] == old(distance[x])
                && radder[x] == old(radder[x]) && enqueued[x] == old(enqueued[x])
      ensures forall x: nat :: |old(distance)| <= x < |distance| ==> distance[x] == radder[x] == ZERO && !enqueued[x]
    {
      while |distance| <= v
        invariant Sized() && |old(distance)| <= |distance| && (|distance| <= v + 1 || distance == old(distance))
        invariant forall x: nat :: x < |old(distance)| ==>
            distance[x] == old(distance[x]) && radder[x] == old(radder[x]) && enqueued[x] == old(enqueued[x])
        invariant forall x: nat :: |old(distance)| <= x < |distance| ==>
            distance[x] == radder[x] == adder[x] == ZERO && !enqueued[x]
      {
        distance, adder, radder, enqueued := distance + [ZERO], adder + [ZERO], radder + [ZERO], enqueued + [false];
      }
    }

    method EnsureSourcesIndex(v: nat)
      requires Sized()
      modifies this`sources
      ensures Sized() && v < |sources| && (forall x: nat :: Current(x) <==> old(Current(x)))
    {
      while |sources| <= v
        invariant Sized() && forall x: nat :: Current(x) <==> old(Current(x))
      {
        sources := sources + [None];
      }
    }

    /** Grows the buffers past `v`; nothing is seen to change. */
    method Extend(v: nat, ghost n: nat)
      requires Sized()
      modifies this`distance, this`adder, this`radder, this`enqueued, this`sources
      ensures Sized() && v < |distance| && Grew(|old(distance)|, |distance|, v + 1) && (retain ==> v < |sources|)
      ensures View(n) == old(View(n)) && PendingView(n) == old(PendingView(n))
      ensures forall x: nat :: x < |old(distance)| ==> enqueued[x] == old(enqueued[x])
      ensures forall x: nat :: old(Current(x)) ==> Current(x)
    {
      EnsureIndex(v);
      assert View(n) == old(View(n)) && PendingView(n) == old(PendingView(n));
      if retain {
        EnsureSourcesIndex(v);
      }
    }

    /** Makes entry `v` current, wiping what an earlier pass left there; nothing is seen to change. */
    method Touch(v: nat, ghost n: nat)
      requires Sized()
      modifies this`distance, this`adder, this`radder, this`enqueued, this`sources
      ensures Sized() && Current(v) && Grew(|old(distance)|, |distance|, v + 1)
      ensures View(n) == old(View(n)) && PendingView(n) == old(PendingView(n))
      ensures forall x: nat :: x < |old(distance)| && enqueued[x] ==> old(enqueued[x])
      ensures forall x: nat :: old(Current(x)) ==> Current(x)
    {
      Extend(v, n);
      if retain {
        if sources[v] != Some(sourceId) {
          distance, adder, radder, enqueued := distance[v := ZERO], adder[v := ZERO], radder[v := ZERO],
            enqueued[v := false];
          sources := sources[v := Some(sourceId)];
        }
      }
    }

    /** One arc of the dequeued state `s`, which passes on the weight `r`. */
    method RelaxArc(s: nat, r: Weight, tr: Tr<Weight>, ghost n: nat)
      requires Sized() && s < |enqueued| && !enqueued[s] && tr.nextstate < n
      modifies this`distance, this`adder, this`radder, this`enqueued, this`sources, this`queue
      ensures Sized() && Current(tr.nextstate) && Grew(|old(distance)|, |distance|, n) &&
           forall x: nat :: old(Current(x)) ==> Current(x)
      ensures var t := tr.nextstate; var w := Times(r, tr.weight); var d, p := old(View(n)), old(PendingView(n));
              if Leq(d[t], w) then View(n) == d && PendingView(n) == p && queue == old(queue) && !enqueued[s]
              else View(n) == d[t := w] && PendingView(n) == p[t := Plus(p[t], w)] && queue == old(queue) + multiset{t}
                       && (t != s ==> !enqueued[s])
    {
      var t := tr.nextstate;
      Touch(t, n);
      var weight := Times(r, tr.weight);
      assert View(n)[t] == distance[t] && PendingView(n)[t] == radder[t];
      if distance[t] != Plus(distance[t], weight) {
        PutLower(s, t, weight, n);
      }
    }

    /** Lowers the entry of `t` and puts it on the queue, by the test that the source makes of `s`. */
    method PutLower(s: nat, t: nat, weight: Weight, ghost n: nat)
      requires Sized() && Current(t) && t < n && s < |enqueued| && !enqueued[s] && !Leq(distance[t], weight)
      modifies this`distance, this`adder, this`radder, this`enqueued, this`queue
      ensures Sized() && |distance| == |old(distance)| && (forall x: nat :: Current(x) == old(Current(x)))
      ensures View(n) == old(View(n))[t := weight]
      ensures PendingView(n) == old(PendingView(n))[t := Plus(old(PendingView(n))[t], weight)]
      ensures queue == old(queue) + multiset{t} && (t != s ==> !enqueued[s])
    {
      adder := adder[t := Plus(adder[t], weight)];
      distance := distance[t := adder[t]];
      radder := radder[t := Plus(radder[t], weight)];
      if !enqueued[s] {
        queue := queue + multiset{t};
        enqueued := enqueued[t := true];
      }
    }

    ghost predicate QueueCurrent()
      reads this
    {
      forall v :: v in queue ==> Current(v)
    }

    /** Passes the weight `r` of the dequeued state `s` on along its arcs. */
    method PassAll(src: nat, f: Fst<Weight>, s: nat, r: Weight)
      requires Sized() && QueueCurrent() && WellFormed(f) && NonNegativeArcs(f) && s < |f.states| && s < |enqueued|
               && !enqueued[s]
      requires PassingOn(f, src, View(|f.states|), PendingView(|f.states|), queue, s, r, 0)
      modifies this`distance, this`adder, this`radder, this`enqueued, this`sources, this`queue
      ensures Sized() && QueueCurrent()
      ensures PassingOn(f, src, View(|f.states|), PendingView(|f.states|), queue, s, r, |f.states[s].trs|)
      ensures Progressed(old(View(|f.states|)), old(queue), View(|f.states|), queue)
      ensures Grew(|old(distance)|, |distance|, |f.states|)
    {
      ghost var n := |f.states|;
      hide PassingOn, NonNegativeArcs, Unreached, SumOf;
      for i := 0 to |f.states[s].trs|
        invariant Sized() && QueueCurrent() && s < |enqueued| && !enqueued[s] && Grew(|old(distance)|, |distance|, n)
        invariant PassingOn(f, src, View(n), PendingView(n), queue, s, r, i)
        invariant Progressed(old(View(n)), old(queue), View(n), queue)
      {
        var tr := f.states[s].trs[i];
        ghost var d, t, w := View(n), tr.nextstate, Times(r, tr.weight);
        PassArc(f, src, d, PendingView(n), queue, s, r, i);
        if !Leq(d[t], w) {
          Improvement(d, t, w);
        }
        RelaxArc(s, r, tr, n);
      }
    }

    /** Entry `s` is off the queue, with nothing left to pass on. */
    method TakeEntry(s: nat, ghost n: nat)
      requires Sized() && Current(s) && s < n
      modifies this`enqueued, this`radder
      ensures Sized() && !enqueued[s] && (forall x: nat :: Current(x) == old(Current(x)))
      ensures View(n) == old(View(n)) && PendingView(n) == old(PendingView(n))[s := ZERO]
    {
      ghost var d, p := View(n), PendingView(n);
      enqueued := enqueued[s := false];
      radder := radder[s := ZERO];
      assert View(n) == d;
      assert PendingView(n) == p[s := ZERO];
    }

    lemma PendingAt(v: nat, n: nat)
      requires Sized() && Current(v) && v < n
      ensures PendingView(n)[v] == radder[v]
    {
    }

    /** Takes some queued state and the weight it has to pass on. */
    method Dequeue(ghost n: nat) returns (s: nat, r: Weight)
      requires Sized() && QueueCurrent() && queue != multiset{} && forall v :: v in queue ==> v < n
      modifies this`queue, this`enqueued, this`radder
      ensures Sized() && QueueCurrent() && s in old(queue) && queue == old(queue) - multiset{s} && s < n
              && s < |enqueued| && !enqueued[s]
      ensures View(n) == old(View(n)) && r == old(PendingView(n))[s] && PendingView(n) == old(PendingView(n))[s := ZERO]
    {
      s :| s in queue;
      assert Current(s);
      r := radder[s];
      PendingAt(s, n);
      TakeEntry(s, n);
      queue := queue - multiset{s};
    }

    /** The queue loop. */
    method Drain(src: nat, f: Fst<Weight>)
      requires Sized() && QueueCurrent() && WellFormed(f) && NonNegativeArcs(f)
      requires Distances(f, src, View(|f.states|), PendingView(|f.states|), queue)
      modifies this`distance, this`adder, this`radder, this`enqueued, this`sources, this`queue
      ensures Sized() && queue == multiset{} && Grew(|old(distance)|, |distance|, |f.states|)
      ensures Distances(f, src, View(|f.states|), PendingView(|f.states|), queue)
    {
      ghost var n := |f.states|;
      hide Distances, PassingOn, NonNegativeArcs, Unreached, SumOf;
      while queue != multiset{}
        invariant Sized() && QueueCurrent() && Distances(f, src, View(n), PendingView(n), queue)
                  && Grew(|old(distance)|, |distance|, n)
        decreases Unreached(View(n)), SumOf(View(n)), |queue|
      {
        ghost var d, p, q := View(n), PendingView(n), queue;
        QueueBelow(f, src, d, p, q);
        var s, r := Dequeue(n);
        StartPassing(f, src, d, p, q, s);
        PassAll(src, f, s, r);
        EndPassing(f, src, View(n), PendingView(n), queue, s, r);
      }
    }

    /** Nothing is reached and nothing waits. */
    method Reset(ghost n: nat)
      requires Valid()
      modifies this`queue, this`distance, this`adder, this`radder, this`enqueued
      ensures Sized() && queue == multiset{}
      ensures var none := seq(n, _ => ZERO); View(n) == none && PendingView(n) == none
      ensures if retain then distance == old(distance) else distance == []
    {
      queue := multiset{};
      if !retain {
        distance, adder, radder, enqueued := [], [], [], [];
      }
    }

    /** The source alone is reached and waiting. */
    method Begin(src: nat, ghost n: nat)
      requires Valid() && src < n
      modifies this`queue, this`distance, this`adder, this`radder, this`enqueued, this`sources
      ensures Sized() && QueueCurrent() && queue == multiset{src} && src < |distance|
      ensures Grew(if retain then |old(distance)| else 0, |distance|, n)
      ensures var d := seq(n, _ => ZERO)[src := ONE]; View(n) == d && PendingView(n) == d
    {
      Reset(n);
      Touch(src, n);
      PutSource(src, n);
      queue := multiset{src};
    }

    method PutSource(src: nat, ghost n: nat)
      requires Sized() && Current(src) && src < n
      modifies this`distance, this`adder, this`radder, this`enqueued
      ensures Sized() && Current(src) && src < |distance| == |old(distance)|
      ensures View(n) == old(View(n))[src := ONE] && PendingView(n) == old(PendingView(n))[src := ONE]
    {
      distance, adder, radder, enqueued := distance[src := ONE], adder[src := ONE], radder[src := ONE],
        enqueued[src := true];
    }

    /** A whole pass: every entry it touched holds the exact distance, and the states it did not
        touch are unreachable at finite cost. What earlier passes left behind plays no part. */
    method ShortestDistanceInPlace(source: Option<nat>, f: Fst<Weight>)
      requires Valid() && WellFormed(f) && NonNegativeArcs(f) && (source.Some? ==> source.value < |f.states|)
      modifies this
      ensures Valid()
      ensures f.start.None?
           ==> sourceId == old(sourceId) && (if retain then distance == old(distance) else distance == [])
      ensures f.start.Some?
           ==> sourceId == old(sourceId) + 1 && (if source.Some? then source.value else f.start.value) < |distance|
      ensures f.start.Some? ==> Grew(if retain then |old(distance)| else 0, |distance|, |f.states|)
      ensures f.start.Some? ==> forall v: nat :: v < |f.states| ==>
                IsDistance(f, if source.Some? then source.value else f.start.value, v, Seen(old(sourceId), v))
    {
      if f.start.None? {
        if !retain {
          distance, adder, radder, enqueued := [], [], [], [];
        }
        return;
      }
      var src := if source.Some? then source.value else f.start.value;
      hide Distances, NonNegativeArcs, IsDistance;
      Begin(src, |f.states|);
      StartDistances(f, src);
      Drain(src, f);
      AllPassed(f, src, View(|f.states|), PendingView(|f.states|));
      ghost var d := View(|f.states|);
      sourceId := sourceId + 1;
      assert forall v: nat :: v < |f.states| ==> Seen(old(sourceId), v) == d[v];
    }

    /** What the pass with stamp `id` has to say of state `v`. */
    ghost function Seen(id: nat, v: nat): Weight
      reads this
    {
      if v < |distance| && (retain ==> v < |sources| && sources[v] == Some(id)) then distance[v] else ZERO
    }
  }

  lemma StartDistances(f: Fst<Weight>, src: nat)
    requires WellFormed(f) && src < |f.states|
    ensures var d := seq(|f.states|, _ => ZERO)[src := ONE]; Distances(f, src, d, d, multiset{src})
  {
    var d := seq(|f.states|, _ => ZERO)[src := ONE];
    assert Dirty(d) == {src};
    InitialEstimates(f, src);
  }

  // ------------------------------------------------ both directions

  /** `d` is the least cost of the completions of `v`. */
  ghost predicate IsCompletionDistance(f: Fst<Weight>, v: nat, d: Weight) {
    && (forall p, t, w :: Completes(f, v, p, t, w) ==> Leq(d, w))
    && (d == ZERO || exists p, t :: Completes(f, v, p, t, d))
  }

  function At(distance: seq<Weight>, v: nat): Weight {
    if v < |distance| then distance[v] else ZERO
  }

  lemma ReverseDistance(f: Fst<Weight>, r: Fst<Weight>, v: nat, d: Weight)
    requires WellFormed(f) && IsReverse(f, r) && v < |f.states| && IsDistance(r, 0, v + 1, d)
    ensures IsCompletionDistance(f, v, d)
  {
    forall p, t: nat, w | Completes(f, v, p, t, w) ensures Leq(d, w) {
      var q := CompletionReversed(f, r, v, p, t, w);
    }
    if d != ZERO {
      assert Witnessed(r, 0, v + 1, d);
      var q :| IsPath(r, 0, q, v + 1) && Cost(r, 0, q, v + 1) == d;
      var p, t := CompletionUnreversed(f, r, v, q);
    }
  }

  /** `shortest_distance`: from the start state to every state, or from every state to the final ones. */
  method ShortestDistance(f: Fst<Weight>, reverse: bool) returns (distance: seq<Weight>)
    requires WellFormed(f) && NonNegativeArcs(f) && (reverse ==> NonNegativeFinals(f))
    ensures |distance| <= |f.states| && (!reverse && f.start.None? ==> distance == [])
    ensures !reverse && f.start.Some? ==>
         forall v :: 0 <= v < |f.states| ==> IsDistance(f, f.start.value, v, At(distance, v))
    ensures reverse ==> forall v :: 0 <= v < |f.states| ==> IsCompletionDistance(f, v, At(distance, v))
  {
    var state := new ShortestDistanceState(false);
    if !reverse {
      state.ShortestDistanceInPlace(None, f);
      distance := state.distance;
      assert f.start.Some? ==> forall v: nat :: v < |f.states| ==> state.Seen(0, v) == At(distance, v);
    } else {
      var rfst := Reverse(f);
      ReverseWellFormed(f, rfst);
      state.ShortestDistanceInPlace(None, rfst);
      var rdistance := state.distance;
      distance := [];
      while |distance| < |rdistance| - 1
        invariant |distance| <= |rdistance| - 1 && forall v :: 0 <= v < |distance| ==> distance[v] == rdistance[v+1]
      {
        distance := distance + [rdistance[|distance|+1]];
      }
      forall v: nat | v < |f.states| ensures IsCompletionDistance(f, v, At(distance, v)) {
        assert state.Seen(0, v + 1) == At(distance, v);
        ReverseDistance(f, rfst, v, At(distance, v));
      }
    }
  }
}
