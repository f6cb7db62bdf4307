/** The array-backed partition of `partition.rs`: each class is two doubly
    linked lists threaded through `elements`, the settled "no" list and the
    pending "yes" list of the split under way. */
module Partitions {

  datatype Element = Element(classId: nat, yes: nat, next: int, prev: int)

  datatype Class = Class(size: nat, yesSize: nat, noHead: int, yesHead: int)

  /** Element ids are stored in signed 32-bit links. */
  const MAX_ELEMENTS: nat := 0x7fff_ffff

  // ------------------------------------------------- doubly linked lists

  predicate Distinct(l: seq<nat>) {
    forall i, j :: 0 <= i < j < |l| ==> l[i] != l[j]
  }

  function HeadOf(l: seq<nat>): int {
    if l == [] then -1 else l[0]
  }

  /** The node at position `i` of `l` points at its two neighbours. */
  ghost predicate Linked(els: seq<Element>, l: seq<nat>, i: nat)
    requires i < |l|
  {
    && l[i] < |els|
    && els[l[i]].prev == (if i == 0 then -1 else l[i-1])
    && els[l[i]].next == (if i + 1 == |l| then -1 else l[i+1])
  }

  /** `l` is laid out from `head` through the links of `els`. */
  ghost predicate Dll(els: seq<Element>, head: int, l: seq<nat>) {
    && Distinct(l)
    && head == HeadOf(l)
    && forall i :: 0 <= i < |l| ==> Linked(els, l, i)
  }

  function SetNext(els: seq<Element>, at: int, to: int): seq<Element>
    requires at < |els|
  {
    if at >= 0 then els[at := els[at].(next := to)] else els
  }

  function SetPrev(els: seq<Element>, at: int, to: int): seq<Element>
    requires at < |els|
  {
    if at >= 0 then els[at := els[at].(prev := to)] else els
  }

  /** `elements` once the neighbours of `e` bypass it. */
  function BypassElements(els: seq<Element>, e: nat): (r: seq<Element>)
    requires e < |els| && els[e].prev < |els| && els[e].next < |els|
  {
    SetPrev(SetNext(els, els[e].prev, els[e].next), els[e].next, els[e].prev)
  }

  /** The class of `o` once its "no" list bypasses `o`. */
  function BypassClass(cl: Class, o: Element): Class {
    cl.(noHead := if o.prev >= 0 then cl.noHead else o.next)
  }

  /** `elements` once `e` heads the "yes" list of its class. */
  function PushYesElements(els: seq<Element>, cl: Class, e: nat, ctr: nat): seq<Element>
    requires e < |els| && cl.yesHead < |els|
  {
    SetPrev(els, cl.yesHead, e)[e := Element(els[e].classId, ctr, cl.yesHead, -1)]
  }

  function PushYesClass(cl: Class, e: nat): Class {
    cl.(yesHead := e, yesSize := cl.yesSize + 1)
  }

  function Without(l: seq<nat>, k: nat): seq<nat>
    requires k < |l|
  {
    l[..k] + l[k+1..]
  }

  /** Bypassing the k-th node leaves the list without it and touches nothing else. */
  lemma UnlinkDll(els: seq<Element>, head: int, l: seq<nat>, k: nat) returns (els': seq<Element>)
    requires Dll(els, head, l) && k < |l|
    ensures l[k] < |els| && els[l[k]].prev < |els| && els[l[k]].next < |els|
    ensures els' == BypassElements(els, l[k])
    ensures Dll(els', if els[l[k]].prev >= 0 then head else els[l[k]].next, Without(l, k))
    ensures |els'| == |els|
    ensures forall x :: 0 <= x < |els| ==> els'[x].classId == els[x].classId && els'[x].yes == els[x].yes
    ensures forall x :: 0 <= x < |els| && x !in l ==> els'[x] == els[x]
  {
    assert Linked(els, l, k);
    var e := l[k];
    var p, n := els[e].prev, els[e].next;
    assert k > 0 ==> Linked(els, l, k - 1);
    assert k + 1 < |l| ==> Linked(els, l, k + 1);
    els' := SetPrev(SetNext(els, p, n), n, p);
    var l' := Without(l, k);
    forall i | 0 <= i < |l'| ensures Linked(els', l', i) {
      UnlinkedAt(els, head, l, k, i);
    }
  }

  lemma UnlinkedAt(els: seq<Element>, head: int, l: seq<nat>, k: nat, i: nat)
    requires Dll(els, head, l) && k < |l| && i + 1 < |l| && l[k] < |els| && els[l[k]].prev < |els|
             && els[l[k]].next < |els|
    ensures Linked(BypassElements(els, l[k]), Without(l, k), i)
  {
    var j, l' := if i < k then i else i + 1, Without(l, k);
    assert Linked(els, l, k) && Linked(els, l, j) && l'[i] == l[j];
    assert i > 0 ==> l'[i-1] == l[if i - 1 < k then i - 1 else i];
    assert i + 1 < |l'| ==> l'[i+1] == l[if i + 1 < k then i + 1 else i + 2];
  }

  /** Pushing a fresh node in front. */
  lemma PushDll(els: seq<Element>, head: int, l: seq<nat>, e: nat) returns (els': seq<Element>)
    requires Dll(els, head, l) && e < |els| && e !in l
    ensures head < |els|
    ensures els' == var s := SetPrev(els, head, e); s[e := s[e].(next := head, prev := -1)]
    ensures Dll(els', e, [e] + l)
    ensures |els'| == |els|
    ensures forall x :: 0 <= x < |els| ==> els'[x].classId == els[x].classId && els'[x].yes == els[x].yes
    ensures forall x :: 0 <= x < |els| && x !in l && x != e ==> els'[x] == els[x]
  {
    assert l != [] ==> Linked(els, l, 0);
    var s := SetPrev(els, head, e);
    els' := s[e := s[e].(next := head, prev := -1)];
    var l' := [e] + l;
    forall i | 0 <= i < |l'| ensures Linked(els', l', i) {
      if i > 0 {
        assert l'[i] == l[i-1] && Linked(els, l, i - 1);
      }
    }
  }

  /** A list is untouched by changes outside it. */
  lemma FrameDll(els: seq<Element>, els': seq<Element>, head: int, l: seq<nat>)
    requires Dll(els, head, l) && |els'| >= |els|
    requires forall x :: x in l && x < |els| ==> els'[x].prev == els[x].prev && els'[x].next == els[x].next
    ensures Dll(els', head, l)
  {
    forall i | 0 <= i < |l| ensures Linked(els', l, i) {
      assert Linked(els, l, i);
    }
  }

  // ------------------------------------------------------- the structure

  /** The lists of one class, with the stored heads and sizes. */
  ghost predicate ClassOk(els: seq<Element>, cl: Class, no: seq<nat>, yes: seq<nat>) {
    && Dll(els, cl.noHead, no)
    && Dll(els, cl.yesHead, yes)
    && cl.size == |no| + |yes|
    && cl.yesSize == |yes|
  }

  /** The members of class `c` are placed, carry its id and are on one side only. */
  ghost predicate Owns(els: seq<Element>, added: set<nat>, c: nat, no: seq<nat>, yes: seq<nat>) {
    && (forall x :: x in no ==> x in added && x < |els| && els[x].classId == c && x !in yes)
    && (forall x :: x in yes ==> x in added && x < |els| && els[x].classId == c)
  }

  /** Element `x` is in one of the lists of the class it names. */
  ghost predicate Placed(els: seq<Element>, no: seq<seq<nat>>, yes: seq<seq<nat>>, x: nat)
    requires |no| == |yes|
  {
    x < |els| && els[x].classId < |no| && (x in no[els[x].classId] || x in yes[els[x].classId])
  }

  ghost predicate Shape(els: seq<Element>, classes: seq<Class>, no: seq<seq<nat>>, yes: seq<seq<nat>>,
                        added: set<nat>) {
    && |els| <= MAX_ELEMENTS
    && |no| == |yes| == |classes|
    && (forall c :: 0 <= c < |classes|
         ==> ClassOk(els, classes[c], no[c], yes[c]) && Owns(els, added, c, no[c], yes[c]))
    && (forall x :: x in added ==> Placed(els, no, yes, x))
  }

  /** The representation between two calls: the "yes" stamps agree with the lists. */
  ghost predicate Rep(els: seq<Element>, classes: seq<Class>, no: seq<seq<nat>>, yes: seq<seq<nat>>, added: set<nat>,
                      ctr: nat, visited: seq<nat>)
  {
    && Shape(els, classes, no, yes, added)
    && ctr > 0
    && (forall x :: 0 <= x < |els| ==> els[x].yes <= ctr)
    && (forall x :: x in added ==> Placed(els, no, yes, x) && (x in yes[els[x].classId] <==> els[x].yes == ctr))
    && Distinct(visited)
    && (forall c :: c in visited <==> 0 <= c < |classes| && yes[c] != [])
  }

  /** The elements stamped with the current split. */
  ghost function MarkedIn(els: seq<Element>, added: set<nat>, ctr: nat): set<nat> {
    set x | x in added && x < |els| && els[x].yes == ctr
  }

  /** Replacing class `c` and changing no element of another class. */
  lemma ShapeUpdate(els: seq<Element>, classes: seq<Class>, no: seq<seq<nat>>, yes: seq<seq<nat>>, added: set<nat>,
                    els': seq<Element>, c: nat, cl: Class, noC: seq<nat>, yesC: seq<nat>, added': set<nat>)
    requires Shape(els, classes, no, yes, added) && c < |classes| && |els'| == |els|
    requires ClassOk(els', cl, noC, yesC) && Owns(els', added', c, noC, yesC)
    requires forall x :: x in added && els[x].classId != c ==>
               x in added' && els'[x].prev == els[x].prev && els'[x].next == els[x].next
                 && els'[x].classId == els[x].classId
    requires forall x :: x in added' && (x in added ==> els[x].classId == c)
                         ==> x < |els| && els'[x].classId == c && (x in noC || x in yesC)
    ensures Shape(els', classes[c := cl], no[c := noC], yes[c := yesC], added')
  {
    forall d | 0 <= d < |classes| && d != c
      ensures ClassOk(els', classes[d], no[d], yes[d]) && Owns(els', added', d, no[d], yes[d])
    {
      assert ClassOk(els, classes[d], no[d], yes[d]) && Owns(els, added, d, no[d], yes[d]);
      FrameDll(els, els', classes[d].noHead, no[d]);
      FrameDll(els, els', classes[d].yesHead, yes[d]);
    }
    forall x | x in added' ensures Placed(els', no[c := noC], yes[c := yesC], x) {
      if x in added && els[x].classId != c {
        assert Placed(els, no, yes, x);
      }
    }
  }

  /** Placing a fresh element in front of the "no" list of class `c`. */
  lemma AddRep(els: seq<Element>, classes: seq<Class>, no: seq<seq<nat>>, yes: seq<seq<nat>>, added: set<nat>,
               ctr: nat, visited: seq<nat>, e: nat, c: nat)
    returns (els': seq<Element>)
    requires Rep(els, classes, no, yes, added, ctr, visited) && e < |els| && e !in added && c < |classes|
    ensures classes[c].noHead < |els|
    ensures els' == SetPrev(els, classes[c].noHead, e)[e := Element(c, 0, classes[c].noHead, -1)]
    ensures Rep(els', classes[c := classes[c].(size := classes[c].size + 1, noHead := e)],
                no[c := [e] + no[c]], yes, added + {e}, ctr, visited)
    ensures |els'| == |els| && els'[e].yes == 0 && els'[e].classId == c
    ensures MarkedIn(els', added + {e}, ctr) == MarkedIn(els, added, ctr)
    ensures forall x :: 0 <= x < |els| && x != e ==> els'[x].classId == els[x].classId && els'[x].yes == els[x].yes
  {
    assert ClassOk(els, classes[c], no[c], yes[c]) && Owns(els, added, c, no[c], yes[c]);
    var pushed := PushDll(els, classes[c].noHead, no[c], e);
    els' := pushed[e := Element(c, 0, classes[c].noHead, -1)];
    FrameDll(pushed, els', e, [e] + no[c]);
    FrameDll(els, els', classes[c].yesHead, yes[c]);
    assert yes[c := yes[c]] == yes;
    ShapeUpdate(els, classes, no, yes, added, els', c, classes[c].(size := classes[c].size + 1, noHead := e),
                [e] + no[c], yes[c], added + {e});
  }

  /** Taking an element out of the "no" list of its class. */
  lemma RemoveShape(els: seq<Element>, classes: seq<Class>, no: seq<seq<nat>>, yes: seq<seq<nat>>, added: set<nat>,
                    e: nat)
    returns (els': seq<Element>, cl: Class, k: nat)
    requires Shape(els, classes, no, yes, added) && e in added && Placed(els, no, yes, e) && e in no[els[e].classId]
    ensures els[e].prev < |els| && els[e].next < |els|
    ensures els' == BypassElements(els, e)
    ensures var c := els[e].classId;
            && classes[c].size > 0
            && cl == BypassClass(classes[c].(size := classes[c].size - 1), els[e])
            && k < |no[c]| && no[c][k] == e && e !in Without(no[c], k)
            && Shape(els', classes[c := cl], no[c := Without(no[c], k)], yes, added - {e})
            && (forall x :: x in Without(no[c], k) <==> x in no[c] && x != e)
    ensures |els'| == |els|
    ensures forall x :: 0 <= x < |els| ==> els'[x].classId == els[x].classId && els'[x].yes == els[x].yes
  {
    assert Placed(els, no, yes, e);
    var c := els[e].classId;
    assert ClassOk(els, classes[c], no[c], yes[c]) && Owns(els, added, c, no[c], yes[c]);
    k :| 0 <= k < |no[c]| && no[c][k] == e;
    els' := UnlinkDll(els, classes[c].noHead, no[c], k);
    cl := BypassClass(classes[c].(size := classes[c].size - 1), els[e]);
    var l := Without(no[c], k);
    assert forall x :: x in l <==> x in no[c] && x != e by {
      forall i | 0 <= i < |no[c]| && i != k ensures no[c][i] in l {
        assert no[c][i] == l[if i < k then i else i - 1];
      }
    }
    FrameDll(els, els', classes[c].yesHead, yes[c]);
    assert yes[c := yes[c]] == yes;
    ShapeUpdate(els, classes, no, yes, added, els', c, cl, l, yes[c], added - {e});
  }

  /** Moving an element from the "no" list of its class to the front of the "yes" list. */
  lemma SplitOnShape(els: seq<Element>, classes: seq<Class>, no: seq<seq<nat>>, yes: seq<seq<nat>>, added: set<nat>,
                     e: nat, ctr: nat)
    returns (els': seq<Element>, cl: Class, k: nat)
    requires Shape(els, classes, no, yes, added) && e in added && Placed(els, no, yes, e) && e in no[els[e].classId]
    ensures els[e].prev < |els| && els[e].next < |els| && classes[els[e].classId].yesHead < |els|
    ensures var c := els[e].classId; var yh := classes[c].yesHead;
            && els' == PushYesElements(BypassElements(els, e), classes[c], e, ctr)
            && cl == PushYesClass(BypassClass(classes[c], els[e]), e)
            && k < |no[c]| && no[c][k] == e
            && Shape(els', classes[c := cl], no[c := Without(no[c], k)], yes[c := [e] + yes[c]], added)
            && (forall x :: x in Without(no[c], k) <==> x in no[c] && x != e)
            && (yh < 0 <==> yes[c] == [])
    ensures |els'| == |els| && els'[e].yes == ctr && els'[e].classId == els[e].classId
    ensures forall x :: 0 <= x < |els| && x != e ==> els'[x].classId == els[x].classId && els'[x].yes == els[x].yes
  {
    assert Placed(els, no, yes, e);
    var c := els[e].classId;
    assert ClassOk(els, classes[c], no[c], yes[c]) && Owns(els, added, c, no[c], yes[c]);
    var un, cl0, k0 := RemoveShape(els, classes, no, yes, added, e);
    k := k0;
    var yh := classes[c].yesHead;
    var l := Without(no[c], k);
    var classes0, no0 := classes[c := cl0], no[c := l];
    assert ClassOk(un, classes0[c], no0[c], yes[c]) && Owns(un, added - {e}, c, no0[c], yes[c]);
    var pushed := PushDll(un, yh, yes[c], e);
    els' := pushed[e := Element(c, ctr, yh, -1)];
    cl := classes[c].(noHead := cl0.noHead, yesHead := e, yesSize := classes[c].yesSize + 1);
    FrameDll(pushed, els', e, [e] + yes[c]);
    FrameDll(un, els', cl.noHead, l);
    assert classes0[c := cl] == classes[c := cl] && no0[c := l] == no[c := l];
    forall x | x in added && (x in added - {e} ==> un[x].classId == c)
      ensures els'[x].classId == c && (x in l || x in [e] + yes[c])
    {
      if x != e {
        assert Placed(un, no0, yes, x);
      }
    }
    ShapeUpdate(un, classes0, no0, yes, added - {e}, els', c, cl, l, [e] + yes[c], added);
  }

  lemma RemoveRep(els: seq<Element>, classes: seq<Class>, no: seq<seq<nat>>, yes: seq<seq<nat>>, added: set<nat>,
                  ctr: nat, visited: seq<nat>, e: nat)
    returns (els': seq<Element>, cl: Class, k: nat)
    requires Rep(els, classes, no, yes, added, ctr, visited) && e in added && els[e].yes != ctr
    ensures e < |els| && els[e].classId < |classes| && els[e].prev < |els| && els[e].next < |els|
    ensures els' == BypassElements(els, e)
    ensures classes[els[e].classId].size > 0 && k < |no[els[e].classId]|
    ensures var c := els[e].classId;
            && cl == BypassClass(classes[c].(size := classes[c].size - 1), els[e])
            && Rep(els', classes[c := cl], no[c := Without(no[c], k)], yes, added - {e}, ctr, visited)
    ensures |els'| == |els|
    ensures forall x :: 0 <= x < |els| ==> els'[x].classId == els[x].classId && els'[x].yes == els[x].yes
  {
    assert Placed(els, no, yes, e);
    els', cl, k := RemoveShape(els, classes, no, yes, added, e);
    var no' := no[els[e].classId := Without(no[els[e].classId], k)];
    forall x | x in added - {e}
      ensures Placed(els', no', yes, x) && (x in yes[els'[x].classId] <==> els'[x].yes == ctr)
    {
      assert Placed(els, no, yes, x);
    }
  }

  lemma MemberBelow(els: seq<Element>, classes: seq<Class>, no: seq<seq<nat>>, yes: seq<seq<nat>>, added: set<nat>,
                    ctr: nat, visited: seq<nat>, e: nat)
    requires Rep(els, classes, no, yes, added, ctr, visited) && e in added
    ensures e < |els|
  {
    assert Placed(els, no, yes, e);
  }

  lemma SplitOnRep(els: seq<Element>, classes: seq<Class>, no: seq<seq<nat>>, yes: seq<seq<nat>>, added: set<nat>,
                   ctr: nat, visited: seq<nat>, e: nat)
    returns (els': seq<Element>, cl: Class, k: nat)
    requires Rep(els, classes, no, yes, added, ctr, visited) && e in added && e < |els| && els[e].yes != ctr
    ensures els[e].classId < |classes| == |no| == |yes| && els[e].prev < |els| && els[e].next < |els|
            && classes[els[e].classId].yesHead < |els|
    ensures k < |no[els[e].classId]|
    ensures var c := els[e].classId; var yh := classes[c].yesHead;
            && els' == PushYesElements(BypassElements(els, e), classes[c], e, ctr)
            && cl == PushYesClass(BypassClass(classes[c], els[e]), e)
            && Rep(els', classes[c := BypassClass(classes[c], els[e])][c := cl], no[c := Without(no[c], k)],
                   yes[c := [e] + yes[c]], added, ctr,
                   if yh >= 0 then visited else visited + [c])
    ensures |els'| == |els| && els'[e].yes == ctr && els'[e].classId == els[e].classId
    ensures MarkedIn(els', added, ctr) == MarkedIn(els, added, ctr) + {e}
    ensures forall x :: 0 <= x < |els| && x != e ==> els'[x].classId == els[x].classId && els'[x].yes == els[x].yes
  {
    assert Placed(els, no, yes, e);
    els', cl, k := SplitOnShape(els, classes, no, yes, added, e, ctr);
    var c := els[e].classId;
    assert classes[c := BypassClass(classes[c], els[e])][c := cl] == classes[c := cl];
    var no', yes' := no[c := Without(no[c], k)], yes[c := [e] + yes[c]];
    forall x | x in added
      ensures Placed(els', no', yes', x) && (x in yes'[els'[x].classId] <==> els'[x].yes == ctr)
    {
      assert Placed(els, no, yes, x);
    }
  }

  /** `els` with the listed elements reassigned to class `c`. */
  ghost predicate Reassigned(els: seq<Element>, els': seq<Element>, moved: seq<nat>, c: nat) {
    && |els'| == |els|
    && forall x :: 0 <= x < |els| ==> els'[x] == if x in moved then els[x].(classId := c) else els[x]
  }

  /** Splitting class `c` into the list that keeps the id and the list that gets a new one. */
  lemma RefineShape(els: seq<Element>, classes: seq<Class>, no: seq<seq<nat>>, yes: seq<seq<nat>>, added: set<nat>,
                    c: nat, kept: seq<nat>, moved: seq<nat>, els': seq<Element>)
    requires Shape(els, classes, no, yes, added) && c < |classes|
    requires (kept == no[c] && moved == yes[c]) || (kept == yes[c] && moved == no[c])
    requires Reassigned(els, els', moved, |classes|)
    ensures Shape(els', classes[c := Class(|kept|, 0, HeadOf(kept), -1)] + [Class(|moved|, 0, HeadOf(moved), -1)],
                  no[c := kept] + [moved], yes[c := []] + [[]], added)
  {
    assert ClassOk(els, classes[c], no[c], yes[c]) && Owns(els, added, c, no[c], yes[c]);
    var n := |classes|;
    var classes' := classes[c := Class(|kept|, 0, HeadOf(kept), -1)] + [Class(|moved|, 0, HeadOf(moved), -1)];
    var no', yes' := no[c := kept] + [moved], yes[c := []] + [[]];
    assert Dll(els, HeadOf(kept), kept) && Dll(els, HeadOf(moved), moved);
    forall d | 0 <= d <= n
      ensures ClassOk(els', classes'[d], no'[d], yes'[d]) && Owns(els', added, d, no'[d], yes'[d])
    {
      if d == n {
        FrameDll(els, els', HeadOf(moved), moved);
      } else if d == c {
        FrameDll(els, els', HeadOf(kept), kept);
      } else {
        assert ClassOk(els, classes[d], no[d], yes[d]) && Owns(els, added, d, no[d], yes[d]);
        FrameDll(els, els', classes[d].noHead, no[d]);
        FrameDll(els, els', classes[d].yesHead, yes[d]);
      }
    }
    forall x | x in added ensures Placed(els', no', yes', x) {
      assert Placed(els, no, yes, x);
    }
  }

  /** A class all of whose members are marked just turns its "yes" list into its "no" list. */
  lemma WholeShape(els: seq<Element>, classes: seq<Class>, no: seq<seq<nat>>, yes: seq<seq<nat>>, added: set<nat>,
                   c: nat)
    requires Shape(els, classes, no, yes, added) && c < |classes| && no[c] == []
    ensures Shape(els, classes[c := classes[c].(noHead := classes[c].yesHead, yesHead := -1, yesSize := 0)],
                  no[c := yes[c]], yes[c := []], added)
  {
    assert ClassOk(els, classes[c], no[c], yes[c]) && Owns(els, added, c, no[c], yes[c]);
    forall x | x in added && els[x].classId == c ensures x in yes[c] {
      assert Placed(els, no, yes, x);
    }
    ShapeUpdate(els, classes, no, yes, added, els, c,
                classes[c].(noHead := classes[c].yesHead, yesHead := -1, yesSize := 0), yes[c], [], added);
  }

  /** From `els0` to `els` exactly the classes in `done` were split, each along
      `marked`; an element keeps its class id or gets one that did not exist. */
  ghost predicate Refined(els0: seq<Element>, els: seq<Element>, added: set<nat>, marked: set<nat>, done: set<nat>,
                          n0: nat) {
    && (forall x :: x in added ==>
          && x < |els| && x < |els0|
          && (els[x].classId == els0[x].classId || (els0[x].classId in done && els[x].classId >= n0)))
    && (forall x, y :: x in added && y in added ==>
          (els[x].classId == els[y].classId <==>
             els0[x].classId == els0[y].classId && (els0[x].classId in done ==> (x in marked <==> y in marked))))
  }

  lemma RefinedStep(els0: seq<Element>, els: seq<Element>, els': seq<Element>, added: set<nat>, marked: set<nat>,
                    done: set<nat>, n0: nat, n: nat, c: nat, no: seq<nat>, yes: seq<nat>, moved: seq<nat>)
    requires Refined(els0, els, added, marked, done, n0) && c !in done && c < n0 <= n
    requires forall x :: x in added ==> els[x].classId < n
    requires forall x :: x in added && els[x].classId == c ==> (x in no || x in yes)
    requires forall x :: x in no || x in yes ==> x in added && els[x].classId == c
    requires forall x :: x in no ==> x !in marked
    requires forall x :: x in yes ==> x in marked
    requires (moved == yes || moved == no || (moved == [] && no == [])) && Reassigned(els, els', moved, n)
    ensures Refined(els0, els', added, marked, done + {c}, n0)
  {
    forall x, y | x in added && y in added
      ensures els'[x].classId == els'[y].classId <==>
                els0[x].classId == els0[y].classId && (els0[x].classId in done + {c} ==> (x in marked <==> y in marked))
    {
      assert els[x].classId == els[y].classId <==>
               els0[x].classId == els0[y].classId && (els0[x].classId in done ==> (x in marked <==> y in marked));
    }
  }

  /** What a finished split does: an element keeps its id or gets one from `n0` on, and
      two elements share a class iff they did and are both marked or both unmarked. */
  ghost predicate SplitBy(els0: seq<Element>, els: seq<Element>, added: set<nat>, marked: set<nat>, n0: nat) {
    && (forall x :: x in added ==>
          x < |els| && x < |els0| && (els[x].classId == els0[x].classId || els[x].classId >= n0))
    && (forall x, y :: x in added && y in added ==>
          (els[x].classId == els[y].classId <==> els0[x].classId == els0[y].classId && (x in marked <==> y in marked)))
  }

  lemma RefinedAll(els0: seq<Element>, els: seq<Element>, added: set<nat>, marked: set<nat>, done: set<nat>, n0: nat)
    requires Refined(els0, els, added, marked, done, n0)
    requires forall x :: x in added && els0[x].classId !in done ==> x !in marked
    ensures SplitBy(els0, els, added, marked, n0)
  {
  }

  /** With every "yes" list empty and a fresh stamp the structure is settled. */
  lemma SettledRep(els: seq<Element>, classes: seq<Class>, no: seq<seq<nat>>, yes: seq<seq<nat>>, added: set<nat>,
                   ctr: nat)
    requires Shape(els, classes, no, yes, added) && forall x :: 0 <= x < |els| ==> els[x].yes < ctr
    requires ctr > 0 && forall c :: 0 <= c < |classes| ==> yes[c] == []
    ensures Rep(els, classes, no, yes, added, ctr, []) && MarkedIn(els, added, ctr) == {}
  {
    forall x | x in added ensures Placed(els, no, yes, x) && yes[els[x].classId] == [] {
      assert Placed(els, no, yes, x);
    }
  }

  /** An element that moves lands in a class of at most half the size, and the class of one that stays does not grow. */
  ghost predicate Halved(els0: seq<Element>, classes0: seq<Class>, els: seq<Element>, classes: seq<Class>,
                         added: set<nat>) {
    forall x :: x in added && x < |els0| && x < |els| ==>
      && els0[x].classId < |classes0| && els[x].classId < |classes|
      && var size0, size := classes0[els0[x].classId].size, classes[els[x].classId].size;
      && if els[x].classId != els0[x].classId then 2 * size <= size0 else size <= size0
  }

  // ------------------------------------------------ how often an element can move

  function Pow2(k: nat): nat {
    if k == 0 then 1 else 2 * Pow2(k - 1)
  }

  /** How often a finished split has moved `x`. */
  function MovesOf(moves: seq<nat>, x: nat): nat {
    if x < |moves| then moves[x] else 0
  }

  function CountMoves(moves: seq<nat>, els0: seq<Element>, els: seq<Element>): seq<nat> {
    seq(|els|, x requires 0 <= x < |els| => MovesOf(moves, x) + if x < |els0| && els0[x].classId != els[x].classId
        then 1 else 0)
  }

  /** The size of the class of an element pays for all its moves. */
  ghost predicate Budget(els: seq<Element>, classes: seq<Class>, added: set<nat>, moves: seq<nat>, n: nat) {
    forall x :: x in added && x < |els| && els[x].classId < |classes|
      ==> classes[els[x].classId].size * Pow2(MovesOf(moves, x)) <= n
  }

  lemma TimesMonotone(a: nat, b: nat, c: nat)
    requires a <= b
    ensures a * c <= b * c
  {
  }

  lemma BudgetStep(els0: seq<Element>, classes0: seq<Class>, els: seq<Element>, classes: seq<Class>, added: set<nat>,
                   moves: seq<nat>, n: nat)
    requires Halved(els0, classes0, els, classes, added) && |els| == |els0| && Budget(els0, classes0, added, moves, n)
    ensures Budget(els, classes, added, CountMoves(moves, els0, els), n)
  {
    forall x | x in added && x < |els| && els[x].classId < |classes|
      ensures classes[els[x].classId].size * Pow2(MovesOf(CountMoves(moves, els0, els), x)) <= n
    {
      var size0, size, k := classes0[els0[x].classId].size, classes[els[x].classId].size, MovesOf(moves, x);
      assert size0 * Pow2(k) <= n;
      if els[x].classId != els0[x].classId {
        assert Pow2(k + 1) == 2 * Pow2(k);
        assert size * Pow2(k + 1) == (2 * size) * Pow2(k);
        TimesMonotone(2 * size, size0, Pow2(k));
      } else {
        TimesMonotone(size, size0, Pow2(k));
      }
    }
  }

  /** Ids `a`, `a + 1`, ... below `b`. */
  function IdsFrom(a: nat, b: nat): (ids: seq<nat>)
    requires a <= b
    ensures |ids| == b - a && forall j :: 0 <= j < |ids| ==> ids[j] == a + j
  {
    seq(b - a, j requires 0 <= j => a + j)
  }

  lemma IdsJoin(a: nat, b: nat, c: nat)
    requires a <= b <= c
    ensures IdsFrom(a, b) + IdsFrom(b, c) == IdsFrom(a, c)
  {
  }

  ghost predicate AllNonEmpty(classes: seq<Class>) {
    forall c :: 0 <= c < |classes| ==> classes[c].size > 0
  }

  /** A split under way, the classes in `done` settled. */
  ghost predicate Progress(els0: seq<Element>, classes0: seq<Class>, no0: seq<seq<nat>>, yes0: seq<seq<nat>>, ctr: nat,
                           els: seq<Element>, classes: seq<Class>, no: seq<seq<nat>>, yes: seq<seq<nat>>,
                           added: set<nat>, done: set<nat>)
  {
    && |no0| == |yes0| == |classes0| <= |classes| && |els| == |els0|
    && (forall x :: x in added ==> Placed(els0, no0, yes0, x) && (x in yes0[els0[x].classId] <==> els0[x].yes == ctr))
    && Shape(els, classes, no, yes, added)
    && (forall x :: 0 <= x < |els| ==> els[x].yes == els0[x].yes)
    && (forall d :: 0 <= d < |classes0| && d !in done
         ==> no[d] == no0[d] && yes[d] == yes0[d] && classes[d] == classes0[d])
    && (forall d :: 0 <= d < |classes| && (d in done || d >= |classes0|) ==> yes[d] == [])
    && Refined(els0, els, added, MarkedIn(els0, added, ctr), done, |classes0|)
    && (AllNonEmpty(classes0) ==> AllNonEmpty(classes))
    && Halved(els0, classes0, els, classes, added)
  }

  /** What is known of a class about to be settled. */
  lemma PendingClass(els0: seq<Element>, classes0: seq<Class>, no0: seq<seq<nat>>, yes0: seq<seq<nat>>, ctr: nat,
                     els: seq<Element>, classes: seq<Class>, no: seq<seq<nat>>, yes: seq<seq<nat>>,
                     added: set<nat>, done: set<nat>, c: nat)
    requires Progress(els0, classes0, no0, yes0, ctr, els, classes, no, yes, added, done) && c !in done
             && c < |classes0|
    ensures forall x :: x in added ==> els[x].classId < |classes|
    ensures forall x :: x in added && els[x].classId == c ==> (x in no[c] || x in yes[c])
    ensures forall x :: x in no[c] || x in yes[c] ==> x in added && els[x].classId == els0[x].classId == c
    ensures forall x :: x in no[c] ==> x !in MarkedIn(els0, added, ctr)
    ensures forall x :: x in yes[c] ==> x in MarkedIn(els0, added, ctr)
    ensures classes[c].size == |no[c]| + |yes[c]|
  {
    assert ClassOk(els, classes[c], no[c], yes[c]) && Owns(els, added, c, no[c], yes[c]);
    forall x | x in added ensures els[x].classId < |classes| && (els[x].classId == c ==> x in no[c] || x in yes[c]) {
      assert Placed(els, no, yes, x);
    }
    forall x | x in no[c] || x in yes[c] ensures x in added && els0[x].classId == c {
      assert Placed(els0, no0, yes0, x);
    }
  }

  /** The effect of settling class `c`, as `split_refine` leaves it. */
  ghost predicate Settled(els: seq<Element>, classes: seq<Class>, no: seq<seq<nat>>, yes: seq<seq<nat>>, c: nat,
                          els': seq<Element>, classes': seq<Class>, no': seq<seq<nat>>, yes': seq<seq<nat>>)
    requires c < |classes| == |no| == |yes|
  {
    if no[c] == [] then
      && els' == els
      && no' == no[c := yes[c]] && yes' == yes[c := []]
      && classes' == classes[c := Class(classes[c].size, 0, classes[c].yesHead, -1)]
    else
      var (kept, moved) := if |no[c]| < |yes[c]| then (yes[c], no[c]) else (no[c], yes[c]);
      && Reassigned(els, els', moved, |classes|)
      && no' == no[c := kept] + [moved] && yes' == yes[c := []] + [[]]
      && classes' == classes[c := Class(|kept|, 0, HeadOf(kept), -1)] + [Class(|moved|, 0, HeadOf(moved), -1)]
  }

  lemma ProgressStep(els0: seq<Element>, classes0: seq<Class>, no0: seq<seq<nat>>, yes0: seq<seq<nat>>, ctr: nat,
                     els: seq<Element>, classes: seq<Class>, no: seq<seq<nat>>, yes: seq<seq<nat>>,
                     added: set<nat>, done: set<nat>, c: nat,
                     els': seq<Element>, classes': seq<Class>, no': seq<seq<nat>>, yes': seq<seq<nat>>)
    requires Progress(els0, classes0, no0, yes0, ctr, els, classes, no, yes, added, done) && c !in done
             && c < |classes0| == |yes0|
    requires yes0[c] != [] && |no| == |yes| == |classes| > c
             && Settled(els, classes, no, yes, c, els', classes', no', yes')
    requires Shape(els', classes', no', yes', added)
    ensures Progress(els0, classes0, no0, yes0, ctr, els', classes', no', yes', added, done + {c})
  {
    hide Refined, Shape, Placed, MarkedIn, Halved;
    PendingClass(els0, classes0, no0, yes0, ctr, els, classes, no, yes, added, done, c);
    var moved := if no[c] == [] then [] else if |no[c]| < |yes[c]| then no[c] else yes[c];
    assert Reassigned(els, els', moved, |classes|);
    RefinedStep(els0, els, els', added, MarkedIn(els0, added, ctr), done, |classes0|, |classes|, c, no[c], yes[c],
                moved);
    HalvedStep(els0, classes0, no0, yes0, ctr, els, classes, no, yes, added, done, c, els', classes', no', yes');
  }

  lemma HalvedStep(els0: seq<Element>, classes0: seq<Class>, no0: seq<seq<nat>>, yes0: seq<seq<nat>>, ctr: nat,
                   els: seq<Element>, classes: seq<Class>, no: seq<seq<nat>>, yes: seq<seq<nat>>,
                   added: set<nat>, done: set<nat>, c: nat,
                   els': seq<Element>, classes': seq<Class>, no': seq<seq<nat>>, yes': seq<seq<nat>>)
    requires Progress(els0, classes0, no0, yes0, ctr, els, classes, no, yes, added, done) && c !in done
             && c < |classes0| == |yes0|
    requires yes0[c] != [] && |no| == |yes| == |classes| > c
             && Settled(els, classes, no, yes, c, els', classes', no', yes')
    requires Shape(els', classes', no', yes', added)
    ensures Halved(els0, classes0, els', classes', added)
  {
    hide Refined, Shape, MarkedIn, AllNonEmpty;
    PendingClass(els0, classes0, no0, yes0, ctr, els, classes, no, yes, added, done, c);
    var moved := if no[c] == [] then [] else if |no[c]| < |yes[c]| then no[c] else yes[c];
    assert Reassigned(els, els', moved, |classes|);
    forall x | x in added && x < |els0| && x < |els'|
      ensures els0[x].classId < |classes0| && els'[x].classId < |classes'|
      ensures var size0, size := classes0[els0[x].classId].size, classes'[els'[x].classId].size;
              if els'[x].classId != els0[x].classId then 2 * size <= size0 else size <= size0
    {
      if x !in moved && els[x].classId != c {
        assert classes'[els[x].classId] == classes[els[x].classId];
      }
    }
  }

  lemma ProgressStart(els: seq<Element>, classes: seq<Class>, no: seq<seq<nat>>, yes: seq<seq<nat>>, added: set<nat>,
                      ctr: nat, visited: seq<nat>)
    requires Rep(els, classes, no, yes, added, ctr, visited)
    ensures Shape(els, classes, no, yes, added)
    ensures Progress(els, classes, no, yes, ctr, els, classes, no, yes, added, {})
    ensures forall c :: c in visited ==> c < |classes| == |yes| && yes[c] != []
    ensures Distinct(visited)
  {
  }

  lemma ProgressDone(els0: seq<Element>, classes0: seq<Class>, no0: seq<seq<nat>>, yes0: seq<seq<nat>>, ctr: nat,
                     visited: seq<nat>, els: seq<Element>, classes: seq<Class>, no: seq<seq<nat>>, yes: seq<seq<nat>>,
                     added: set<nat>, done: set<nat>)
    requires Rep(els0, classes0, no0, yes0, added, ctr, visited)
    requires Progress(els0, classes0, no0, yes0, ctr, els, classes, no, yes, added, done)
    requires forall c :: c in done <==> c in visited
    ensures Rep(els, classes, no, yes, added, ctr + 1, []) && MarkedIn(els, added, ctr + 1) == {}
    ensures SplitBy(els0, els, added, MarkedIn(els0, added, ctr), |classes0|)
    ensures AllNonEmpty(classes0) ==> AllNonEmpty(classes)
    ensures Halved(els0, classes0, els, classes, added)
    ensures |classes0| <= |classes| && |els| == |els0|
  {
    forall x | x in added && els0[x].classId !in done ensures x !in MarkedIn(els0, added, ctr) {
      assert Placed(els0, no0, yes0, x);
    }
    RefinedAll(els0, els, added, MarkedIn(els0, added, ctr), done, |classes0|);
    SettledRep(els, classes, no, yes, added, ctr + 1);
  }

  /** A placed element makes its class non-empty, and is alone in a class of size one. */
  lemma MemberSize(els: seq<Element>, classes: seq<Class>, no: seq<seq<nat>>, yes: seq<seq<nat>>, added: set<nat>,
                   x: nat, y: nat)
    requires Shape(els, classes, no, yes, added) && x in added && y in added
    ensures x < |els| && y < |els| && els[x].classId < |classes| && classes[els[x].classId].size > 0
    ensures els[x].classId == els[y].classId && classes[els[x].classId].size == 1 ==> x == y
  {
    assert Placed(els, no, yes, x) && Placed(els, no, yes, y);
    var c := els[x].classId;
    assert ClassOk(els, classes[c], no[c], yes[c]);
  }

  /** There are no more non-empty classes than elements. */
  lemma {:induction false} ClassCount(els: seq<Element>, classes: seq<Class>, no: seq<seq<nat>>, yes: seq<seq<nat>>,
                                      added: set<nat>, k: nat)
    returns (heads: set<nat>)
    requires Shape(els, classes, no, yes, added) && AllNonEmpty(classes) && k <= |classes|
    ensures |heads| == k && forall x :: x in heads ==> x < |els| && els[x].classId < k
    decreases k
  {
    if k == 0 {
      heads := {};
    } else {
      var hs := ClassCount(els, classes, no, yes, added, k - 1);
      var c := k - 1;
      assert ClassOk(els, classes[c], no[c], yes[c]) && Owns(els, added, c, no[c], yes[c]);
      var h := if no[c] != [] then no[c][0] else yes[c][0];
      assert h in no[c] || h in yes[c];
      heads := hs + {h};
    }
  }

  /** A class counts distinct elements. */
  lemma ClassSizeBound(els: seq<Element>, classes: seq<Class>, no: seq<seq<nat>>, yes: seq<seq<nat>>, added: set<nat>,
                       c: nat)
    requires Shape(els, classes, no, yes, added) && c < |classes|
    ensures classes[c].size <= |els|
  {
    assert ClassOk(els, classes[c], no[c], yes[c]) && Owns(els, added, c, no[c], yes[c]);
    var l := no[c] + yes[c];
    forall i, j | 0 <= i < j < |l| ensures l[i] != l[j] {
      assert j >= |no[c]| > i ==> l[i] in no[c] && l[j] in yes[c];
    }
    forall i | 0 <= i < |l| ensures l[i] < |els| {
      assert i < |no[c]| ==> l[i] in no[c];
      assert i >= |no[c]| ==> l[i] in yes[c];
    }
    DistinctLength(l, |els|);
  }

  lemma {:induction false} ListSet(l: seq<nat>) returns (s: set<nat>)
    requires Distinct(l)
    ensures |s| == |l| && forall x :: x in s <==> x in l
  {
    if l == [] {
      s := {};
    } else {
      var m := |l| - 1;
      s := ListSet(l[..m]);
      assert l == l[..m] + [l[m]];
      s := s + {l[m]};
    }
  }

  lemma DistinctLength(l: seq<nat>, n: nat)
    requires Distinct(l) && forall i :: 0 <= i < |l| ==> l[i] < n
    ensures |l| <= n
  {
    var s := ListSet(l);
    BoundedSetSize(s, n);
  }

  lemma {:induction false} BoundedSetSize(s: set<nat>, n: nat)
    requires forall x :: x in s ==> x < n
    ensures |s| <= n
    decreases n
  {
    if n > 0 {
      BoundedSetSize(s - {n - 1}, n - 1);
    }
  }

  class Partition {
    var elements: seq<Element>
    var classes: seq<Class>
    var visitedClasses: seq<nat>
    var yesCounter: nat
    /** The two lists of every class, and the elements placed so far. */
    ghost var no: seq<seq<nat>>
    ghost var yes: seq<seq<nat>>
    ghost var added: set<nat>
    /** How often a finished split has moved each element. */
    ghost var moves: seq<nat>

    ghost predicate Valid()
      reads this
    {
      Rep(elements, classes, no, yes, added, yesCounter, visitedClasses)
    }

    function ClassOf(x: nat): nat
      requires x < |elements|
      reads this
    {
      elements[x].classId
    }

    /** The elements split off so far. */
    ghost function Marked(): set<nat>
      reads this
    {
      MarkedIn(elements, added, yesCounter)
    }

    constructor (numElements: nat)
      requires numElements <= MAX_ELEMENTS
      ensures Valid() && |elements| == numElements && classes == [] && added == {} && Marked() == {}
              && visitedClasses == []
      ensures moves == []
    {
      elements := seq(numElements, _ => Element(0, 0, 0, 0));
      classes := [];
      visitedClasses := [];
      yesCounter := 1;
      no, yes, added, moves := [], [], {}, [];
    }

    method AllocateClasses(k: nat)
      requires Valid()
      modifies this
      ensures Valid() && |classes| == old(|classes|) + k
      ensures elements == old(elements) && added == old(added) && Marked() == old(Marked())
      ensures visitedClasses == old(visitedClasses)
      ensures no == old(no) + seq(k, _ => []) && yes == old(yes) + seq(k, _ => []) && moves == old(moves)
    {
      classes := classes + seq(k, _ => Class(0, 0, -1, -1));
      no := no + seq(k, _ => []);
      yes := yes + seq(k, _ => []);
      forall c | 0 <= c < |classes|
        ensures ClassOk(elements, classes[c], no[c], yes[c]) && Owns(elements, added, c, no[c], yes[c])
      {
        if c < |old(classes)| {
          assert no[c] == old(no)[c] && yes[c] == old(yes)[c] && classes[c] == old(classes)[c];
        }
      }
      forall x | x in added ensures Placed(elements, no, yes, x) {
        assert Placed(elements, old(no), old(yes), x);
      }
    }

    /** Places a fresh element in front of its class. */
    method Add(e: nat, c: nat)
      requires Valid()
      requires e < |elements| && e !in added && c < |classes|
      modifies this
      ensures Valid() && |elements| == old(|elements|) && |classes| == old(|classes|)
      ensures added == old(added) + {e} && Marked() == old(Marked())
      ensures visitedClasses == old(visitedClasses) && yesCounter == old(yesCounter)
      ensures no == old(no)[c := [e] + old(no)[c]] && yes == old(yes) && moves == old(moves)
      ensures ClassOf(e) == c && forall x :: 0 <= x < |elements| && x != e ==> ClassOf(x) == old(ClassOf(x))
    {
      ghost var els' := AddRep(elements, classes, no, yes, added, yesCounter, visitedClasses, e, c);
      var thisClass := classes[c];
      var noHead := thisClass.noHead;
      if noHead >= 0 {
        elements := elements[noHead := elements[noHead].(prev := e)];
      }
      classes := classes[c := thisClass.(size := thisClass.size + 1, noHead := e)];
      elements := elements[e := Element(c, 0, noHead, -1)];
      no := no[c := [e] + no[c]];
      added := added + {e};
      assert elements == els';
    }

    /** The common first half of `move_element` and `split_on`: the neighbours of
        `e`, or the head of its class, bypass it. */
    method Bypass(e: nat)
      requires e < |elements| && elements[e].classId < |classes|
      requires elements[e].prev < |elements| && elements[e].next < |elements|
      modifies this`elements, this`classes
      ensures elements == BypassElements(old(elements), e) && elements[e].classId == old(elements[e].classId)
      ensures var o := old(elements)[e]; classes == old(classes)[o.classId := BypassClass(old(classes)[o.classId], o)]
    {
      var eltPrev, eltNext, c := elements[e].prev, elements[e].next, elements[e].classId;
      if eltPrev >= 0 {
        elements := elements[eltPrev := elements[eltPrev].(next := eltNext)];
      } else {
        classes := classes[c := classes[c].(noHead := eltNext)];
      }
      if eltNext >= 0 {
        elements := elements[eltNext := elements[eltNext].(prev := eltPrev)];
      }
    }

    /** Moves an element to another class; no split may be pending. */
    method MoveElement(e: nat, c: nat)
      requires Valid() && visitedClasses == []
      requires e in added && c < |classes|
      modifies this
      ensures Valid() && visitedClasses == [] && |elements| == old(|elements|) && |classes| == old(|classes|)
      ensures added == old(added)
      ensures ClassOf(e) == c && forall x :: 0 <= x < |elements| && x != e ==> ClassOf(x) == old(ClassOf(x))
    {
      ghost var els', cl, k := RemoveRep(elements, classes, no, yes, added, yesCounter, visitedClasses, e);
      var eltClass := elements[e].classId;
      Bypass(e);
      classes := classes[eltClass := classes[eltClass].(size := classes[eltClass].size - 1)];
      assert elements == els' && classes == old(classes)[eltClass := cl];
      no := no[eltClass := Without(no[eltClass], k)];
      added := added - {e};
      Add(e, c);
    }

    /** The second half of `split_on`: `e` becomes the head of the "yes" list of its class. */
    method PushYes(e: nat)
      requires e < |elements| && elements[e].classId < |classes|
      requires classes[elements[e].classId].yesHead < |elements|
      modifies this`elements, this`classes, this`visitedClasses
      ensures var c := old(elements)[e].classId; var cl := old(classes)[c];
              && elements == PushYesElements(old(elements), cl, e, yesCounter)
              && classes == old(classes)[c := PushYesClass(cl, e)]
              && visitedClasses == if cl.yesHead >= 0 then old(visitedClasses) else old(visitedClasses) + [c]
    {
      var c := elements[e].classId;
      var thisClass := classes[c];
      if thisClass.yesHead >= 0 {
        elements := elements[thisClass.yesHead := elements[thisClass.yesHead].(prev := e)];
      } else {
        visitedClasses := visitedClasses + [c];
      }
      elements := elements[e := elements[e].(yes := yesCounter, next := thisClass.yesHead, prev := -1)];
      classes := classes[c := thisClass.(yesHead := e, yesSize := thisClass.yesSize + 1)];
    }

    /** Marks an element for the split under way. */
    method SplitOn(e: nat)
      requires Valid() && e in added
      modifies this
      ensures Valid() && |elements| == old(|elements|) && |classes| == old(|classes|) && added == old(added)
      ensures yesCounter == old(yesCounter) && moves == old(moves)
      ensures Marked() == old(Marked()) + {e}
      ensures forall x :: 0 <= x < |elements| ==> elements[x].classId == old(elements)[x].classId
      ensures forall c :: 0 <= c < |classes| ==> classes[c].size == old(classes)[c].size
    {
      hide Rep, Placed;
      MemberBelow(elements, classes, no, yes, added, yesCounter, visitedClasses, e);
      var c := elements[e].classId;
      if elements[e].yes == yesCounter {
        return;
      }
      ghost var els', cl, k := SplitOnRep(elements, classes, no, yes, added, yesCounter, visitedClasses, e);
      Bypass(e);
      PushYes(e);
      no := no[c := Without(no[c], k)];
      yes := yes[c := [e] + yes[c]];
    }

    /** Settles class `c`. A proper split sends the smaller half to a new class,
        whose id is returned; otherwise the result is -1. */
    method SplitRefine(c: nat) returns (r: int)
      requires Shape(elements, classes, no, yes, added) && c < |classes|
      modifies this`elements, this`classes, this`no, this`yes
      ensures Shape(elements, classes, no, yes, added)
      ensures old(|classes| == |no| == |yes|)
      ensures Settled(old(elements), old(classes), old(no), old(yes), c, elements, classes, no, yes)
      ensures r == if old(no)[c] == [] then -1 else |old(classes)|
      ensures |classes| == |old(classes)| + (if r == -1 then 0 else 1)
    {
      assert ClassOk(elements, classes[c], no[c], yes[c]) && Owns(elements, added, c, no[c], yes[c]);
      var yesSize, size := classes[c].yesSize, classes[c].size;
      var noSize := size - yesSize;
      if noSize == 0 {
        WholeShape(elements, classes, no, yes, added, c);
        classes := classes[c := classes[c].(noHead := classes[c].yesHead, yesHead := -1, yesSize := 0)];
        no, yes := no[c := yes[c]], yes[c := []];
        return -1;
      }
      var newClassId := |classes|;
      var this_, new_ := classes[c], Class(0, 0, -1, -1);
      ghost var kept, moved := no[c], yes[c];
      if noSize < yesSize {
        new_ := new_.(noHead := this_.noHead, size := noSize);
        this_ := this_.(noHead := this_.yesHead, yesHead := -1, size := yesSize, yesSize := 0);
        kept, moved := moved, kept;
      } else {
        new_ := new_.(noHead := this_.yesHead, size := yesSize);
        this_ := this_.(size := noSize, yesSize := 0, yesHead := -1);
      }
      classes := classes[c := this_] + [new_];
      ghost var split := classes;
      var e := new_.noHead;
      ghost var k := 0;
      while e >= 0
        invariant 0 <= k <= |moved| && e == if k < |moved| then moved[k] else -1
        invariant Reassigned(old(elements), elements, moved[..k], newClassId)
        invariant classes == split && no == old(no) && yes == old(yes)
        decreases |moved| - k
      {
        assert Linked(old(elements), moved, k);
        elements := elements[e := elements[e].(classId := newClassId)];
        e := elements[e].next;
        assert moved[..k+1] == moved[..k] + [moved[k]];
        k := k + 1;
      }
      assert moved[..k] == moved;
      RefineShape(old(elements), old(classes), no, yes, added, c, kept, moved, elements);
      no, yes := no[c := kept] + [moved], yes[c := []] + [[]];
      r := newClassId;
    }

    /** Ends the split: every class is divided into its marked and its unmarked
        part, and exactly the ids created on the way are enqueued. */
    method FinalizeSplit(queue: seq<nat>) returns (q: seq<nat>)
      requires Valid()
      modifies this
      ensures Valid() && visitedClasses == [] && Marked() == {} && added == old(added) && |elements| == old(|elements|)
      ensures |old(classes)| <= |classes|
      ensures q == queue + IdsFrom(|old(classes)|, |classes|)
      ensures moves == CountMoves(old(moves), old(elements), elements)
      ensures SplitBy(old(elements), elements, added, old(Marked()), |old(classes)|)
      ensures AllNonEmpty(old(classes)) ==> AllNonEmpty(classes)
      ensures Halved(old(elements), old(classes), elements, classes, added)
    {
      hide Progress, Rep, Settled, Shape, SplitBy, Halved, AllNonEmpty, MarkedIn;
      q := queue;
      ghost var done, n0 := {}, |classes|;
      var i := 0;
      ProgressStart(elements, classes, no, yes, added, yesCounter, visitedClasses);
      while i < |visitedClasses|
        invariant 0 <= i <= |visitedClasses|
        invariant visitedClasses == old(visitedClasses) && yesCounter == old(yesCounter) && added == old(added)
        invariant done == set c | c in visitedClasses[..i]
        invariant Shape(elements, classes, no, yes, added) && n0 <= |classes|
        invariant Progress(old(elements), old(classes), old(no), old(yes), yesCounter, elements, classes, no, yes,
                           added, done)
        invariant q == queue + IdsFrom(n0, |classes|) && moves == old(moves)
      {
        var c := visitedClasses[i];
        assert c !in done && c in old(visitedClasses) && c < n0;
        ghost var els1, classes1, no1, yes1 := elements, classes, no, yes;
        var newClass := SplitRefine(c);
        ProgressStep(old(elements), old(classes), old(no), old(yes), yesCounter, els1, classes1, no1, yes1, added,
                     done, c,
                     elements, classes, no, yes);
        if newClass != -1 {
          q := q + [newClass];
        }
        assert visitedClasses[..i+1] == visitedClasses[..i] + [c];
        done := done + {c};
        i := i + 1;
      }
      assert visitedClasses[..i] == visitedClasses;
      ProgressDone(old(elements), old(classes), old(no), old(yes), yesCounter, visitedClasses, elements, classes, no,
                   yes, added, done);
      moves := CountMoves(moves, old(elements), elements);
      visitedClasses := [];
      yesCounter := yesCounter + 1;
    }

    lemma InitialBudget()
      requires Valid() && moves == []
      ensures Budget(elements, classes, added, moves, |elements|)
    {
      forall x | x in added && x < |elements| && elements[x].classId < |classes|
        ensures classes[elements[x].classId].size * Pow2(MovesOf(moves, x)) <= |elements|
      {
        ClassSizeBound(elements, classes, no, yes, added, elements[x].classId);
      }
    }

    lemma Member(x: nat, y: nat)
      requires Valid() && x in added && y in added
      ensures x < |elements| && y < |elements| && ClassOf(x) < |classes| && classes[ClassOf(x)].size > 0
      ensures ClassOf(x) == ClassOf(y) && classes[ClassOf(x)].size == 1 ==> x == y
    {
      MemberSize(elements, classes, no, yes, added, x, y);
    }

    /** With no split pending the "no" list of a class lists its members. */
    lemma ClassMembers(c: nat)
      requires Valid() && visitedClasses == [] && c < |classes|
      ensures c < |no| && Distinct(no[c]) && forall x :: x in no[c] <==> x in added && x < |elements| && ClassOf(x) == c
    {
      assert Owns(elements, added, c, no[c], yes[c]);
      forall x | x in added ensures x < |elements| && (ClassOf(x) == c ==> x in no[c]) {
        assert Placed(elements, no, yes, x);
      }
    }

    ghost predicate NonEmptyList(c: nat)
      reads this
    {
      c < |no| && no[c] != []
    }

    lemma ListCount()
      requires Valid()
      ensures |no| == |classes|
    {
    }

    /** A settled class that counts a member has one in its list. */
    lemma FirstMember(c: nat)
      requires Valid() && visitedClasses == [] && c < |classes| && AllNonEmpty(classes)
      ensures NonEmptyList(c)
    {
      assert ClassOk(elements, classes[c], no[c], yes[c]) && Owns(elements, added, c, no[c], yes[c]);
    }

    lemma CountBound()
      requires Valid() && AllNonEmpty(classes)
      ensures |classes| <= |elements|
    {
      var heads := ClassCount(elements, classes, no, yes, added, |classes|);
      BoundedSetSize(heads, |elements|);
    }

    /** Walks one settled class from its head. */
    method Iter(c: nat) returns (l: seq<nat>)
      requires Valid() && c < |classes|
      ensures l == no[c]
    {
      assert ClassOk(elements, classes[c], no[c], yes[c]);
      l := [];
      var last := classes[c].noHead;
      while last >= 0
        invariant |l| <= |no[c]| && l == no[c][..|l|]
        invariant last == if |l| < |no[c]| then no[c][|l|] else -1
        decreases |no[c]| - |l|
      {
        assert Linked(elements, no[c], |l|);
        l := l + [last];
        last := elements[last].next;
      }
    }
  }
}
