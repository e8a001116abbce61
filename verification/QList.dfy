// Model of inc/AEEQList.h: intrusive, circular, doubly linked lists whose
// operations move pointers without branching on emptiness.
module QLists {
  import opened Wrappers

  class QNode {
    var pNext: QNode?
    var pPrev: QNode?

    constructor ()
      ensures pNext == null && pPrev == null
    {
      pNext, pPrev := null, null;
    }
  }

  // pNext and pPrev are mutually inverse along r.
  ghost predicate Linked(r: seq<QNode>)
    reads r
  {
    && (forall i {:trigger r[i].pNext} :: 0 <= i < |r| - 1 ==> r[i].pNext == r[i + 1])
    && (forall i {:trigger r[i].pPrev} :: 0 < i < |r| ==> r[i].pPrev == r[i - 1])
  }

  // r lists the nodes of one closed ring, starting anywhere on it.
  ghost predicate Ring(r: seq<QNode>)
    reads r
  {
    && |r| > 0
    && Distinct(r)
    && Linked(r)
    && r[|r| - 1].pNext == r[0]
    && r[0].pPrev == r[|r| - 1]
  }

  lemma RingTail(h: QNode, s: seq<QNode>)
    requires Ring([h] + s)
    ensures Distinct(s) && Linked(s) && h !in s
    ensures if s == [] then h.pNext == h && h.pPrev == h
            else h.pNext == s[0] && s[0].pPrev == h && s[|s| - 1].pNext == h && h.pPrev == s[|s| - 1]
  {
    var r := [h] + s;
    assert forall i :: 0 <= i < |s| ==> s[i] == r[i + 1];
  }

  // A ring has no distinguished first node.
  lemma {:induction false} RingRotate(a: seq<QNode>, b: seq<QNode>)
    requires Ring(a + b)
    ensures Ring(b + a)
  {
    var r, t := a + b, b + a;
    if a == [] || b == [] {
      assert t == r;
    } else {
      forall i, j | 0 <= i < j < |t| ensures t[i] != t[j] {
        var i', j' := if i < |b| then i + |a| else i - |b|, if j < |b| then j + |a| else j - |b|;
        assert t[i] == r[i'] && t[j] == r[j'] && i' != j';
      }
      forall i | 0 <= i < |t| - 1 ensures t[i].pNext == t[i + 1] {
        var i' := if i < |b| then i + |a| else i - |b|;
        assert t[i] == r[i'];
      }
      forall i | 0 < i < |t| ensures t[i].pPrev == t[i - 1] {
        var i' := if i < |b| then i + |a| else i - |b|;
        assert t[i] == r[i'];
      }
      assert t[|t| - 1] == r[|a| - 1] && t[0] == r[|a|];
    }
  }

  // The pointers alone determine the contents: a list head is the head of at
  // most one ring, so the sequence every contract below speaks of is unique.
  lemma {:induction false} RingDetermined(h: QNode, a: seq<QNode>, b: seq<QNode>)
    requires Ring([h] + a) && Ring([h] + b)
    ensures a == b
  {
    var n := if |a| < |b| then |a| else |b|;
    RingPrefix(h, a, b, n);
    var r, t := [h] + a, [h] + b;
    assert r[n] == t[n];
    assert a[..n] == a && b[..n] == b;
  }

  lemma {:induction false} RingPrefix(h: QNode, a: seq<QNode>, b: seq<QNode>, n: nat)
    requires Ring([h] + a) && Ring([h] + b) && n <= |a| && n <= |b|
    ensures a[..n] == b[..n]
    ensures ([h] + a)[n] == ([h] + b)[n]
  {
    if n > 0 {
      RingPrefix(h, a, b, n - 1);
      var r, t := [h] + a, [h] + b;
      assert r[n - 1].pNext == r[n] && t[n - 1].pNext == t[n];
      assert a[..n] == a[..n - 1] + [r[n]] && b[..n] == b[..n - 1] + [t[n]];
    }
  }

  lemma {:induction false} DistinctConcat(a: seq<QNode>, b: seq<QNode>)
    requires Distinct(a) && Distinct(b)
    requires forall x :: x in a ==> x !in b
    ensures Distinct(a + b)
  {
    forall i, j | 0 <= i < j < |a + b| ensures (a + b)[i] != (a + b)[j] {
      if i < |a| <= j {
        assert a[i] in a && b[j - |a|] in b;
      }
    }
  }

  // Two chains whose ends point at each other's beginnings form one ring.
  lemma {:induction false} RingJoin(a: seq<QNode>, b: seq<QNode>)
    requires a != [] && b != [] && Distinct(a + b) && Linked(a) && Linked(b)
    requires a[|a| - 1].pNext == b[0] && b[0].pPrev == a[|a| - 1]
    requires b[|b| - 1].pNext == a[0] && a[0].pPrev == b[|b| - 1]
    ensures Ring(a + b)
  {
    var t := a + b;
    assert forall i :: 0 <= i < |t| ==> t[i] == if i < |a| then a[i] else b[i - |a|];
  }

  // QNode_InsPrev: pn becomes the predecessor of me. Seen from me, pn is the
  // last node of the ring.
  method InsPrev(me: QNode, pn: QNode, ghost rest: seq<QNode>)
    requires Ring([me] + rest) && pn !in [me] + rest
    modifies me`pPrev, me.pPrev`pNext, pn
    ensures Ring([me] + rest + [pn])
  {
    ghost var r := [me] + rest;
    var pPrev := me.pPrev;
    assert pPrev == r[|r| - 1];
    pn.pNext := me;
    pn.pPrev := pPrev;
    pPrev.pNext := pn;
    me.pPrev := pn;
  }

  // QNode_InsNext: pn becomes the successor of me.
  method InsNext(me: QNode, pn: QNode, ghost rest: seq<QNode>)
    requires Ring([me] + rest) && pn !in [me] + rest
    modifies me`pNext, me.pNext`pPrev, pn
    ensures Ring([me, pn] + rest)
  {
    ghost var r := [me] + rest;
    var pNext := me.pNext;
    assert pNext == if rest == [] then me else r[1];
    pn.pPrev := me;
    pn.pNext := pNext;
    pNext.pPrev := pn;
    me.pNext := pn;
    ghost var t := [me, pn] + rest;
    assert forall i :: 2 <= i < |t| ==> t[i] == r[i - 1];
  }

  // QNode_Dequeue: the rest of the ring closes over me, whose own pointers
  // are left as they were.
  method Dequeue(me: QNode, ghost rest: seq<QNode>)
    requires Ring([me] + rest) && rest != []
    modifies me.pNext`pPrev, me.pPrev`pNext
    ensures Ring(rest)
    ensures me.pNext == old(me.pNext) && me.pPrev == old(me.pPrev)
  {
    ghost var r := [me] + rest;
    var pNext := me.pNext;
    var pPrev := me.pPrev;
    assert pNext == r[1] && pPrev == r[|r| - 1];
    assert forall i :: 0 <= i < |rest| ==> rest[i] == r[i + 1];
    pPrev.pNext := pNext;
    pNext.pPrev := pPrev;
  }

  // QNode_DequeueZ: a queued node leaves its ring zeroed; an unqueued one is
  // not touched at all.
  method DequeueZ(me: QNode, ghost rest: seq<QNode>)
    requires me.pNext != null ==> Ring([me] + rest) && rest != []
    modifies if me.pNext != null then {me, me.pNext, me.pPrev} else {}
    ensures old(me.pNext) != null ==> Ring(rest)
    ensures me.pNext == null
    ensures old(me.pNext) != null ==> me.pPrev == null
  {
    if me.pNext != null {
      Dequeue(me, rest);
      me.pNext, me.pPrev := null, null;
    }
  }

  // The pointer moves of QList_AppendList, with s and d the heads of the two
  // lists. The ring of s is left behind for QList_Zero.
  method Splice(s: QNode, d: QNode, ghost src: seq<QNode>, ghost dst: seq<QNode>)
    requires Ring([s] + src) && Ring([d] + dst)
    requires s != d && d !in src && s !in dst && forall x :: x in dst ==> x !in src
    modifies d`pPrev, d.pPrev`pNext, s.pNext`pPrev, s.pPrev`pNext, s
    ensures Ring([d] + (dst + src))
  {
    hide Distinct;
    ghost var rd := [d] + dst;
    RingTail(d, dst);
    RingTail(s, src);
    DistinctConcat(rd, src);
    var dp := d.pPrev;
    var sn := s.pNext;
    assert dp == rd[|rd| - 1] && rd[0] == d;
    assert src != [] ==> sn in src && s.pPrev in src;
    sn.pPrev := dp;
    dp.pNext := sn;
    var sp := s.pPrev;
    d.pPrev := sp;
    sp.pNext := d;
    assert [d] + (dst + src) == rd + src;
    if src == [] {
      assert rd + src == rd;
    } else {
      assert Linked(rd);
      assert Linked(src);
      RingJoin(rd, src);
    }
  }

  class QList {
    const n: QNode
    ghost var items: seq<QNode>

    ghost predicate Valid()
      reads this, n, items
    {
      Ring([n] + items)
    }

    // QList_Ctor
    constructor ()
      ensures Valid() && items == [] && fresh(n)
    {
      var h := new QNode();
      n := h;
      items := [];
      new;
      h.pNext, h.pPrev := h, h;
    }

    // QList_Zero: forgets the queued nodes without touching any of them.
    method Zero()
      modifies this`items, n
      ensures Valid() && items == []
    {
      n.pNext, n.pPrev := n, n;
      items := [];
    }

    // QList_IsEmpty
    method IsEmpty() returns (empty: bool)
      requires Valid()
      ensures empty <==> items == []
    {
      assert items != [] ==> ([n] + items)[1] == n.pNext;
      empty := n.pNext == n;
    }

    // QList_AppendNode
    method AppendNode(pn: QNode)
      requires Valid() && pn != n && pn !in items
      modifies this`items, n`pPrev, n.pPrev`pNext, pn
      ensures Valid() && items == old(items) + [pn]
    {
      InsPrev(n, pn, items);
      assert [n] + (items + [pn]) == [n] + items + [pn];
      items := items + [pn];
    }

    // QList_PrependNode
    method PrependNode(pn: QNode)
      requires Valid() && pn != n && pn !in items
      modifies this`items, n`pNext, n.pNext`pPrev, pn
      ensures Valid() && items == [pn] + old(items)
    {
      InsNext(n, pn, items);
      assert [n] + ([pn] + items) == [n, pn] + items;
      items := [pn] + items;
    }

    // QNode_DequeueZ on the k-th queued node.
    method Remove(pn: QNode, ghost k: nat)
      requires Valid() && k < |items| && items[k] == pn
      modifies this`items, n, items
      ensures Valid() && items == old(items)[..k] + old(items)[k + 1..]
      ensures pn.pNext == null && pn.pPrev == null
    {
      ghost var before, after := [n] + items[..k], items[k + 1..];
      assert [n] + items == before + ([pn] + after);
      RingRotate(before, [pn] + after);
      assert [pn] + after + before == [pn] + (after + before);
      DequeueZ(pn, after + before);
      RingRotate(after, before);
      items := items[..k] + items[k + 1..];
      assert [n] + items == before + after;
    }

    // QList_CtorFrom: whatever this list held is dropped, every node of src
    // moves over, and src is left empty.
    method CtorFrom(src: QList)
      requires src.Valid() && n != src.n && n !in src.items
      modifies this, n, src, src.n, src.n.pNext`pPrev, src.n.pPrev`pNext
      ensures Valid() && items == old(src.items)
      ensures src.Valid() && src.items == []
    {
      ghost var r := [src.n] + src.items;
      var s, d := src.n, n;
      assert s.pNext == if src.items == [] then s else r[1];
      assert s.pPrev == r[|r| - 1];
      s.pNext.pPrev := d;
      d.pPrev := s.pPrev;
      d.pNext := s.pNext;
      s.pPrev.pNext := d;
      ghost var t := [n] + src.items;
      assert forall i :: 0 < i < |t| ==> t[i] == r[i];
      items := src.items;
      src.Zero();
    }

    // QList_AppendList: concatenation of two distinct lists.
    method AppendList(src: QList)
      requires Valid() && src.Valid() && this != src
      requires n != src.n && n !in src.items && src.n !in items
      requires forall x :: x in items ==> x !in src.items
      modifies this`items, src`items, n`pPrev, n.pPrev`pNext, src.n, src.n.pNext`pPrev, src.n.pPrev`pNext
      ensures Valid() && items == old(items) + old(src.items)
      ensures src.Valid() && src.items == []
    {
      hide Ring;
      RingTail(src.n, src.items);
      Splice(src.n, n, src.items, items);
      items := items + src.items;
      src.Zero();
    }

    // QList_GetFirst
    method GetFirst() returns (pn: QNode?)
      requires Valid()
      ensures pn == if items == [] then null else items[0]
    {
      assert items != [] ==> ([n] + items)[1] == n.pNext;
      pn := if n.pNext == n then null else n.pNext;
    }

    // QList_GetLast
    method GetLast() returns (pn: QNode?)
      requires Valid()
      ensures pn == if items == [] then null else items[|items| - 1]
    {
      ghost var r := [n] + items;
      assert r[|r| - 1] == n.pPrev;
      pn := if n.pPrev == n then null else n.pPrev;
    }

    // QList_Pop: on an empty list the same four assignments change nothing.
    method Pop() returns (pn: QNode?)
      requires Valid()
      modifies this`items, n`pNext, n.pNext.pNext`pPrev
      ensures Valid()
      ensures old(items) == [] ==> pn == null && items == []
      ensures old(items) != [] ==> pn == old(items)[0] && items == old(items)[1..]
    {
      ghost var r := [n] + items;
      var first := n.pNext;
      assert items != [] ==> first == r[1];
      var pnn := first.pNext;
      assert |items| > 1 ==> pnn == r[2];
      n.pNext := pnn;
      pnn.pPrev := n;
      pn := if first == n then null else first;
      if items != [] {
        items := items[1..];
        ghost var t := [n] + items;
        assert forall i :: 0 < i < |t| ==> t[i] == r[i + 1];
      }
    }

    // QList_PopZ
    method PopZ() returns (pn: QNode?)
      requires Valid()
      modifies this`items, n`pNext, n.pNext, n.pNext.pNext`pPrev
      ensures Valid()
      ensures old(items) == [] ==> pn == null && items == []
      ensures old(items) != [] ==>
                pn == old(items)[0] && items == old(items)[1..] && pn.pNext == null && pn.pPrev == null
    {
      ghost var r := [n] + items;
      assert items != [] ==> n.pNext == r[1];
      pn := Pop();
      if pn != null {
        assert pn !in [n] + items by {
          assert forall i :: 1 < i < |r| ==> r[i] != r[1];
        }
        pn.pNext, pn.pPrev := null, null;
      }
    }

    // QList_PopLast
    method PopLast() returns (pn: QNode?)
      requires Valid()
      modifies this`items, n`pPrev, n.pPrev.pPrev`pNext
      ensures Valid()
      ensures old(items) == [] ==> pn == null && items == []
      ensures old(items) != [] ==>
                pn == old(items)[|old(items)| - 1] && items == old(items)[..|old(items)| - 1]
    {
      ghost var r := [n] + items;
      var pp := n.pPrev;
      assert pp == r[|r| - 1];
      var ppp := pp.pPrev;
      assert items != [] ==> ppp == r[|r| - 2];
      n.pPrev := ppp;
      ppp.pNext := n;
      pn := if pp == n then null else pp;
      if items != [] {
        items := items[..|items| - 1];
        ghost var t := [n] + items;
        assert forall i :: 0 <= i < |t| ==> t[i] == r[i];
      }
    }

    // QList_PopLastZ
    method PopLastZ() returns (pn: QNode?)
      requires Valid()
      modifies this`items, n`pPrev, n.pPrev, n.pPrev.pPrev`pNext
      ensures Valid()
      ensures old(items) == [] ==> pn == null && items == []
      ensures old(items) != [] ==>
                && pn == old(items)[|old(items)| - 1] && items == old(items)[..|old(items)| - 1]
                && pn.pNext == null && pn.pPrev == null
    {
      ghost var r := [n] + items;
      pn := PopLast();
      if pn != null {
        assert pn !in [n] + items by {
          assert forall i :: 0 <= i < |r| - 1 ==> r[i] != r[|r| - 1];
        }
        pn.pNext, pn.pPrev := null, null;
      }
    }
  }

  // The elements of s outside drop, in order.
  ghost function Keep<T>(s: seq<T>, drop: set<T>): (r: seq<T>) {
    if s == [] then []
    else if s[0] in drop then Keep(s[1..], drop)
    else [s[0]] + Keep(s[1..], drop)
  }

  lemma {:induction false} KeepStep<T>(s: seq<T>, x: T, drop: set<T>)
    ensures Keep(s + [x], drop) == if x in drop then Keep(s, drop) else Keep(s, drop) + [x]
  {
    if s == [] {
      assert [x][1..] == [];
    } else {
      KeepStep(s[1..], x, drop);
      assert (s + [x])[1..] == s[1..] + [x];
    }
  }

  ghost function Members(r: seq<QNode>): set<QNode> {
    set x | x in r
  }

  lemma WalkStart(drop: set<QNode>)
    ensures Keep<QNode>([], drop) == [] && Members([]) == {} && Zeroed({})
  {
  }

  lemma MembersAdd(r: seq<QNode>, x: QNode)
    ensures Members(r + [x]) == Members(r) + {x}
  {
  }

  ghost predicate Zeroed(s: set<QNode>)
    reads s
  {
    forall x :: x in s ==> x.pNext == null && x.pPrev == null
  }

  // QLIST_NEXTSAFE_FOR_ALL with a body that calls QNode_DequeueZ on an
  // arbitrary subset of the nodes it is shown.
  method NextSafeForAll(l: QList, drop: set<QNode>) returns (visited: seq<QNode>)
    requires l.Valid()
    modifies l`items, l.n, Members(l.items)
    ensures l.Valid()
    ensures visited == old(l.items)
    ensures l.items == Keep(old(l.items), drop)
    ensures Zeroed(Members(visited) * drop)
  {
    hide Ring, Keep, Members, Zeroed;
    ghost var todo, kept: seq<QNode>, gone: set<QNode> := l.items, [], {};
    visited := [];
    WalkStart(drop);
    assert [] + todo == todo;
    RingAt(l.n, [], todo);
    var pNode: QNode := l.n.pNext;
    var pNodeNext: QNode := pNode.pNext;
    while pNode != l.n
      invariant visited + todo == old(l.items) && kept == Keep(visited, drop)
      invariant l.Valid() && l.items == kept + todo
      invariant pNode == if todo == [] then l.n else todo[0]
      invariant todo != [] ==> pNodeNext == if |todo| > 1 then todo[1] else l.n
      invariant Members(l.items) <= old(Members(l.items)) && Members(visited) * drop == gone
      invariant gone !! Members(l.items) + {l.n} && Zeroed(gone)
      decreases |todo|
    {
      ghost var rest := todo[1..];
      assert todo == [pNode] + rest;
      assert l.items == kept + [pNode] + rest;
      assert visited + todo == visited + [pNode] + rest;
      KeepStep(visited, pNode, drop);
      MembersAdd(visited, pNode);
      visited := visited + [pNode];
      todo := rest;
      if pNode in drop {
        Unlink(l, pNode, kept, rest, gone);
        gone := gone + {pNode};
      } else {
        kept := kept + [pNode];
      }
      pNode := pNodeNext;
      RingAt(l.n, kept, todo);
      pNodeNext := pNode.pNext;
    }
    assert visited + [] == visited && kept + [] == kept;
  }

  lemma RingAt(h: QNode, before: seq<QNode>, after: seq<QNode>)
    requires Ring([h] + (before + after))
    ensures after != [] ==> after[0].pNext == if |after| > 1 then after[1] else h
    ensures h.pNext == if before + after == [] then h else (before + after)[0]
    ensures h !in after && (if after == [] then h else after[0]).pNext != null
  {
    RingTail(h, before + after);
    var ring, k := [h] + (before + after), |before| + 1;
    assert after != [] ==> ring[k] == after[0];
    assert |after| > 1 ==> ring[k + 1] == after[1];
    assert forall i :: 0 <= i < |after| ==> after[i] == ring[k + i];
  }

  // One removal, seen from inside the walk: gone are the nodes removed so far.
  method Unlink(l: QList, pn: QNode, ghost before: seq<QNode>, ghost after: seq<QNode>, ghost gone: set<QNode>)
    requires l.Valid() && l.items == before + [pn] + after
    requires Zeroed(gone) && gone !! Members(l.items) + {l.n}
    modifies l`items, l.n, Members(l.items)
    ensures l.Valid() && l.items == before + after
    ensures Members(l.items) == old(Members(l.items)) - {pn}
    ensures Zeroed(gone + {pn}) && gone + {pn} !! Members(l.items) + {l.n}
  {
    hide Ring, Distinct;
    RingTail(l.n, l.items);
    MembersWithout(before, pn, after);
    l.Remove(pn, |before|);
  }

  lemma MembersWithout(before: seq<QNode>, pn: QNode, after: seq<QNode>)
    requires Distinct(before + [pn] + after)
    ensures var r := before + [pn] + after;
            && r[|before|] == pn && r[..|before|] + r[|before| + 1..] == before + after
            && Members(before + after) == Members(r) - {pn} && pn in Members(r)
  {
    var r := before + [pn] + after;
    assert forall i :: |before| < i < |r| ==> r[i] == after[i - |before| - 1];
    assert forall i :: 0 <= i < |before| ==> r[i] == before[i];
    assert r[|before|] == pn;
  }

  // QLIST_FOR_ALL
  method ForAll(l: QList) returns (visited: seq<QNode>)
    requires l.Valid()
    ensures visited == l.items
  {
    ghost var r := [l.n] + l.items;
    visited := [];
    assert l.items != [] ==> l.n.pNext == r[1];
    var pNode := l.n.pNext;
    while pNode != l.n
      invariant |visited| <= |l.items| && visited == l.items[..|visited|]
      invariant pNode == if |visited| < |l.items| then r[|visited| + 1] else l.n
      decreases |l.items| - |visited|
    {
      assert pNode == r[|visited| + 1] == l.items[|visited|];
      assert |visited| + 2 < |r| ==> pNode.pNext == r[|visited| + 2];
      visited := visited + [pNode];
      pNode := pNode.pNext;
    }
  }

  ghost function Reversed<T>(s: seq<T>): seq<T> {
    seq(|s|, i requires 0 <= i < |s| => s[|s| - 1 - i])
  }

  // QLIST_REV_FOR_ALL
  method RevForAll(l: QList) returns (visited: seq<QNode>)
    requires l.Valid()
    ensures visited == Reversed(l.items)
  {
    ghost var r := [l.n] + l.items;
    visited := [];
    assert r[|r| - 1] == l.n.pPrev;
    var pNode := l.n.pPrev;
    while pNode != l.n
      invariant |visited| <= |l.items| && visited == Reversed(l.items)[..|visited|]
      invariant pNode == r[|r| - 1 - |visited|]
      decreases |l.items| - |visited|
    {
      assert |visited| < |l.items|;
      assert pNode.pPrev == r[|r| - 2 - |visited|];
      visited := visited + [pNode];
      pNode := pNode.pPrev;
    }
    assert |visited| == |l.items|;
  }
}
