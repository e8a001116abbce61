// What a stable sort is, and why merging sorted runs bottom-up computes it.
// cmp plays the C comparison callback: cmp(a, b) <= 0 keeps a before b.
module StableSort {

  // cmp is a total preorder on the elements of dom.
  ghost predicate Preorder<T>(cmp: (T, T) -> int, dom: set<T>) {
    && (forall a, b :: a in dom && b in dom ==> cmp(a, b) <= 0 || cmp(b, a) <= 0)
    && (forall a, b, c :: a in dom && b in dom && c in dom && cmp(a, b) <= 0 && cmp(b, c) <= 0 ==> cmp(a, c) <= 0)
  }

  ghost predicate Within<T>(s: seq<T>, dom: set<T>) {
    forall i {:trigger s[i]} :: 0 <= i < |s| ==> s[i] in dom
  }

  function Insert<T>(cmp: (T, T) -> int, x: T, s: seq<T>): seq<T> {
    if s == [] || cmp(x, s[0]) <= 0 then [x] + s else [s[0]] + Insert(cmp, x, s[1..])
  }

  // The reference: insertion sort from the back.
  function Sort<T>(cmp: (T, T) -> int, s: seq<T>): (r: seq<T>)
    ensures |r| == |s|
  {
    if s == [] then [] else
      InsertLength(cmp, s[0], Sort(cmp, s[1..]));
      Insert(cmp, s[0], Sort(cmp, s[1..]))
  }

  lemma {:induction false} InsertLength<T>(cmp: (T, T) -> int, x: T, s: seq<T>)
    ensures |Insert(cmp, x, s)| == |s| + 1
  {
    if s != [] && cmp(x, s[0]) > 0 {
      InsertLength(cmp, x, s[1..]);
    }
  }

  // The merge: ties go to p.
  function Merge<T>(cmp: (T, T) -> int, p: seq<T>, q: seq<T>): seq<T> {
    if p == [] then q
    else if q == [] then p
    else if cmp(p[0], q[0]) <= 0 then [p[0]] + Merge(cmp, p[1..], q)
    else [q[0]] + Merge(cmp, p, q[1..])
  }

  lemma {:induction false} MergeInsert<T>(cmp: (T, T) -> int, dom: set<T>, x: T, p: seq<T>, q: seq<T>)
    requires Preorder(cmp, dom) && x in dom && Within(p, dom) && Within(q, dom)
    ensures Merge(cmp, Insert(cmp, x, p), q) == Insert(cmp, x, Merge(cmp, p, q))
    decreases |p| + |q|
  {
    var xp := Insert(cmp, x, p);
    if q == [] {
    } else if p == [] {
      assert Merge(cmp, [x], q) == if cmp(x, q[0]) <= 0 then [x] + q else [q[0]] + Merge(cmp, [x], q[1..]) by {
        assert [x][1..] == [];
      }
      if cmp(x, q[0]) > 0 {
        MergeInsert(cmp, dom, x, p, q[1..]);
      }
    } else if cmp(p[0], q[0]) <= 0 {
      MergeInsert(cmp, dom, x, p[1..], q);
      MergeInsert(cmp, dom, x, p, q[1..]);
      assert xp[1..] == if cmp(x, p[0]) <= 0 then p else Insert(cmp, x, p[1..]);
    } else {
      MergeInsert(cmp, dom, x, p, q[1..]);
      assert xp[1..] == if cmp(x, p[0]) <= 0 then p else Insert(cmp, x, p[1..]);
    }
  }

  lemma {:induction false} SortWithin<T>(cmp: (T, T) -> int, dom: set<T>, s: seq<T>)
    requires Within(s, dom)
    ensures Within(Sort(cmp, s), dom)
  {
    if s != [] {
      SortWithin(cmp, dom, s[1..]);
      InsertWithin(cmp, dom, s[0], Sort(cmp, s[1..]));
    }
  }

  lemma {:induction false} InsertWithin<T>(cmp: (T, T) -> int, dom: set<T>, x: T, s: seq<T>)
    requires x in dom && Within(s, dom)
    ensures Within(Insert(cmp, x, s), dom)
  {
    if s != [] && cmp(x, s[0]) > 0 {
      InsertWithin(cmp, dom, x, s[1..]);
    }
  }

  // Merging two sorted neighbours sorts their concatenation.
  lemma {:induction false} MergeSorted<T>(cmp: (T, T) -> int, dom: set<T>, a: seq<T>, b: seq<T>)
    requires Preorder(cmp, dom) && Within(a, dom) && Within(b, dom)
    ensures Merge(cmp, Sort(cmp, a), Sort(cmp, b)) == Sort(cmp, a + b)
  {
    if a == [] {
      assert a + b == b;
    } else {
      var x, a' := a[0], a[1..];
      assert (a + b)[0] == x && (a + b)[1..] == a' + b;
      assert Within(a', dom);
      var p, q := Sort(cmp, a'), Sort(cmp, b);
      SortWithin(cmp, dom, a');
      SortWithin(cmp, dom, b);
      calc {
        Merge(cmp, Sort(cmp, a), q);
        Merge(cmp, Insert(cmp, x, p), q);
        { MergeInsert(cmp, dom, x, p, q); }
        Insert(cmp, x, Merge(cmp, p, q));
        { MergeSorted(cmp, dom, a', b); }
        Insert(cmp, x, Sort(cmp, a' + b));
        Sort(cmp, a + b);
      }
    }
  }

  // s with every stretch of k elements sorted on its own.
  function Blocks<T>(cmp: (T, T) -> int, s: seq<T>, k: nat): (r: seq<T>)
    requires k > 0
    ensures |r| == |s|
  {
    if |s| <= k then Sort(cmp, s) else Sort(cmp, s[..k]) + Blocks(cmp, s[k..], k)
  }

  lemma {:induction false} BlocksOfOne<T>(cmp: (T, T) -> int, s: seq<T>)
    ensures Blocks(cmp, s, 1) == s
  {
    if |s| == 1 {
      assert Sort(cmp, s) == Insert(cmp, s[0], []);
    } else if |s| > 1 {
      BlocksOfOne(cmp, s[1..]);
      assert Sort(cmp, s[..1]) == Insert(cmp, s[0], []);
    }
  }

  lemma BlocksHead<T>(cmp: (T, T) -> int, a: seq<T>, rest: seq<T>, k: nat)
    requires k > 0 && |a| <= k && (rest != [] ==> |a| == k)
    ensures Blocks(cmp, a + rest, k) == Sort(cmp, a) + Blocks(cmp, rest, k)
  {
    if rest == [] {
      assert a + rest == a;
    } else {
      assert (a + rest)[..k] == a && (a + rest)[k..] == rest;
    }
  }

  // One merge of a pass: the first two runs, a and b before sorting, become
  // the first run of twice the length.
  lemma MergeStep<T>(cmp: (T, T) -> int, dom: set<T>, a: seq<T>, b: seq<T>, c: seq<T>, k: nat)
    requires Preorder(cmp, dom) && Within(a, dom) && Within(b, dom)
    requires k > 0 && IsCut(a + b + c, k, a, b, c)
    ensures Blocks(cmp, a + b + c, k) == Sort(cmp, a) + (Sort(cmp, b) + Blocks(cmp, c, k))
    ensures Blocks(cmp, a + b + c, 2 * k)
         == Merge(cmp, Sort(cmp, a), Sort(cmp, b)) + Blocks(cmp, c, 2 * k)
  {
    assert a + b + c == a + (b + c) == (a + b) + c;
    BlocksHead(cmp, a, b + c, k);
    BlocksHead(cmp, b, c, k);
    BlocksHead(cmp, a + b, c, 2 * k);
    MergeSorted(cmp, dom, a, b);
  }

  // ----- the reference is the stable sort -----

  ghost predicate Tied<T>(cmp: (T, T) -> int, x: T, y: T) {
    cmp(x, y) <= 0 && cmp(y, x) <= 0
  }

  // The elements of s that cmp ties with x, in order.
  ghost function Class<T>(cmp: (T, T) -> int, x: T, s: seq<T>): seq<T> {
    if s == [] then []
    else (if Tied(cmp, x, s[0]) then [s[0]] else []) + Class(cmp, x, s[1..])
  }

  ghost predicate Ordered<T>(cmp: (T, T) -> int, s: seq<T>) {
    forall i, j :: 0 <= i < j < |s| ==> cmp(s[i], s[j]) <= 0
  }

  // t is s sorted, with tied elements in their original order.
  ghost predicate StablySorted<T>(cmp: (T, T) -> int, dom: set<T>, s: seq<T>, t: seq<T>) {
    && multiset(t) == multiset(s)
    && Ordered(cmp, t)
    && forall x :: x in dom ==> Class(cmp, x, t) == Class(cmp, x, s)
  }

  lemma {:induction false} InsertContents<T>(cmp: (T, T) -> int, x: T, s: seq<T>)
    ensures multiset(Insert(cmp, x, s)) == multiset{x} + multiset(s)
  {
    if s != [] && cmp(x, s[0]) > 0 {
      InsertContents(cmp, x, s[1..]);
      assert s == [s[0]] + s[1..];
    }
  }

  lemma OrderedCons<T>(cmp: (T, T) -> int, x: T, s: seq<T>)
    requires Ordered(cmp, s) && forall i :: 0 <= i < |s| ==> cmp(x, s[i]) <= 0
    ensures Ordered(cmp, [x] + s)
  {
  }

  lemma {:induction false} InsertOrdered<T>(cmp: (T, T) -> int, dom: set<T>, x: T, s: seq<T>)
    requires Preorder(cmp, dom) && x in dom && Within(s, dom) && Ordered(cmp, s)
    ensures Ordered(cmp, Insert(cmp, x, s))
  {
    if s == [] || cmp(x, s[0]) <= 0 {
      assert forall i :: 0 < i < |s| ==> cmp(x, s[i]) <= 0;
      OrderedCons(cmp, x, s);
    } else {
      var r := Insert(cmp, x, s[1..]);
      InsertOrdered(cmp, dom, x, s[1..]);
      InsertContents(cmp, x, s[1..]);
      forall i | 0 <= i < |r| ensures cmp(s[0], r[i]) <= 0 {
        assert r[i] in multiset(r);
        assert r[i] == x || r[i] in s[1..];
      }
      OrderedCons(cmp, s[0], r);
    }
  }

  lemma {:induction false} InsertClass<T>(cmp: (T, T) -> int, dom: set<T>, x: T, s: seq<T>, y: T)
    requires Preorder(cmp, dom) && x in dom && Within(s, dom) && y in dom
    ensures Class(cmp, y, Insert(cmp, x, s)) == Class(cmp, y, [x] + s)
  {
    if s != [] && cmp(x, s[0]) > 0 {
      InsertClass(cmp, dom, x, s[1..], y);
      ClassSwap(cmp, dom, y, x, s);
    }
  }

  // Two neighbours that are not tied can change places within any class.
  lemma ClassSwap<T>(cmp: (T, T) -> int, dom: set<T>, y: T, x: T, s: seq<T>)
    requires Preorder(cmp, dom) && y in dom && x in dom && Within(s, dom)
    requires s != [] && cmp(x, s[0]) > 0
    requires Class(cmp, y, Insert(cmp, x, s[1..])) == Class(cmp, y, [x] + s[1..])
    ensures Class(cmp, y, Insert(cmp, x, s)) == Class(cmp, y, [x] + s)
  {
    var r' := Insert(cmp, x, s[1..]);
    assert Insert(cmp, x, s)[1..] == r' && ([x] + s)[1..] == s && ([x] + s[1..])[1..] == s[1..];
    assert !(Tied(cmp, y, x) && Tied(cmp, y, s[0]));
    assert [] + Class(cmp, y, s[1..]) == Class(cmp, y, s[1..]);
  }

  // The reference really is a stable sort ...
  lemma {:induction false} SortIsStable<T>(cmp: (T, T) -> int, dom: set<T>, s: seq<T>)
    requires Preorder(cmp, dom) && Within(s, dom)
    ensures StablySorted(cmp, dom, s, Sort(cmp, s))
  {
    if s != [] {
      var x, r := s[0], Sort(cmp, s[1..]);
      SortIsStable(cmp, dom, s[1..]);
      SortWithin(cmp, dom, s[1..]);
      InsertContents(cmp, x, r);
      InsertOrdered(cmp, dom, x, r);
      assert s == [x] + s[1..] && ([x] + r)[1..] == r;
      forall y | y in dom ensures Class(cmp, y, Sort(cmp, s)) == Class(cmp, y, s) {
        InsertClass(cmp, dom, x, r, y);
      }
    }
  }

  lemma {:induction false} ClassMember<T>(cmp: (T, T) -> int, x: T, s: seq<T>)
    ensures Class(cmp, x, s) != [] <==> exists i :: 0 <= i < |s| && Tied(cmp, x, s[i])
  {
    if s != [] {
      ClassMember(cmp, x, s[1..]);
      if i :| 0 <= i < |s[1..]| && Tied(cmp, x, s[1..][i]) {
        assert Tied(cmp, x, s[i + 1]);
      }
      if i :| 0 <= i < |s| && Tied(cmp, x, s[i]) {
        assert i > 0 ==> s[i] == s[1..][i - 1];
      }
    }
  }

  lemma HeadsTied<T>(cmp: (T, T) -> int, dom: set<T>, t: seq<T>, u: seq<T>)
    requires Preorder(cmp, dom) && Within(t, dom) && Within(u, dom)
    requires Ordered(cmp, t) && Ordered(cmp, u) && t != []
    requires forall x :: x in dom ==> Class(cmp, x, t) == Class(cmp, x, u)
    ensures u != [] && cmp(u[0], t[0]) <= 0
  {
    assert Tied(cmp, t[0], t[0]);
    ClassMember(cmp, t[0], t);
    ClassMember(cmp, t[0], u);
    var i :| 0 <= i < |u| && Tied(cmp, t[0], u[i]);
    assert cmp(u[0], u[i]) <= 0;
  }

  lemma HeadsEqual<T>(cmp: (T, T) -> int, t: seq<T>, u: seq<T>)
    requires t != [] && u != [] && cmp(t[0], u[0]) <= 0 && cmp(u[0], t[0]) <= 0
    requires cmp(t[0], t[0]) <= 0 && Class(cmp, t[0], t) == Class(cmp, t[0], u)
    ensures t[0] == u[0]
  {
    assert Class(cmp, t[0], t)[0] == t[0] && Class(cmp, t[0], u)[0] == u[0];
  }

  lemma ClassTail<T>(cmp: (T, T) -> int, x: T, t: seq<T>, u: seq<T>)
    requires t != [] && u != [] && t[0] == u[0] && Class(cmp, x, t) == Class(cmp, x, u)
    ensures Class(cmp, x, t[1..]) == Class(cmp, x, u[1..])
  {
    var c := if Tied(cmp, x, t[0]) then [t[0]] else [];
    assert Class(cmp, x, t)[|c|..] == Class(cmp, x, t[1..]);
    assert Class(cmp, x, u)[|c|..] == Class(cmp, x, u[1..]);
  }

  // ... and the only one: two orderings with the same classes are equal.
  lemma {:induction false} StableUnique<T>(cmp: (T, T) -> int, dom: set<T>, t: seq<T>, u: seq<T>)
    requires Preorder(cmp, dom) && Within(t, dom) && Within(u, dom)
    requires Ordered(cmp, t) && Ordered(cmp, u)
    requires forall x :: x in dom ==> Class(cmp, x, t) == Class(cmp, x, u)
    ensures t == u
  {
    if t != [] {
      HeadsTied(cmp, dom, t, u);
    }
    if u != [] {
      HeadsTied(cmp, dom, u, t);
      HeadsEqual(cmp, t, u);
      forall x | x in dom ensures Class(cmp, x, t[1..]) == Class(cmp, x, u[1..]) {
        ClassTail(cmp, x, t, u);
      }
      StableUnique(cmp, dom, t[1..], u[1..]);
      assert t == [t[0]] + t[1..] && u == [u[0]] + u[1..];
    }
  }

  // The first two stretches of k elements of s, and what follows them.
  ghost predicate IsCut<T>(s: seq<T>, k: nat, a: seq<T>, b: seq<T>, c: seq<T>) {
    && s == a + b + c && |a| <= k && |b| <= k
    && (b != [] || c != [] ==> |a| == k) && (c != [] ==> |b| == k)
  }

  lemma Cut<T>(s: seq<T>, k: nat) returns (a: seq<T>, b: seq<T>, c: seq<T>)
    requires k > 0 && s != []
    ensures IsCut(s, k, a, b, c) && |a| == (if k < |s| then k else |s|)
    ensures |c| == if 2 * k < |s| then |s| - 2 * k else 0
    ensures forall dom: set<T> :: Within(s, dom) ==> Within(a, dom) && Within(b, dom) && Within(c, dom)
  {
    var n := if k < |s| then k else |s|;
    var m := if 2 * k < |s| then 2 * k else |s|;
    a, b, c := s[..n], s[n..m], s[m..];
  }
}
