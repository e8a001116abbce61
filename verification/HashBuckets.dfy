// Model of inc/uthash.h, the bucket half. Every element of the table is on
// two doubly linked lists at once: the application-order list (prev, next)
// and the chain of its bucket (hhPrev, hhNext). This module never touches the
// first of them.
module HashBuckets {
  import opened Wrappers
  import opened Bits

  type Key = seq<bv8>
  type HashFn = Key -> nat

  // A user structure together with the UT_hash_handle embedded in it.
  class Elem {
    const key: Key
    var hashv: nat
    var prev: Elem?
    var next: Elem?
    var hhPrev: Elem?
    var hhNext: Elem?

    constructor (key: Key)
      ensures this.key == key
    {
      this.key := key;
    }
  }

  datatype Bucket = Bucket(head: Elem?, count: nat, expandMult: nat)

  ghost function At(s: seq<Elem>, i: int): Elem? {
    if 0 <= i < |s| then s[i] else null
  }

  // ----- bucket chains -----

  ghost predicate Chain(s: seq<Elem>)
    reads s`hhNext, s`hhPrev
  {
    && Distinct(s)
    && (forall i {:trigger s[i].hhNext} :: 0 <= i < |s| ==> s[i].hhNext == At(s, i + 1))
    && (forall i {:trigger s[i].hhPrev} :: 0 <= i < |s| ==> s[i].hhPrev == At(s, i - 1))
  }

  ghost predicate InBucket(h: HashFn, dom: set<Elem>, s: seq<Elem>, b: nat, n: nat)
    requires n > 0
  {
    forall i {:trigger s[i]} :: 0 <= i < |s| ==> s[i] in dom && h(s[i].key) % n == b
  }

  // Bucket b of a heads exactly the chain cs[b]; dom bounds the elements.
  ghost predicate Chains(h: HashFn, dom: set<Elem>, a: array<Bucket>, cs: seq<seq<Elem>>)
    reads a, dom`hhNext, dom`hhPrev
  {
    && |cs| == a.Length
    && forall b {:trigger cs[b]} :: 0 <= b < |cs| ==>
         a[b].head == At(cs[b], 0) && InBucket(h, dom, cs[b], b, |cs|) && Chain(cs[b])
  }

  ghost predicate Counts(a: seq<Bucket>, cs: seq<seq<Elem>>) {
    |a| == |cs| && forall b {:trigger cs[b]} :: 0 <= b < |cs| ==> a[b].count == |cs[b]|
  }

  // The chains after e is put in front of its own.
  ghost function Push(h: HashFn, cs: seq<seq<Elem>>, e: Elem): seq<seq<Elem>>
    requires cs != []
  {
    var b := h(e.key) % |cs|;
    cs[b := [e] + cs[b]]
  }

  // The pointer half of HASH_ADD_TO_BKT, also the last steps of a move in
  // HASH_EXPAND_BUCKETS.
  method LinkFront(h: HashFn, a: array<Bucket>, b: nat, e: Elem, ghost dom: set<Elem>, ghost cs: seq<seq<Elem>>)
    requires Chains(h, dom, a, cs) && b < a.Length && b == h(e.key) % a.Length
    requires e !in cs[b]
    modifies a, e`hhNext, e`hhPrev, dom`hhPrev
    ensures Chains(h, dom + {e}, a, Push(h, cs, e))
    ensures forall j :: 0 <= j < a.Length ==> a[j] == old(a[j]).(head := a[j].head)
  {
    var head := a[b].head;
    e.hhNext := head;
    e.hhPrev := null;
    if head != null {
      assert head == cs[b][0];
      head.hhPrev := e;
    }
    a[b] := a[b].(head := e);
    ghost var cs' := Push(h, cs, e);
    forall j | 0 <= j < |cs'|
      ensures a[j].head == At(cs'[j], 0)
      ensures InBucket(h, dom + {e}, cs'[j], j, |cs'|) && Chain(cs'[j])
    {
      if j != b {
        assert forall i :: 0 <= i < |cs[j]| ==> cs[j][i] != e && cs[j][i] != head;
      } else {
        assert forall i :: 0 < i < |cs'[b]| ==> cs'[b][i] == cs[b][i - 1];
      }
    }
  }

  ghost function Without<T>(s: seq<T>, k: nat): seq<T>
    requires k < |s|
  {
    s[..k] + s[k + 1..]
  }

  // The pointer half of HASH_DEL_IN_BKT. The removed element keeps its links.
  method Unlink(e: Elem, ghost s: seq<Elem>, ghost k: nat)
    requires Chain(s) && k < |s| && s[k] == e
    modifies s`hhNext, s`hhPrev
    ensures Chain(Without(s, k))
    ensures e.hhNext == old(e.hhNext) && e.hhPrev == old(e.hhPrev)
  {
    if e.hhPrev != null {
      assert e.hhPrev == s[k - 1];
      e.hhPrev.hhNext := e.hhNext;
    }
    if e.hhNext != null {
      assert e.hhNext == s[k + 1];
      e.hhNext.hhPrev := e.hhPrev;
    }
    ghost var t := Without(s, k);
    forall i {:trigger t[i]} | 0 <= i < |t|
      ensures t[i].hhNext == At(t, i + 1) && t[i].hhPrev == At(t, i - 1)
    {
      var i' := if i < k then i else i + 1;
      assert t[i] == s[i'] != e;
      assert t[i].hhNext == if i + 1 == k then At(s, k + 1) else At(s, i' + 1);
      assert t[i].hhPrev == if i == k then At(s, k - 1) else At(s, i' - 1);
    }
  }

  // HASH_DEL_IN_BKT
  method DelInBkt(h: HashFn, a: array<Bucket>, b: nat, e: Elem,
                  ghost dom: set<Elem>, ghost cs: seq<seq<Elem>>, ghost k: nat)
    requires Chains(h, dom, a, cs) && Counts(a[..], cs) && b < a.Length
    requires k < |cs[b]| && cs[b][k] == e
    modifies a, dom`hhNext, dom`hhPrev
    ensures Chains(h, dom - {e}, a, cs[b := Without(cs[b], k)])
    ensures Counts(a[..], cs[b := Without(cs[b], k)])
    ensures forall j :: 0 <= j < a.Length ==> a[j].expandMult == old(a[j].expandMult)
  {
    hide Chain;
    ghost var s, cs' := cs[b], cs[b := Without(cs[b], k)];
    HeadWithout(s, k);
    forall j | 0 <= j < |cs| && j != b ensures forall i :: 0 <= i < |cs[j]| ==> cs[j][i] !in s {
      ChainsApart(h, dom, cs, j, b);
    }
    a[b] := a[b].(count := a[b].count - 1);
    if a[b].head == e {
      a[b] := a[b].(head := e.hhNext);
    }
    Unlink(e, s, k);
    InBucketWithout(h, dom, s, b, |cs|, k);
    forall j | 0 <= j < |cs'| ensures InBucket(h, dom - {e}, cs'[j], j, |cs'|) && Chain(cs'[j]) {
      if j != b {
        assert InBucket(h, dom, cs[j], j, |cs|);
      }
    }
  }

  lemma HeadWithout(s: seq<Elem>, k: nat)
    requires Chain(s) && k < |s|
    ensures Distinct(s)
    ensures At(Without(s, k), 0) == if s[0] == s[k] then s[k].hhNext else s[0]
  {
    assert s[k].hhNext == At(s, k + 1);
  }

  lemma ChainsApart(h: HashFn, dom: set<Elem>, cs: seq<seq<Elem>>, j: nat, b: nat)
    requires j < |cs| && b < |cs| && j != b
    requires InBucket(h, dom, cs[j], j, |cs|) && InBucket(h, dom, cs[b], b, |cs|)
    ensures forall i :: 0 <= i < |cs[j]| ==> cs[j][i] !in cs[b]
  {
  }

  lemma InBucketWithout(h: HashFn, dom: set<Elem>, s: seq<Elem>, b: nat, n: nat, k: nat)
    requires n > 0 && k < |s| && Distinct(s) && InBucket(h, dom, s, b, n)
    ensures InBucket(h, dom - {s[k]}, Without(s, k), b, n)
  {
    var t := Without(s, k);
    assert forall i :: 0 <= i < |t| ==> t[i] == s[if i < k then i else i + 1] != s[k];
  }

  // ----- bucket expansion -----

  function Over(n: nat, ideal: nat): nat {
    if n > ideal then n - ideal else 0
  }

  function Multiplier(n: nat, ideal: nat): nat
    requires ideal > 0
  {
    if n > ideal then n / ideal else 0
  }

  // How many elements sit beyond the ideal position of their chain.
  ghost function Excess(cs: seq<seq<Elem>>, ideal: nat): nat {
    if cs == [] then 0 else Excess(cs[..|cs| - 1], ideal) + Over(|cs[|cs| - 1]|, ideal)
  }

  ghost predicate Stats(a: seq<Bucket>, cs: seq<seq<Elem>>, ideal: nat, nonideal: nat)
    requires ideal > 0
  {
    && Counts(a, cs)
    && nonideal == Excess(cs, ideal)
    && forall b {:trigger cs[b]} :: 0 <= b < |cs| ==>
         a[b].expandMult == Multiplier(|cs[b]|, ideal)
  }

  lemma {:induction false} ExcessPush(cs: seq<seq<Elem>>, b: nat, s: seq<Elem>, ideal: nat)
    requires b < |cs| && |s| == |cs[b]| + 1
    ensures Excess(cs[b := s], ideal) == Excess(cs, ideal) + if |s| > ideal then 1 else 0
  {
    var n := |cs| - 1;
    if b == n {
      assert cs[b := s][..n] == cs[..n];
    } else {
      assert cs[b := s][..n] == cs[..n][b := s];
      ExcessPush(cs[..n], b, s, ideal);
    }
  }

  lemma StatsPush(h: HashFn, a: seq<Bucket>, a': seq<Bucket>, cs: seq<seq<Elem>>, e: Elem, ideal: nat, nonideal: nat)
    requires ideal > 0 && cs != [] && Stats(a, cs, ideal, nonideal) && |a'| == |a|
    requires forall j {:trigger a'[j]} :: 0 <= j < |a| && j != h(e.key) % |cs| ==>
               a'[j].count == a[j].count && a'[j].expandMult == a[j].expandMult
    requires var b := h(e.key) % |cs|; var n := a[b].count + 1;
             a'[b].count == n && a'[b].expandMult == if n > ideal then n / ideal else a[b].expandMult
    ensures var n := a[h(e.key) % |cs|].count + 1;
            Stats(a', Push(h, cs, e), ideal, nonideal + if n > ideal then 1 else 0)
  {
    var b := h(e.key) % |cs|;
    ExcessPush(cs, b, [e] + cs[b], ideal);
  }

  // The body of the redistribution loop: one element goes to its new bucket.
  method Place(h: HashFn, a: array<Bucket>, log2: nat, e: Elem, ideal: nat, nonideal: nat,
               ghost dom: set<Elem>, ghost cs: seq<seq<Elem>>)
    returns (nonideal': nat)
    requires ideal > 0 && a.Length == Pow2(log2) && e.hashv == h(e.key)
    requires Chains(h, dom, a, cs) && Stats(a[..], cs, ideal, nonideal) && e !in dom
    modifies a, e`hhNext, e`hhPrev, dom`hhPrev
    ensures Chains(h, dom + {e}, a, Push(h, cs, e))
    ensures Stats(a[..], Push(h, cs, e), ideal, nonideal')
  {
    ghost var before := a[..];
    AndMask(e.hashv, log2);
    var bkt := And(e.hashv, a.Length - 1);
    nonideal' := nonideal;
    a[bkt] := a[bkt].(count := a[bkt].count + 1);
    if a[bkt].count > ideal {
      nonideal' := nonideal' + 1;
      a[bkt] := a[bkt].(expandMult := a[bkt].count / ideal);
    }
    LinkFront(h, a, bkt, e, dom, cs);
    StatsPush(h, before, a[..], cs, e, ideal, nonideal);
  }

  ghost function PushAll(h: HashFn, cs: seq<seq<Elem>>, s: seq<Elem>): (r: seq<seq<Elem>>)
    requires cs != []
    ensures |r| == |cs|
    decreases |s|
  {
    if s == [] then cs else PushAll(h, Push(h, cs, s[0]), s[1..])
  }

  // The members of s that hash to bucket b of n, last first.
  ghost function Picked(h: HashFn, s: seq<Elem>, b: nat, n: nat): seq<Elem>
    requires n > 0
  {
    if s == [] then []
    else Picked(h, s[1..], b, n) + if h(s[0].key) % n == b then [s[0]] else []
  }

  lemma {:induction false} PushAllAt(h: HashFn, cs: seq<seq<Elem>>, s: seq<Elem>, b: nat)
    requires b < |cs|
    ensures PushAll(h, cs, s)[b] == Picked(h, s, b, |cs|) + cs[b]
    decreases |s|
  {
    if s == [] {
      assert [] + cs[b] == cs[b];
    } else {
      PushAllAt(h, Push(h, cs, s[0]), s[1..], b);
      var rest := Picked(h, s[1..], b, |cs|);
      assert rest + ([s[0]] + cs[b]) == (rest + [s[0]]) + cs[b];
      assert rest + [] == rest;
    }
  }

  ghost function Set(s: seq<Elem>): set<Elem> {
    set x | x in s
  }

  // The part of an old chain not yet moved: still linked forwards.
  ghost predicate Pending(h: HashFn, s: seq<Elem>)
    reads Set(s)`hhNext, Set(s)`hashv
  {
    && Distinct(s)
    && forall i {:trigger s[i]} :: 0 <= i < |s| ==>
         s[i] in Set(s) && s[i].hhNext == At(s, i + 1) && s[i].hashv == h(s[i].key)
  }

  lemma SetTail(s: seq<Elem>)
    requires s != []
    ensures Set(s) == {s[0]} + Set(s[1..])
  {
    assert s == [s[0]] + s[1..];
  }

  lemma PendingTail(h: HashFn, s: seq<Elem>)
    requires Pending(h, s) && s != []
    ensures Pending(h, s[1..]) && s[0].hhNext == At(s[1..], 0) && s[0].hashv == h(s[0].key)
    ensures Set(s) == {s[0]} + Set(s[1..]) && s[0] !in Set(s[1..])
  {
    SetTail(s);
    var t := s[1..];
    forall i {:trigger t[i]} | 0 <= i < |t|
      ensures t[i] in Set(t) && t[i].hhNext == At(t, i + 1) && t[i].hashv == h(t[i].key) && t[i] != s[0]
    {
      assert t[i] == s[i + 1];
    }
  }

  // One turn of the inner loop of HASH_EXPAND_BUCKETS.
  method MoveOne(h: HashFn, a: array<Bucket>, log2: nat, thh: Elem, ideal: nat, nonideal: nat,
                 ghost todo: seq<Elem>, ghost done: set<Elem>, ghost ns: seq<seq<Elem>>)
    returns (nxt: Elem?, nonideal': nat)
    requires ideal > 0 && a.Length == Pow2(log2) && todo != [] && thh == todo[0]
    requires Pending(h, todo) && done !! Set(todo)
    requires Chains(h, done, a, ns) && Stats(a[..], ns, ideal, nonideal)
    modifies a, thh`hhNext, thh`hhPrev, done`hhPrev
    ensures nxt == At(todo[1..], 0) && Pending(h, todo[1..])
    ensures Chains(h, done + {thh}, a, Push(h, ns, thh))
    ensures Stats(a[..], Push(h, ns, thh), ideal, nonideal')
  {
    assert Set(todo) == {thh} + Set(todo[1..]) && thh !in Set(todo[1..]) by { PendingTail(h, todo); }
    PendingTail(h, todo);
    hide Chains, Stats, Push, Pending;
    nxt := thh.hhNext;
    nonideal' := Place(h, a, log2, thh, ideal, nonideal, done, ns);
  }

  // The inner loop: empty one old chain.
  method MoveChain(h: HashFn, a: array<Bucket>, log2: nat, head: Elem?, ideal: nat, nonideal: nat,
                   ghost s: seq<Elem>, ghost dom: set<Elem>, ghost cs: seq<seq<Elem>>)
    returns (nonideal': nat)
    requires ideal > 0 && a.Length == Pow2(log2) && head == At(s, 0)
    requires Pending(h, s) && Set(s) !! dom
    requires Chains(h, dom, a, cs) && Stats(a[..], cs, ideal, nonideal)
    modifies a, (dom + Set(s))`hhNext, (dom + Set(s))`hhPrev
    ensures Chains(h, dom + Set(s), a, PushAll(h, cs, s))
    ensures Stats(a[..], PushAll(h, cs, s), ideal, nonideal')
  {
    assert cs != [] && Set([]) == {};
    ghost var all := dom + Set(s);
    hide Chains, Stats, Push, Pending, PushAll, Set;
    nonideal' := nonideal;
    var thh := head;
    ghost var todo, done, ns := s, dom, cs;
    while thh != null
      invariant thh == At(todo, 0) && Pending(h, todo)
      invariant done + Set(todo) == all && done !! Set(todo)
      invariant ns != [] && PushAll(h, ns, todo) == PushAll(h, cs, s)
      invariant Chains(h, done, a, ns) && Stats(a[..], ns, ideal, nonideal')
      decreases |todo|
    {
      var e: Elem := thh;
      Taken(h, todo, done, ns);
      thh, nonideal' := MoveOne(h, a, log2, e, ideal, nonideal', todo, done, ns);
      todo, done, ns := todo[1..], done + {e}, Push(h, ns, e);
    }
    assert todo == [] && done == all;
    assert PushAll(h, ns, []) == ns by { PushNone(h, ns); }
  }

  lemma PushNone(h: HashFn, cs: seq<seq<Elem>>)
    requires cs != []
    ensures PushAll(h, cs, []) == cs
  {
  }

  lemma Taken(h: HashFn, todo: seq<Elem>, done: set<Elem>, cs: seq<seq<Elem>>)
    requires todo != [] && Pending(h, todo) && done !! Set(todo) && cs != []
    ensures done + {todo[0]} + Set(todo[1..]) == done + Set(todo) && done + {todo[0]} !! Set(todo[1..])
    ensures todo[0] in Set(todo) && Push(h, cs, todo[0]) != []
    ensures PushAll(h, cs, todo) == PushAll(h, Push(h, cs, todo[0]), todo[1..])
  {
    PendingTail(h, todo);
  }

  // The old bucket whose elements may land in new bucket b of 2 * n.
  function Origin(b: nat, n: nat): nat {
    if b < n then b else b - n
  }

  lemma ModHalf(x: nat, n: nat)
    requires n > 0
    ensures Origin(x % (2 * n), n) == x % n
  {
    Halve(x, n, x / (2 * n), x % (2 * n));
  }

  lemma Halve(x: nat, n: nat, q: nat, r: nat)
    requires n > 0 && r < 2 * n && x == (2 * n) * q + r
    ensures Origin(r, n) == x % n
  {
    if r < n {
      assert x == n * (2 * q) + r;
      DivUnique(x, n, 2 * q, r);
    } else {
      assert n * (2 * q + 1) == (2 * n) * q + n;
      DivUnique(x, n, 2 * q + 1, r - n);
    }
  }

  lemma {:induction false} PickedNone(h: HashFn, s: seq<Elem>, b: nat, n: nat)
    requires n > 0 && forall i :: 0 <= i < |s| ==> h(s[i].key) % n != b
    ensures Picked(h, s, b, n) == []
  {
    if s != [] {
      PickedNone(h, s[1..], b, n);
    }
  }

  lemma PickedElsewhere(h: HashFn, dom: set<Elem>, s: seq<Elem>, i: nat, b: nat, n: nat)
    requires n > 0 && InBucket(h, dom, s, i, n) && Origin(b, n) != i && b < 2 * n
    ensures Picked(h, s, b, 2 * n) == []
  {
    forall j {:trigger s[j]} | 0 <= j < |s| ensures h(s[j].key) % (2 * n) != b {
      ModHalf(h(s[j].key), n);
    }
    PickedNone(h, s, b, 2 * n);
  }

  // The chains after doubling: bucket b takes, from the one old chain that can
  // hold them, the elements that hash to b, in reverse.
  ghost function Redistributed(h: HashFn, cs: seq<seq<Elem>>): seq<seq<Elem>>
    requires cs != []
  {
    seq(2 * |cs|, b requires 0 <= b < 2 * |cs| => Picked(h, cs[Origin(b, |cs|)], b, 2 * |cs|))
  }

  // The new chains once old buckets 0..i have been emptied.
  ghost predicate Halfway(h: HashFn, cs: seq<seq<Elem>>, ns: seq<seq<Elem>>, i: nat) {
    && |ns| == 2 * |cs| > 0
    && forall b {:trigger ns[b]} :: 0 <= b < |ns| ==>
         ns[b] == if Origin(b, |cs|) < i then Redistributed(h, cs)[b] else []
  }

  lemma HalfwayStep(h: HashFn, dom: set<Elem>, cs: seq<seq<Elem>>, ns: seq<seq<Elem>>, i: nat)
    requires Halfway(h, cs, ns, i) && i < |cs| && InBucket(h, dom, cs[i], i, |cs|)
    ensures Halfway(h, cs, PushAll(h, ns, cs[i]), i + 1)
  {
    var ns' := PushAll(h, ns, cs[i]);
    forall b | 0 <= b < |ns|
      ensures ns'[b] == if Origin(b, |cs|) < i + 1 then Redistributed(h, cs)[b] else []
    {
      PushAllAt(h, ns, cs[i], b);
      if Origin(b, |cs|) == i {
        assert ns'[b] == Picked(h, cs[i], b, |ns|);
      } else {
        PickedElsewhere(h, dom, cs[i], i, b, |cs|);
        assert [] + ns[b] == ns[b];
      }
    }
  }

  ghost predicate TwoInARow(e: seq<bool>) {
    exists i :: 0 <= i < |e| - 1 && BothFrom(e, i)
  }

  ghost predicate BothFrom(e: seq<bool>, i: nat)
    requires i < |e| - 1
  {
    e[i] && e[i + 1]
  }

  ghost function Trailing(e: seq<bool>): nat {
    if e == [] || !e[|e| - 1] then 0 else 1 + Trailing(e[..|e| - 1])
  }

  // What decides about expansion: the logarithm of the number of buckets, the
  // multipliers of the buckets, the statistics of the last expansion, noexpand,
  // and the record of expansions.
  datatype Growth = Growth(
    log2: nat, mults: seq<nat>, ideal: nat, nonideal: nat, noexpand: nat, expansions: seq<bool>)

  ghost function Mults(a: seq<Bucket>): (m: seq<nat>)
    ensures |m| == |a|
    ensures forall b {:trigger m[b]} :: 0 <= b < |a| ==> m[b] == a[b].expandMult
  {
    seq(|a|, b requires 0 <= b < |a| => a[b].expandMult)
  }

  // One expansion, to chains ns of a table of so many items.
  ghost predicate Expanded(g: Growth, g': Growth, ns: seq<seq<Elem>>, items: nat) {
    && g.noexpand != 1 && g'.log2 == g.log2 + 1
    && g'.ideal == CeilShift(items, g'.log2) > 0 && g'.nonideal == Excess(ns, g'.ideal)
    && |g'.mults| == |ns|
    && (forall b {:trigger ns[b]} :: 0 <= b < |ns| ==> g'.mults[b] == Multiplier(|ns[b]|, g'.ideal))
    && g'.expansions == g.expansions + [g'.nonideal > items / 2]
    && g'.noexpand == (if TwoInARow(g'.expansions) then 1 else 0)
  }

  // Element e is added to chains cs: the table expands exactly when its chain
  // reaches the threshold and noexpand is off.
  ghost predicate GrowsAsDue(h: HashFn, g: Growth, g': Growth, cs: seq<seq<Elem>>, cs': seq<seq<Elem>>,
                             e: Elem, items: nat) {
    && cs != [] && |g.mults| == |cs|
    && var b, ps := h(e.key) % |cs|, Push(h, cs, e);
       if |cs[b]| + 1 >= (g.mults[b] + 1) * 10 && g.noexpand != 1
       then cs' == Redistributed(h, ps) && Expanded(g, g', cs', items)
       else cs' == ps && g' == g
  }

  // The allocation and memset of a bucket array.
  method ZeroedBuckets(n: nat) returns (a: array<Bucket>)
    ensures fresh(a) && a.Length == n
    ensures forall j :: 0 <= j < n ==> a[j] == Bucket(null, 0, 0)
  {
    a := new Bucket[n](_ => Bucket(null, 0, 0));
  }

  // UT_hash_table
  class Table {
    var buckets: array<Bucket>
    var numBuckets: nat
    var log2NumBuckets: nat
    var numItems: nat
    var tail: Elem?
    var idealChainMaxlen: nat
    var nonidealItems: nat
    var ineffExpands: nat
    var noexpand: nat
    // One entry per expansion so far: was it ineffective?
    ghost var expansions: seq<bool>

    // HASH_MAKE_TABLE
    constructor (first: Elem)
      ensures Sized() && Policy() && numBuckets == 32 && numItems == 0 && tail == first
      ensures fresh(buckets) && expansions == []
      ensures forall j :: 0 <= j < 32 ==> buckets[j] == Bucket(null, 0, 0)
    {
      tail := first;
      numBuckets, log2NumBuckets, numItems := 32, 5, 0;
      idealChainMaxlen, nonidealItems, ineffExpands, noexpand := 0, 0, 0, 0;
      expansions := [];
      buckets := new Bucket[32](_ => Bucket(null, 0, 0));
      new;
      assert Pow2(5) == 32 by {
        assert Pow2(3) == 8;
      }
    }

    ghost predicate Sized()
      reads `buckets, `numBuckets, `log2NumBuckets
    {
      buckets.Length == numBuckets == Pow2(log2NumBuckets)
    }

    // Every expansion since the table was made is on record. Expansion is
    // inhibited exactly from two consecutive ineffective ones on, and then the
    // record does not grow any more.
    ghost predicate Policy()
      reads `log2NumBuckets, `ineffExpands, `noexpand, `expansions
    {
      && log2NumBuckets == 5 + |expansions|
      && ineffExpands == Trailing(expansions)
      && noexpand == (if TwoInARow(expansions) then 1 else 0)
      && (expansions != [] ==> !TwoInARow(expansions[..|expansions| - 1]))
    }

    ghost function Stage(): Growth
      reads this, buckets
    {
      Growth(log2NumBuckets, Mults(buckets[..]), idealChainMaxlen, nonidealItems, noexpand, expansions)
    }

    // HASH_EXPAND_BUCKETS
    method Expand(h: HashFn, ghost dom: set<Elem>, ghost cs: seq<seq<Elem>>)
      returns (ghost ns: seq<seq<Elem>>)
      requires Sized() && Policy() && noexpand != 1 && numItems > 0
      requires Chains(h, dom, buckets, cs)
      requires forall x :: x in dom ==> x.hashv == h(x.key)
      modifies `buckets, `numBuckets, `log2NumBuckets, `idealChainMaxlen, `nonidealItems
      modifies `ineffExpands, `noexpand, `expansions
      modifies dom`hhNext, dom`hhPrev
      ensures fresh(buckets) && Sized() && log2NumBuckets == old(log2NumBuckets) + 1
      ensures ns == Redistributed(h, cs) && Chains(h, dom, buckets, ns)
      ensures idealChainMaxlen == CeilShift(numItems, log2NumBuckets) > 0
      ensures Stats(buckets[..], ns, idealChainMaxlen, nonidealItems)
      ensures Policy() && Expanded(old(Stage()), Stage(), ns, numItems)
    {
      hide Chains, Redistributed, Excess, CeilShift, Trailing;
      var newBuckets;
      newBuckets, ns := Rehash(h, dom, cs);
      Install(newBuckets);
    }

    // The body of HASH_EXPAND_BUCKETS up to the switch to the new array.
    method Rehash(h: HashFn, ghost dom: set<Elem>, ghost cs: seq<seq<Elem>>)
      returns (newBuckets: array<Bucket>, ghost ns: seq<seq<Elem>>)
      requires Sized() && numItems > 0
      requires Chains(h, dom, buckets, cs)
      requires forall x :: x in dom ==> x.hashv == h(x.key)
      modifies this`idealChainMaxlen, this`nonidealItems, dom`hhNext, dom`hhPrev
      ensures fresh(newBuckets) && newBuckets.Length == 2 * numBuckets
      ensures ns == Redistributed(h, cs) && Chains(h, dom, newBuckets, ns)
      ensures idealChainMaxlen == CeilShift(numItems, log2NumBuckets + 1) > 0
      ensures Stats(newBuckets[..], ns, idealChainMaxlen, nonidealItems)
    {
      hide Chains, Stats, Redistributed, CeilShift;
      newBuckets := ZeroedBuckets(2 * numBuckets);
      SetIdeal();
      nonidealItems, ns := Redistribute(h, buckets, newBuckets, log2NumBuckets + 1, idealChainMaxlen, dom, cs);
    }

    method SetIdeal()
      requires Sized() && numItems > 0
      modifies this`idealChainMaxlen
      ensures idealChainMaxlen == CeilShift(numItems, log2NumBuckets + 1) > 0
    {
      idealChainMaxlen := Shr(numItems, log2NumBuckets + 1)
        + if And(numItems, numBuckets * 2 - 1) != 0 then 1 else 0;
      CeilPositive(numItems, log2NumBuckets + 1);
    }

    // HASH_ADD_TO_BKT, with HASH_TO_BKT before it.
    method AddToBkt(h: HashFn, e: Elem, ghost dom: set<Elem>, ghost cs: seq<seq<Elem>>)
      returns (ghost cs': seq<seq<Elem>>)
      requires Sized() && Policy() && numItems > 0
      requires Chains(h, dom, buckets, cs) && Counts(buckets[..], cs)
      requires e !in dom && forall x :: x in dom + {e} ==> x.hashv == h(x.key)
      modifies `buckets, `numBuckets, `log2NumBuckets, `idealChainMaxlen, `nonidealItems
      modifies `ineffExpands, `noexpand, `expansions
      modifies buckets, (dom + {e})`hhNext, (dom + {e})`hhPrev
      ensures Sized() && Policy()
      ensures buckets == old(buckets) || fresh(buckets)
      ensures Chains(h, dom + {e}, buckets, cs') && Counts(buckets[..], cs')
      ensures GrowsAsDue(h, old(Stage()), Stage(), cs, cs', e, numItems)
    {
      AndMask(e.hashv, log2NumBuckets);
      var bkt := And(e.hashv, numBuckets - 1);
      buckets[bkt] := buckets[bkt].(count := buckets[bkt].count + 1);
      LinkFront(h, buckets, bkt, e, dom, cs);
      cs' := Push(h, cs, e);
      if buckets[bkt].count >= (buckets[bkt].expandMult + 1) * 10 && noexpand != 1 {
        cs' := Expand(h, dom + {e}, cs');
      }
    }

    // The tail of HASH_EXPAND_BUCKETS: switch over and judge the expansion.
    method Install(newBuckets: array<Bucket>)
      requires Sized() && Policy() && noexpand != 1 && newBuckets.Length == 2 * numBuckets
      modifies this`buckets, this`numBuckets, this`log2NumBuckets, this`ineffExpands, this`noexpand, this`expansions
      ensures Sized() && buckets == newBuckets && log2NumBuckets == old(log2NumBuckets) + 1
      ensures Policy() && expansions == old(expansions) + [nonidealItems > numItems / 2]
    {
      hide TwoInARow, Trailing;
      numBuckets := numBuckets * 2;
      log2NumBuckets := log2NumBuckets + 1;
      buckets := newBuckets;
      ineffExpands := if nonidealItems > Shr(numItems, 1) then ineffExpands + 1 else 0;
      if ineffExpands > 1 {
        noexpand := 1;
      }
      assert Shr(numItems, 1) == numItems / 2;
      PolicyStep(expansions, nonidealItems > numItems / 2);
      expansions := expansions + [nonidealItems > numItems / 2];
    }
  }

  // What Expand computes as the ideal chain length is ceil(items / buckets).
  lemma IdealIsCeil(t: Table)
    requires t.Sized()
    ensures IsCeil(CeilShift(t.numItems, t.log2NumBuckets), t.numItems, t.numBuckets)
  {
    CeilDiv(t.numItems, t.log2NumBuckets);
  }

  // Inhibited, in a table that followed the policy throughout, means exactly that
  // the last two expansions were ineffective.
  lemma InhibitedIff(t: Table)
    requires t.Policy()
    ensures var e := t.expansions; t.noexpand == 1 <==> |e| >= 2 && e[|e| - 2] && e[|e| - 1]
  {
    var e := t.expansions;
    if e != [] {
      var k := |e| - 1;
      assert e == e[..k] + [e[k]];
      PolicyStep(e[..k], e[k]);
    }
  }

  lemma PolicyStep(e: seq<bool>, b: bool)
    ensures Trailing(e + [b]) == if b then Trailing(e) + 1 else 0
    ensures TwoInARow(e + [b]) <==> TwoInARow(e) || (b && Trailing(e) > 0)
    ensures TwoInARow(e) <==> TwoInARow((e + [b])[..|e|])
  {
    var t := e + [b];
    assert t[..|t| - 1] == e == t[..|e|];
    TrailingLast(e);
    hide Trailing;
    assert forall i :: 0 <= i < |e| - 1 ==> BothFrom(t, i) == BothFrom(e, i);
    assert |e| > 0 ==> BothFrom(t, |e| - 1) == (e[|e| - 1] && b);
  }

  lemma TrailingLast(e: seq<bool>)
    ensures Trailing(e) > 0 <==> e != [] && e[|e| - 1]
  {
  }

  // The outer loop of HASH_EXPAND_BUCKETS.
  method Redistribute(h: HashFn, a: array<Bucket>, a': array<Bucket>, log2: nat, ideal: nat,
                      ghost dom: set<Elem>, ghost cs: seq<seq<Elem>>)
    returns (nonideal: nat, ghost ns: seq<seq<Elem>>)
    requires ideal > 0 && a != a' && a'.Length == 2 * a.Length == Pow2(log2)
    requires forall j :: 0 <= j < a'.Length ==> a'[j] == Bucket(null, 0, 0)
    requires Chains(h, dom, a, cs)
    requires forall x :: x in dom ==> x.hashv == h(x.key)
    modifies a', dom`hhNext, dom`hhPrev
    ensures ns == Redistributed(h, cs)
    ensures Chains(h, dom, a', ns) && Stats(a'[..], ns, ideal, nonideal)
  {
    hide Stats, Halfway, Pending, Redistributed, PushAll, Pow2;
    nonideal, ns := 0, seq(2 * |cs|, _ => []);
    ghost var done: set<Elem> := {};
    AllEmpty(h, a', cs, ns, ideal);
    AllPending(h, dom, a, cs);
    var i := 0;
    while i < a.Length
      invariant 0 <= i <= |cs|
      invariant done <= dom && forall x :: x in done ==> h(x.key) % |cs| < i
      invariant forall j {:trigger cs[j]} :: i <= j < |cs| ==> Pending(h, cs[j])
      invariant Halfway(h, cs, ns, i)
      invariant Chains(h, done, a', ns)
      invariant Stats(a'[..], ns, ideal, nonideal)
    {
      nonideal := MoveChain(h, a', log2, a[i].head, ideal, nonideal, cs[i], done, ns);
      HalfwayStep(h, dom, cs, ns, i);
      done := done + Set(cs[i]);
      ns := PushAll(h, ns, cs[i]);
      i := i + 1;
    }
    HalfwayDone(h, cs, ns);
    ChainsWiden(h, done, dom, a', ns);
  }

  lemma AllEmpty(h: HashFn, a: array<Bucket>, cs: seq<seq<Elem>>, ns: seq<seq<Elem>>, ideal: nat)
    requires cs != [] && |ns| == 2 * |cs| == a.Length && ideal > 0
    requires forall j :: 0 <= j < a.Length ==> a[j] == Bucket(null, 0, 0) && ns[j] == []
    ensures Chains(h, {}, a, ns) && Stats(a[..], ns, ideal, 0) && Halfway(h, cs, ns, 0)
  {
    ExcessNone(ns, ideal);
  }

  lemma AllPending(h: HashFn, dom: set<Elem>, a: array<Bucket>, cs: seq<seq<Elem>>)
    requires Chains(h, dom, a, cs) && forall x :: x in dom ==> x.hashv == h(x.key)
    ensures forall j {:trigger cs[j]} :: 0 <= j < |cs| ==>
              Pending(h, cs[j]) && Set(cs[j]) <= dom && forall x :: x in Set(cs[j]) ==> h(x.key) % |cs| == j
  {
    forall j {:trigger cs[j]} | 0 <= j < |cs|
      ensures Pending(h, cs[j]) && Set(cs[j]) <= dom && forall x :: x in Set(cs[j]) ==> h(x.key) % |cs| == j
    {
      assert InBucket(h, dom, cs[j], j, |cs|);
    }
  }

  lemma HalfwayDone(h: HashFn, cs: seq<seq<Elem>>, ns: seq<seq<Elem>>)
    requires Halfway(h, cs, ns, |cs|)
    ensures ns == Redistributed(h, cs)
  {
  }

  lemma ChainsWiden(h: HashFn, dom: set<Elem>, dom': set<Elem>, a: array<Bucket>, cs: seq<seq<Elem>>)
    requires Chains(h, dom, a, cs) && dom <= dom'
    ensures Chains(h, dom', a, cs)
  {
  }

  lemma {:induction false} ExcessNone(cs: seq<seq<Elem>>, ideal: nat)
    requires forall b :: 0 <= b < |cs| ==> cs[b] == []
    ensures Excess(cs, ideal) == 0
  {
    if cs != [] {
      ExcessNone(cs[..|cs| - 1], ideal);
    }
  }

  // ----- every element is on the chain its hash selects -----

  ghost predicate Complete(h: HashFn, dom: set<Elem>, cs: seq<seq<Elem>>)
    requires cs != []
  {
    forall x {:trigger x in dom} :: x in dom ==> x in cs[h(x.key) % |cs|]
  }

  lemma {:induction false} PickedMember(h: HashFn, s: seq<Elem>, b: nat, n: nat, x: Elem)
    requires n > 0
    ensures x in Picked(h, s, b, n) <==> x in s && h(x.key) % n == b
  {
    if s != [] {
      PickedMember(h, s[1..], b, n, x);
      assert x in s <==> x == s[0] || x in s[1..];
    }
  }

  // Doubling loses no element and moves each one to the chain that the longer
  // mask selects.
  lemma RedistributedComplete(h: HashFn, dom: set<Elem>, cs: seq<seq<Elem>>)
    requires cs != [] && Complete(h, dom, cs)
    ensures Complete(h, dom, Redistributed(h, cs))
  {
    forall x | x in dom ensures x in Redistributed(h, cs)[h(x.key) % (2 * |cs|)] {
      var n := |cs|;
      ModHalf(h(x.key), n);
      PickedMember(h, cs[h(x.key) % n], h(x.key) % (2 * n), 2 * n, x);
    }
  }

  lemma PushComplete(h: HashFn, dom: set<Elem>, cs: seq<seq<Elem>>, e: Elem)
    requires cs != [] && Complete(h, dom, cs)
    ensures Push(h, cs, e) != [] && Complete(h, dom + {e}, Push(h, cs, e))
  {
  }

  lemma WithoutComplete(h: HashFn, dom: set<Elem>, cs: seq<seq<Elem>>, b: nat, k: nat)
    requires cs != [] && Complete(h, dom, cs) && b < |cs| && k < |cs[b]|
    ensures Complete(h, dom - {cs[b][k]}, cs[b := Without(cs[b], k)])
  {
    var e := cs[b][k];
    forall x | x in dom - {e} ensures x in cs[b := Without(cs[b], k)][h(x.key) % |cs|] {
      if h(x.key) % |cs| == b {
        var i :| 0 <= i < |cs[b]| && cs[b][i] == x;
        assert Without(cs[b], k)[if i < k then i else i - 1] == x;
      }
    }
  }
}
