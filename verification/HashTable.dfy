// Model of inc/uthash.h as its users see it: HASH_ADD_KEYPTR, HASH_DELETE,
// HASH_FIND, HASH_SRT and the consistency check HASH_FSCK.
module HashTables {
  import opened Wrappers
  import opened Bits
  import opened HashBuckets
  import Ints
  import HashSort
  import StableSort

  ghost predicate UniqueKeys(s: seq<Elem>) {
    forall i, j :: 0 <= i < j < |s| ==> s[i].key != s[j].key
  }

  // The finite map a list of elements stands for.
  ghost function View(s: seq<Elem>): map<Key, Elem> {
    if s == [] then map[] else View(s[..|s| - 1])[s[|s| - 1].key := s[|s| - 1]]
  }

  lemma {:induction false} ViewMember(s: seq<Elem>, key: Key)
    ensures key in View(s) <==> exists i :: 0 <= i < |s| && s[i].key == key
    ensures key in View(s) ==> View(s)[key] in s && View(s)[key].key == key
  {
    if s != [] {
      var t := s[..|s| - 1];
      ViewMember(t, key);
      if i :| 0 <= i < |s| && s[i].key == key {
        assert i < |t| ==> t[i].key == key;
      }
      if i :| 0 <= i < |t| && t[i].key == key {
        assert s[i].key == key;
      }
    }
  }

  // HASH_FIND_IN_BKT
  method FindInBkt(first: Elem?, key: Key, ghost s: seq<Elem>) returns (out: Elem?)
    requires Chain(s) && first == At(s, 0)
    ensures out == null ==> forall i :: 0 <= i < |s| ==> s[i].key != key
    ensures out != null ==> out in s && out.key == key
  {
    out := first;
    ghost var k := 0;
    while out != null
      invariant 0 <= k <= |s| && out == At(s, k)
      invariant forall i :: 0 <= i < k ==> s[i].key != key
      decreases |s| - k
    {
      if out.key == key {
        break;
      }
      out := out.hhNext;
      k := k + 1;
    }
  }

  // dom is exactly the set of elements of s, stated without an existential.
  ghost predicate Covers(s: seq<Elem>, dom: set<Elem>) {
    |s| == |dom| && forall i {:trigger s[i]} :: 0 <= i < |s| ==> s[i] in dom
  }

  lemma {:induction false} CoversMember(s: seq<Elem>, dom: set<Elem>)
    requires Distinct(s) && Covers(s, dom)
    ensures forall x :: x in s <==> x in dom
  {
    if s == [] {
    } else {
      CoversMember(s[1..], dom - {s[0]});
      assert s == [s[0]] + s[1..];
    }
  }

  lemma CoversAdd(s: seq<Elem>, dom: set<Elem>, x: Elem)
    requires Covers(s, dom) && x !in dom
    ensures Covers(s + [x], dom + {x}) && x !in s
    ensures s != [] ==> HashSort.Last(s) in dom
  {
  }

  lemma CoversWithout(s: seq<Elem>, dom: set<Elem>, k: nat)
    requires HashSort.AppOrder(s) && Covers(s, dom) && k < |s|
    ensures Covers(Without(s, k), dom - {s[k]}) && s[k] in dom
    ensures StableSort.Within(s, dom)
  {
    var t := Without(s, k);
    assert forall i :: 0 <= i < |t| ==> t[i] == s[if i < k then i else i + 1] != s[k];
  }

  // The application-order half of the invariant.
  ghost predicate Listed(head: Elem?, tbl: Table, order: seq<Elem>)
    reads tbl`tail, tbl`numItems, order`next, order`prev
  {
    && HashSort.AppOrder(order) && order != []
    && head == order[0] && tbl.tail == HashSort.Last(order) && tbl.numItems == |order|
  }

  // The bucket half.
  ghost predicate Bucketed(h: HashFn, tbl: Table, dom: set<Elem>, chains: seq<seq<Elem>>)
    reads tbl`buckets, tbl`numBuckets, tbl`log2NumBuckets, tbl`ineffExpands, tbl`noexpand, tbl`expansions
    reads tbl.buckets, dom`hhNext, dom`hhPrev, dom`hashv
  {
    && tbl.Sized() && tbl.Policy() && chains != []
    && Chains(h, dom, tbl.buckets, chains) && Counts(tbl.buckets[..], chains)
    && Complete(h, dom, chains)
    && forall x :: x in dom ==> x.hashv == h(x.key)
  }

  // The bucket half of HASH_ADD_KEYPTR.
  method AddHashed(h: HashFn, tbl: Table, add: Elem, ghost dom: set<Elem>, ghost cs: seq<seq<Elem>>)
    returns (ghost cs': seq<seq<Elem>>)
    requires Bucketed(h, tbl, dom, cs) && add !in dom && tbl.numItems > 0
    modifies tbl`buckets, tbl`numBuckets, tbl`log2NumBuckets, tbl`idealChainMaxlen, tbl`nonidealItems
    modifies tbl`ineffExpands, tbl`noexpand, tbl`expansions
    modifies tbl.buckets, (dom + {add})`hhNext, (dom + {add})`hhPrev, add`hashv
    ensures Bucketed(h, tbl, dom + {add}, cs')
    ensures GrowsAsDue(h, old(tbl.Stage()), tbl.Stage(), cs, cs', add, tbl.numItems)
    ensures tbl.buckets == old(tbl.buckets) || fresh(tbl.buckets)
  {
    hide Chains, Counts, Complete, Push, Redistributed, Expanded;
    add.hashv := h(add.key);
    PushComplete(h, dom, cs, add);
    RedistributedComplete(h, dom + {add}, Push(h, cs, add));
    cs' := tbl.AddToBkt(h, add, dom, cs);
  }

  // The bucket half of HASH_DELETE when the table keeps other elements.
  method DeleteHashed(h: HashFn, tbl: Table, del: Elem, ghost dom: set<Elem>, ghost cs: seq<seq<Elem>>)
    returns (ghost cs': seq<seq<Elem>>)
    requires Bucketed(h, tbl, dom, cs) && del in dom
    modifies tbl.buckets, dom`hhNext, dom`hhPrev
    ensures Bucketed(h, tbl, dom - {del}, cs') && tbl.Stage() == old(tbl.Stage())
  {
    AndMask(del.hashv, tbl.log2NumBuckets);
    var bkt := And(del.hashv, tbl.numBuckets - 1);
    ghost var k :| 0 <= k < |cs[bkt]| && cs[bkt][k] == del;
    WithoutComplete(h, dom, cs, bkt, k);
    DelInBkt(h, tbl.buckets, bkt, del, dom, cs, k);
    cs' := cs[bkt := Without(cs[bkt], k)];
  }

  // A table with at least one element.
  ghost predicate Filled(h: HashFn, head: Elem?, tbl: Table, order: seq<Elem>, elems: set<Elem>, chains: seq<seq<Elem>>)
    reads tbl, tbl.buckets, elems
  {
    Covers(order, elems) && Listed(head, tbl, order) && Bucketed(h, tbl, elems, chains)
  }

  // HASH_ADD_KEYPTR when the table exists.
  method AddTail(h: HashFn, head: Elem?, tbl: Table, add: Elem,
                 ghost order: seq<Elem>, ghost elems: set<Elem>, ghost chains: seq<seq<Elem>>)
    returns (ghost chains': seq<seq<Elem>>)
    requires Filled(h, head, tbl, order, elems, chains) && add !in elems && add.next == null
    modifies tbl, tbl.buckets, elems, add
    ensures Filled(h, head, tbl, order + [add], elems + {add}, chains')
    ensures GrowsAsDue(h, old(tbl.Stage()), tbl.Stage(), chains, chains', add, |order| + 1)
    ensures tbl.buckets == old(tbl.buckets) || fresh(tbl.buckets)
  {
    hide Bucketed, Covers, HashSort.AppOrder;
    CoversAdd(order, elems, add);
    HashSort.Append(tbl.tail, add, order);
    tbl.tail := add;
    tbl.numItems := tbl.numItems + 1;
    chains' := AddHashed(h, tbl, add, elems, chains);
  }

  // HASH_ADD_KEYPTR when the table has just been made for this element.
  method AddHead(h: HashFn, tbl: Table, add: Elem)
    returns (ghost chains: seq<seq<Elem>>)
    requires tbl.Sized() && tbl.Policy() && tbl.numBuckets == 32 && tbl.numItems == 0 && tbl.tail == add
    requires tbl.expansions == [] && forall j :: 0 <= j < 32 ==> tbl.buckets[j] == Bucket(null, 0, 0)
    requires add.next == null && add.prev == null
    modifies tbl, tbl.buckets, add
    ensures Filled(h, add, tbl, [add], {add}, chains) && tbl.expansions == []
    ensures tbl.buckets == old(tbl.buckets) || fresh(tbl.buckets)
  {
    tbl.numItems := tbl.numItems + 1;
    ghost var cs: seq<seq<Elem>> := seq(32, _ => []);
    ghost var g := tbl.Stage();
    EmptyBucketed(h, tbl, cs);
    hide Bucketed, GrowsAsDue;
    assert {} + {add} == {add};
    chains := AddHashed(h, tbl, add, {}, cs);
    NotDue(h, g, tbl.Stage(), cs, chains, add, 1);
  }

  lemma EmptyBucketed(h: HashFn, tbl: Table, cs: seq<seq<Elem>>)
    requires tbl.Sized() && tbl.Policy() && |cs| == tbl.numBuckets
    requires forall j :: 0 <= j < |cs| ==> tbl.buckets[j] == Bucket(null, 0, 0) && cs[j] == []
    ensures Bucketed(h, tbl, {}, cs) && forall b {:trigger cs[b]} :: 0 <= b < |cs| ==> tbl.Stage().mults[b] == 0
  {
    var m := tbl.Stage().mults;
    assert m == Mults(tbl.buckets[..]);
    forall b {:trigger cs[b]} | 0 <= b < |cs|
      ensures m[b] == 0
    {
      assert m[b] == tbl.buckets[..][b].expandMult;
    }
  }

  // A first element never makes its table expand.
  lemma NotDue(h: HashFn, g: Growth, g': Growth, cs: seq<seq<Elem>>, cs': seq<seq<Elem>>, e: Elem, items: nat)
    requires GrowsAsDue(h, g, g', cs, cs', e, items)
    requires forall b {:trigger cs[b]} :: 0 <= b < |cs| ==> cs[b] == [] && g.mults[b] == 0
    ensures g' == g
  {
    hide Expanded;
    assert cs[h(e.key) % |cs|] == [];
  }

  // An element is alone in its table exactly when both its links are null.
  lemma FilledElement(h: HashFn, head: Elem?, tbl: Table,
                      order: seq<Elem>, elems: set<Elem>, chains: seq<seq<Elem>>, k: nat)
    requires Filled(h, head, tbl, order, elems, chains) && k < |order|
    ensures order[k].prev == null && order[k].next == null <==> |order| == 1
    ensures head != null && order[k] in elems && (|order| == 1 ==> elems == {order[k]})
  {
    hide Bucketed;
    assert order[k].prev == At(order, k - 1) && order[k].next == At(order, k + 1);
    CoversMember(order, elems);
  }

  // HASH_DELETE when the table keeps other elements.
  method Unhash(h: HashFn, head: Elem, tbl: Table, del: Elem,
                ghost order: seq<Elem>, ghost elems: set<Elem>, ghost chains: seq<seq<Elem>>, ghost k: nat)
    returns (head': Elem, ghost chains': seq<seq<Elem>>)
    requires Filled(h, head, tbl, order, elems, chains) && |order| > 1 && k < |order| && order[k] == del
    modifies tbl`tail, tbl`numItems, tbl.buckets, elems
    ensures Filled(h, head', tbl, Without(order, k), elems - {del}, chains') && tbl.Stage() == old(tbl.Stage())
  {
    hide Bucketed, Covers, HashSort.AppOrder;
    CoversWithout(order, elems, k);
    var tail;
    head', tail := HashSort.Remove(head, tbl.tail, del, elems, order, k);
    tbl.tail := tail;
    chains' := DeleteHashed(h, tbl, del, elems, chains);
    tbl.numItems := tbl.numItems - 1;
  }

  class HashTable {
    const hash: HashFn
    var head: Elem?
    var tbl: Table?
    ghost var order: seq<Elem>
    ghost var elems: set<Elem>
    ghost var chains: seq<seq<Elem>>

    ghost function Repr(): set<object>
      reads this, tbl
    {
      {this} + (if tbl == null then {} else {tbl, tbl.buckets}) + elems
    }

    ghost predicate Valid()
      reads this, tbl, if tbl == null then {} else {tbl.buckets}, elems
    {
      if order == [] then head == null && tbl == null && elems == {}
      else tbl != null && head != null && Filled(hash, head, tbl, order, elems, chains)
    }

    constructor (hash: HashFn)
      ensures Valid() && order == [] && this.hash == hash
    {
      this.hash := hash;
      head, tbl, order, elems, chains := null, null, [], {}, [];
    }

    // HASH_FIND
    method Find(key: Key) returns (out: Elem?)
      requires Valid()
      ensures out == null <==> forall i :: 0 <= i < |order| ==> order[i].key != key
      ensures out != null ==> out in order && out.key == key
      ensures UniqueKeys(order) ==> out == if key in View(order) then View(order)[key] else null
    {
      out := null;
      ViewMember(order, key);
      if head != null {
        AndMask(hash(key), tbl.log2NumBuckets);
        var bkt := And(hash(key), tbl.numBuckets - 1);
        ghost var s := chains[bkt];
        assert InBucket(hash, elems, s, bkt, |chains|) && Chain(s);
        out := FindInBkt(tbl.buckets[bkt].head, key, s);
        CoversMember(order, elems);
        assert forall i :: 0 <= i < |order| && order[i].key == key ==> order[i] in elems && order[i] in s;
      }
    }

    // HASH_ADD_KEYPTR. Nothing here looks for an equal key.
    method Add(add: Elem)
      requires Valid() && add !in elems
      modifies Repr(), add
      ensures Valid() && order == old(order) + [add] && elems == old(elems) + {add}
      ensures fresh(Repr() - old(Repr()) - {add}) && tbl != null
      ensures old(tbl) == null ==> fresh(tbl) && tbl.expansions == []
      ensures old(tbl) != null ==>
                && tbl == old(tbl)
                && GrowsAsDue(hash, old(tbl.Stage()), tbl.Stage(), old(chains), chains, add, |order|)
    {
      hide Filled, GrowsAsDue;
      add.next := null;
      if head == null {
        AddFirst(add);
      } else {
        AddNext(add);
      }
    }

    method AddFirst(add: Elem)
      requires Valid() && order == [] && add.next == null
      modifies this, add
      ensures Valid() && order == [add] && elems == {add}
      ensures fresh(tbl) && fresh(tbl.buckets) && tbl.expansions == []
    {
      hide Filled;
      head := add;
      head.prev := null;
      tbl := new Table(add);
      chains := AddHead(hash, tbl, add);
      order, elems := [add], {add};
    }

    method AddNext(add: Elem)
      requires Valid() && order != [] && add !in elems && add.next == null
      modifies Repr(), add
      ensures Valid() && order == old(order) + [add] && elems == old(elems) + {add}
      ensures tbl == old(tbl) && (tbl.buckets == old(tbl.buckets) || fresh(tbl.buckets))
      ensures GrowsAsDue(hash, old(tbl.Stage()), tbl.Stage(), old(chains), chains, add, |order|)
    {
      hide Filled, Covers, GrowsAsDue;
      chains := AddTail(hash, head, tbl, add, order, elems, chains);
      order, elems := order + [add], elems + {add};
    }

    // HASH_DELETE. Removing the only element frees the table.
    method Delete(del: Elem, ghost k: nat)
      requires Valid() && k < |order| && order[k] == del
      modifies Repr()
      ensures Valid() && order == Without(old(order), k) && elems == old(elems) - {del}
      ensures Repr() <= old(Repr())
      ensures if order == [] then tbl == null else tbl == old(tbl) != null && tbl.Stage() == old(tbl.Stage())
    {
      hide Filled;
      FilledElement(hash, head, tbl, order, elems, chains, k);
      if del.prev == null && del.next == null {
        tbl, head := null, null;
      } else {
        head, chains := Unhash(hash, head, tbl, del, order, elems, chains, k);
      }
      order, elems := Without(order, k), elems - {del};
    }

    // HASH_SRT: a stable sort of the application order that leaves every
    // bucket chain alone.
    method Sort(cmp: (Elem, Elem) -> int)
      requires Valid() && |order| <= Ints.UINT_MAX && StableSort.Preorder(cmp, elems)
      modifies this`head, this`order, if tbl == null then {} else {tbl}, elems
      ensures Valid() && head == At(order, 0) && tbl == old(tbl) && elems == old(elems) && chains == old(chains)
      ensures StableSort.StablySorted(cmp, elems, old(order), order)
      ensures Repr() == old(Repr()) && (tbl != null ==> tbl.Stage() == old(tbl.Stage()))
    {
      hide Filled, StableSort.StablySorted;
      if head != null {
        head, order := SortFilled(hash, cmp, head, tbl, order, elems, chains);
      } else {
        StableSort.SortIsStable(cmp, elems, order);
      }
    }
  }

  // HASH_SRT on a table with elements: the same chains hold afterwards.
  method SortFilled(h: HashFn, cmp: (Elem, Elem) -> int, head: Elem, tbl: Table,
                    ghost order: seq<Elem>, ghost elems: set<Elem>, ghost chains: seq<seq<Elem>>)
    returns (head': Elem, ghost order': seq<Elem>)
    requires Filled(h, head, tbl, order, elems, chains)
    requires |order| <= Ints.UINT_MAX && StableSort.Preorder(cmp, elems)
    modifies tbl`tail, elems`next, elems`prev
    ensures Filled(h, head', tbl, order', elems, chains) && order' != [] && head' == order'[0]
    ensures StableSort.StablySorted(cmp, elems, order, order')
  {
    hide Bucketed, HashSort.AppOrder, StableSort.StablySorted, StableSort.Preorder, StableSort.Sort;
    var tail;
    head', tail, order' := HashSort.SortList(cmp, head, elems, order);
    StableSort.SortIsStable(cmp, elems, order);
    StableSort.SortWithin(cmp, elems, order);
    tbl.tail := tail;
  }

  // With unique keys the table is a finite map: adding a new key extends it,
  // and deleting an element forgets its key.
  lemma ViewAdd(s: seq<Elem>, add: Elem)
    requires UniqueKeys(s)
    ensures View(s + [add]) == View(s)[add.key := add]
    ensures UniqueKeys(s + [add]) <==> add.key !in View(s)
  {
    assert (s + [add])[..|s|] == s;
    ViewMember(s, add.key);
    var t := s + [add];
    if add.key in View(s) {
      var i :| 0 <= i < |s| && s[i].key == add.key;
      assert t[i].key == t[|s|].key;
    }
  }

  lemma ViewAt(s: seq<Elem>, i: nat)
    requires UniqueKeys(s) && i < |s|
    ensures s[i].key in View(s) && View(s)[s[i].key] == s[i]
  {
    ViewMember(s, s[i].key);
    var j :| 0 <= j < |s| && s[j] == View(s)[s[i].key];
    assert j == i;
  }

  lemma ViewWithout(s: seq<Elem>, k: nat)
    requires UniqueKeys(s) && k < |s|
    ensures View(Without(s, k)) == View(s) - {s[k].key} && UniqueKeys(Without(s, k))
  {
    hide View, Without;
    UniqueWithout(s, k);
    forall key ensures key in View(Without(s, k)) <==> key in View(s) && key != s[k].key
      ensures key in View(Without(s, k)) ==> View(Without(s, k))[key] == View(s)[key]
    {
      ViewStill(s, k, key);
      ViewOnly(s, k, key);
    }
  }

  lemma UniqueWithout(s: seq<Elem>, k: nat)
    requires UniqueKeys(s) && k < |s|
    ensures UniqueKeys(Without(s, k))
  {
    var t := Without(s, k);
    forall i, j | 0 <= i < j < |t| ensures t[i].key != t[j].key {
      assert t[i] == s[if i < k then i else i + 1] && t[j] == s[if j < k then j else j + 1];
    }
  }

  lemma SameKey(s: seq<Elem>, i: nat, j: nat)
    requires UniqueKeys(s) && i < |s| && j < |s| && s[i].key == s[j].key
    ensures i == j
  {
  }

  lemma WithoutAt(s: seq<Elem>, k: nat, i: nat)
    requires k < |s| && i < |s| && i != k
    ensures |Without(s, k)| == |s| - 1
    ensures Without(s, k)[if i < k then i else i - 1] == s[i]
  {
  }

  lemma ViewStill(s: seq<Elem>, k: nat, key: Key)
    requires UniqueKeys(s) && k < |s| && UniqueKeys(Without(s, k))
    ensures key in View(s) && key != s[k].key ==> key in View(Without(s, k)) && View(Without(s, k))[key] == View(s)[key]
  {
    hide View, UniqueKeys, Without;
    ViewMember(s, key);
    if i :| 0 <= i < |s| && s[i].key == key && i != k {
      WithoutAt(s, k, i);
      ViewAt(Without(s, k), if i < k then i else i - 1);
      ViewAt(s, i);
    }
  }

  lemma ViewOnly(s: seq<Elem>, k: nat, key: Key)
    requires UniqueKeys(s) && k < |s| && UniqueKeys(Without(s, k))
    ensures key in View(Without(s, k)) ==> key in View(s) && key != s[k].key
  {
    hide View, UniqueKeys, Without;
    ViewMember(Without(s, k), key);
    WithoutLength(s, k);
    if i :| 0 <= i < |Without(s, k)| && Without(s, k)[i].key == key {
      var i' := if i < k then i else i + 1;
      WithoutAt(s, k, i');
      ViewAt(s, i');
      if key == s[k].key {
        SameKey(s, i', k);
      }
    }
  }

  lemma WithoutLength(s: seq<Elem>, k: nat)
    requires k < |s|
    ensures |Without(s, k)| == |s| - 1
  {
  }

  // ----- HASH_FSCK -----

  ghost function Total(cs: seq<seq<Elem>>): nat {
    if cs == [] then 0 else Total(cs[..|cs| - 1]) + |cs[|cs| - 1]|
  }

  lemma {:induction false} SetSize(s: seq<Elem>)
    requires Distinct(s)
    ensures |Set(s)| == |s|
  {
    if s != [] {
      SetTail(s);
      SetSize(s[1..]);
      assert s[0] !in Set(s[1..]);
    }
  }

  // The chains hold every element exactly once.
  lemma {:induction false} TotalIs(h: HashFn, dom: set<Elem>, a: array<Bucket>, cs: seq<seq<Elem>>, b: nat)
    requires Chains(h, dom, a, cs) && cs != [] && Complete(h, dom, cs) && b <= |cs|
    ensures Total(cs[..b]) == |set x | x in dom && h(x.key) % |cs| < b|
  {
    var n := |cs|;
    if b == 0 {
      assert (set x | x in dom && h(x.key) % n < 0) == {};
    } else {
      TotalIs(h, dom, a, cs, b - 1);
      assert cs[..b][..b - 1] == cs[..b - 1];
      assert InBucket(h, dom, cs[b - 1], b - 1, n) && Chain(cs[b - 1]);
      SetSize(cs[b - 1]);
      Layer(h, dom, cs, b - 1);
    }
  }

  lemma Layer(h: HashFn, dom: set<Elem>, cs: seq<seq<Elem>>, b: nat)
    requires b < |cs| && Complete(h, dom, cs) && InBucket(h, dom, cs[b], b, |cs|)
    ensures var lower := set x | x in dom && h(x.key) % |cs| < b;
            |set x | x in dom && h(x.key) % |cs| < b + 1| == |lower| + |Set(cs[b])|
  {
    var lower := set x | x in dom && h(x.key) % |cs| < b;
    var upper := set x | x in dom && h(x.key) % |cs| < b + 1;
    forall x ensures x in upper <==> x in lower || x in Set(cs[b]) {
      if x in cs[b] {
        var i :| 0 <= i < |cs[b]| && cs[b][i] == x;
      }
    }
    assert upper == lower + Set(cs[b]);
    assert lower !! Set(cs[b]) by {
      forall x | x in Set(cs[b]) ensures x !in lower {
        var i :| 0 <= i < |cs[b]| && cs[b][i] == x;
      }
    }
  }

  // The check uthash runs after every operation in debug builds never fires.
  method Fsck(t: HashTable) returns (ok: bool)
    requires t.Valid()
    ensures ok
  {
    if t.head == null {
      return true;
    }
    var count, good := WalkChains(t);
    if !good || count != t.tbl.numItems {
      return false;
    }
    var n;
    n, good := WalkOrder(t.head, t.order);
    ok := good && n == t.tbl.numItems;
  }

  // Its first half: the chains and their counts.
  method WalkChains(t: HashTable) returns (count: nat, ok: bool)
    requires t.Valid() && t.head != null
    ensures ok && count == |t.elems|
  {
    hide Total;
    ghost var cs := t.chains;
    count, ok := 0, true;
    TotalNext(cs, 0);
    var i := 0;
    while i < t.tbl.numBuckets
      invariant 0 <= i <= |cs| && count == Total(cs[..i]) && ok
    {
      assert InBucket(t.hash, t.elems, cs[i], i, |cs|) && Chain(cs[i]);
      var n, good := WalkChain(t.tbl.buckets[i].head, cs[i]);
      if !good || t.tbl.buckets[i].count != n {
        ok := false;
      }
      count := count + n;
      TotalNext(cs, i);
      i := i + 1;
    }
    TotalIs(t.hash, t.elems, t.tbl.buckets, cs, |cs|);
    assert (set x | x in t.elems && t.hash(x.key) % |cs| < |cs|) == t.elems;
  }

  lemma TotalNext(cs: seq<seq<Elem>>, i: nat)
    ensures Total(cs[..0]) == 0
    ensures i < |cs| ==> Total(cs[..i + 1]) == Total(cs[..i]) + |cs[i]|
  {
    if i < |cs| {
      assert cs[..i + 1][..i] == cs[..i];
    }
  }

  method WalkChain(first: Elem?, ghost s: seq<Elem>) returns (n: nat, good: bool)
    requires Chain(s) && first == At(s, 0)
    ensures n == |s| && good
  {
    var prev: Elem?, thh := null, first;
    n, good := 0, true;
    while thh != null
      invariant n <= |s| && thh == At(s, n) && prev == At(s, n - 1) && good
      decreases |s| - n
    {
      if prev != thh.hhPrev {
        good := false;
      }
      n, prev, thh := n + 1, thh, thh.hhNext;
    }
  }

  method WalkOrder(first: Elem?, ghost s: seq<Elem>) returns (n: nat, good: bool)
    requires HashSort.AppOrder(s) && first == At(s, 0)
    ensures n == |s| && good
  {
    var prev: Elem?, thh := null, first;
    n, good := 0, true;
    while thh != null
      invariant n <= |s| && thh == At(s, n) && prev == At(s, n - 1) && good
      decreases |s| - n
    {
      if prev != thh.prev {
        good := false;
      }
      n, prev, thh := n + 1, thh, thh.next;
    }
  }
}
