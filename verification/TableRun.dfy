// Whole runs over the table of inc/uthash.h, the way its users call it: a find,
// and then an add of a key that is absent or a delete of an element found; and
// sorts in between.
module TableRuns {
  import opened HashBuckets
  import opened HashTables
  import opened StableSort
  import Ints

  datatype Op = Find(key: Key) | Put(key: Key) | Drop(key: Key) | SortBy(cmp: (Key, Key) -> int)

  function Minus(ks: seq<Key>, key: Key): seq<Key> {
    if ks == [] then [] else (if ks[0] == key then [] else [ks[0]]) + Minus(ks[1..], key)
  }

  // The keys in application order: a new one at the end, a dropped one gone.
  function Apply(ks: seq<Key>, op: Op): seq<Key> {
    match op
    case Find(_) => ks
    case Put(k) => if k in ks then ks else ks + [k]
    case Drop(k) => Minus(ks, k)
    case SortBy(cmp) => Sort(cmp, ks)
  }

  predicate Sought(ks: seq<Key>, op: Op) {
    !op.SortBy? && op.key in ks
  }

  // What HASH_SRT asks for: a total preorder, and no more elements than its
  // counters can hold.
  ghost predicate Permitted(ks: seq<Key>, op: Op) {
    op.SortBy? ==> |ks| <= Ints.UINT_MAX && Preorder(op.cmp, set k | k in ks)
  }

  function ApplyAll(ks: seq<Key>, ops: seq<Op>): seq<Key> {
    if ops == [] then ks else Apply(ApplyAll(ks, ops[..|ops| - 1]), ops[|ops| - 1])
  }

  ghost function Keys(s: seq<Elem>): (ks: seq<Key>)
    ensures |ks| == |s|
    ensures forall i :: 0 <= i < |s| ==> ks[i] == s[i].key
  {
    seq(|s|, i requires 0 <= i < |s| => s[i].key)
  }

  lemma {:induction false} MinusAbsent(ks: seq<Key>, key: Key)
    requires key !in ks
    ensures Minus(ks, key) == ks
  {
    if ks != [] {
      MinusAbsent(ks[1..], key);
    }
  }

  lemma {:induction false} MinusAt(ks: seq<Key>, k: nat)
    requires k < |ks| && forall i :: 0 <= i < |ks| && i != k ==> ks[i] != ks[k]
    ensures Minus(ks, ks[k]) == ks[..k] + ks[k + 1..]
  {
    if k == 0 {
      MinusAbsent(ks[1..], ks[0]);
    } else {
      MinusAt(ks[1..], k - 1);
      assert ks[..k] + ks[k + 1..] == [ks[0]] + (ks[1..][..k - 1] + ks[1..][k..]);
    }
  }

  lemma KeysWithout(s: seq<Elem>, k: nat)
    requires UniqueKeys(s) && k < |s|
    ensures Keys(Without(s, k)) == Minus(Keys(s), s[k].key)
  {
    MinusAt(Keys(s), k);
  }

  lemma FoundAt(s: seq<Elem>, out: Elem) returns (k: nat)
    requires out in s
    ensures k < |s| && s[k] == out && out.key in Keys(s)
  {
    k :| k < |s| && s[k] == out;
    assert Keys(s)[k] == out.key;
  }

  lemma NotFound(s: seq<Elem>, key: Key)
    requires forall i :: 0 <= i < |s| ==> s[i].key != key
    ensures key !in Keys(s) && key !in View(s)
  {
    ViewMember(s, key);
  }

  // ----- sorting by key -----

  function OnKeys(cmp: (Key, Key) -> int): (Elem, Elem) -> int {
    (a: Elem, b: Elem) => cmp(a.key, b.key)
  }

  lemma {:induction false} SortKeys(cmp: (Key, Key) -> int, s: seq<Elem>)
    ensures Keys(Sort(OnKeys(cmp), s)) == Sort(cmp, Keys(s))
  {
    if s != [] {
      assert Keys(s)[0] == s[0].key && Keys(s)[1..] == Keys(s[1..]);
      SortKeys(cmp, s[1..]);
      InsertKeys(cmp, s[0], Sort(OnKeys(cmp), s[1..]));
    }
  }

  lemma {:induction false} InsertKeys(cmp: (Key, Key) -> int, x: Elem, s: seq<Elem>)
    ensures Keys(Insert(OnKeys(cmp), x, s)) == Insert(cmp, x.key, Keys(s))
  {
    if s != [] {
      assert Keys(s)[0] == s[0].key && Keys(s)[1..] == Keys(s[1..]);
      InsertKeys(cmp, x, s[1..]);
    }
  }

  lemma PreorderOnKeys(cmp: (Key, Key) -> int, s: seq<Elem>, dom: set<Elem>)
    requires Preorder(cmp, set k | k in Keys(s)) && Within(s, dom) && forall x :: x in dom ==> x in s
    ensures Preorder(OnKeys(cmp), dom)
  {
    forall x | x in dom
      ensures x.key in Keys(s)
    {
      var k := FoundAt(s, x);
    }
  }

  // A stable sort of the elements by their keys is the sort of the keys.
  lemma SortedKeys(cmp: (Key, Key) -> int, dom: set<Elem>, s: seq<Elem>, t: seq<Elem>)
    requires Preorder(OnKeys(cmp), dom) && Within(s, dom) && Within(t, dom)
    requires StablySorted(OnKeys(cmp), dom, s, t)
    ensures Keys(t) == Sort(cmp, Keys(s))
  {
    var u := Sort(OnKeys(cmp), s);
    SortIsStable(OnKeys(cmp), dom, s);
    SortWithin(OnKeys(cmp), dom, s);
    StableUnique(OnKeys(cmp), dom, t, u);
    SortKeys(cmp, s);
  }

  lemma Elements(t: HashTable)
    requires t.Valid()
    ensures Within(t.order, t.elems) && forall x :: x in t.elems ==> x in t.order
  {
    CoversMember(t.order, t.elems);
  }

  // ----- growth -----

  ghost function StageOf(t: HashTable): Growth
    reads t, t.tbl, if t.tbl == null then {} else {t.tbl.buckets}
  {
    if t.tbl == null then Growth(0, [], 0, 0, 0, []) else t.tbl.Stage()
  }

  // From g to g' the record of expansions only grew, the buckets doubled with
  // each, nothing else changed, and nothing at all once noexpand was set.
  ghost predicate Lived(g: Growth, g': Growth) {
    && g.expansions <= g'.expansions
    && g'.log2 == g.log2 + |g'.expansions| - |g.expansions|
    && (g.noexpand == 1 || g'.expansions == g.expansions ==> g' == g)
  }

  lemma GrowsLives(h: HashFn, g: Growth, g': Growth, cs: seq<seq<Elem>>, cs': seq<seq<Elem>>, e: Elem, items: nat)
    requires GrowsAsDue(h, g, g', cs, cs', e, items)
    ensures Lived(g, g')
    ensures g'.expansions == g.expansions || g'.expansions == g.expansions + [g'.nonideal > items / 2]
  {
    hide Redistributed, Push;
  }

  // noexpand is set exactly when the last two expansions were ineffective.
  ghost predicate Inhibition(t: HashTable)
    reads t, t.tbl
  {
    t.tbl != null ==>
      var e := t.tbl.expansions;
      && t.tbl.log2NumBuckets == 5 + |e|
      && (t.tbl.noexpand == 1 <==> |e| >= 2 && e[|e| - 2] && e[|e| - 1])
  }

  lemma Inhibited(t: HashTable)
    requires t.Valid()
    ensures Inhibition(t)
  {
    if t.tbl != null {
      InhibitedIff(t.tbl);
    }
  }

  // ----- runs -----

  // What an operation does to the map, whatever the order.
  ghost predicate Mapped(op: Op, m: map<Key, Elem>, m': map<Key, Elem>) {
    match op
    case Put(k) => m'.Keys == m.Keys + {k} && forall key :: key in m ==> m'[key] == m[key]
    case Drop(k) => m' == m - {k}
    case _ => m' == m
  }

  method Step(t: HashTable, op: Op) returns (found: bool)
    requires t.Valid() && UniqueKeys(t.order) && Permitted(Keys(t.order), op)
    modifies t.Repr()
    ensures t.Valid() && UniqueKeys(t.order) && fresh(t.Repr() - old(t.Repr()))
    ensures Keys(t.order) == Apply(Keys(old(t.order)), op)
    ensures found <==> Sought(Keys(old(t.order)), op)
    ensures !op.SortBy? ==> (found <==> op.key in old(View(t.order)))
    ensures Mapped(op, old(View(t.order)), View(t.order))
    ensures t.tbl == null || t.tbl == old(t.tbl) || fresh(t.tbl)
    ensures old(t.tbl) == null && t.tbl != null ==> t.tbl.expansions == []
    ensures old(t.tbl) != null && t.tbl != null ==>
              && t.tbl == old(t.tbl)
              && if op.Put? && !found
                 then GrowsAsDue(t.hash, old(StageOf(t)), StageOf(t), old(t.chains), t.chains,
                                 t.order[|t.order| - 1], |t.order|)
                 else StageOf(t) == old(StageOf(t))
    ensures old(t.tbl) != null && t.tbl != null ==> Lived(old(StageOf(t)), StageOf(t))
  {
    hide HashTable.Valid, UniqueKeys, Keys, View, Without, GrowsAsDue, Lived, Preorder, StablySorted, Within;
    ghost var g, cs := StageOf(t), t.chains;
    LivedOn(g, g, g);
    if op.SortBy? {
      SortStep(t, op.cmp);
      return false;
    }
    var out := t.Find(op.key);
    found := out != null;
    ghost var s := t.order;
    if out == null {
      NotFound(s, op.key);
      MinusAbsent(Keys(s), op.key);
      if op.Put? {
        var add := new Elem(op.key);
        ViewAdd(s, add);
        KeysAdd(s, add);
        t.Add(add);
        if old(t.tbl) != null {
          GrowsLives(t.hash, g, StageOf(t), cs, t.chains, add, |t.order|);
        }
      }
    } else {
      ghost var k := FoundAt(s, out);
      if op.Drop? {
        KeysWithout(s, k);
        ViewWithout(s, k);
        t.Delete(out, k);
      }
    }
  }

  method SortStep(t: HashTable, cmp: (Key, Key) -> int)
    requires t.Valid() && UniqueKeys(t.order) && Permitted(Keys(t.order), SortBy(cmp))
    modifies t.Repr()
    ensures t.Valid() && UniqueKeys(t.order) && t.Repr() == old(t.Repr())
    ensures Keys(t.order) == Sort(cmp, Keys(old(t.order)))
    ensures t.tbl == old(t.tbl) && StageOf(t) == old(StageOf(t)) && View(t.order) == View(old(t.order))
  {
    hide HashTable.Valid, UniqueKeys, Keys, View, Preorder, StablySorted, Within;
    ghost var s := t.order;
    Elements(t);
    PreorderOnKeys(cmp, s, t.elems);
    t.Sort(OnKeys(cmp));
    Elements(t);
    SortedKeys(cmp, t.elems, s, t.order);
    SortKeepsMap(OnKeys(cmp), t.elems, s, t.order);
  }

  lemma KeysAdd(s: seq<Elem>, add: Elem)
    ensures Keys(s + [add]) == Keys(s) + [add.key]
  {
  }

  // found tells which of the first calls met their key.
  ghost predicate Predicts(ks: seq<Key>, ops: seq<Op>, found: seq<bool>) {
    |found| <= |ops| &&
    forall i :: 0 <= i < |found| ==> (found[i] <==> Sought(ApplyAll(ks, ops[..i]), ops[i]))
  }

  ghost predicate AllPermitted(ks: seq<Key>, ops: seq<Op>) {
    forall i :: 0 <= i < |ops| ==> Permitted(ApplyAll(ks, ops[..i]), ops[i])
  }

  // Over any run, automatic expansion included, the application order is the
  // insertion order without the deletions, sorted where it was, and a find sees
  // exactly its keys. As long as a table lives, its record of expansions only
  // grows, and it stops growing exactly after two ineffective ones in a row.
  method Perform(t: HashTable, ops: seq<Op>) returns (found: seq<bool>)
    requires t.Valid() && UniqueKeys(t.order) && AllPermitted(Keys(t.order), ops)
    modifies t.Repr()
    ensures t.Valid() && UniqueKeys(t.order)
    ensures Keys(t.order) == ApplyAll(Keys(old(t.order)), ops)
    ensures |found| == |ops| && Predicts(Keys(old(t.order)), ops, found)
    ensures Inhibition(t)
    ensures t.tbl == null || fresh(t.tbl) || (t.tbl == old(t.tbl) && Lived(old(StageOf(t)), StageOf(t)))
  {
    hide HashTable.Valid, UniqueKeys, Keys, Apply, ApplyAll, Predicts, AllPermitted, Permitted, Lived, Sought;
    hide GrowsAsDue;
    found := [];
    ghost var ks, g := Keys(t.order), StageOf(t);
    ApplyNone(ks, ops);
    LivedOn(g, g, g);
    while |found| < |ops|
      invariant t.Valid() && UniqueKeys(t.order) && fresh(t.Repr() - old(t.Repr())) && |found| <= |ops|
      invariant Keys(t.order) == ApplyAll(ks, ops[..|found|]) && Predicts(ks, ops, found)
      invariant t.tbl == null || fresh(t.tbl) || (t.tbl == old(t.tbl) && Lived(g, StageOf(t)))
    {
      ApplyOne(ks, ops, |found|);
      ghost var g1 := StageOf(t);
      var f := Step(t, ops[|found|]);
      LivedOn(g, g1, StageOf(t));
      PredictsMore(ks, ops, found, f);
      found := found + [f];
    }
    Inhibited(t);
  }

  lemma LivedOn(g: Growth, g1: Growth, g2: Growth)
    ensures Lived(g, g)
    ensures Lived(g, g1) && Lived(g1, g2) ==> Lived(g, g2)
  {
  }

  lemma ApplyNone(ks: seq<Key>, ops: seq<Op>)
    ensures ApplyAll(ks, ops[..0]) == ks && ops[..|ops|] == ops && Predicts(ks, ops, [])
  {
  }

  lemma ApplyOne(ks: seq<Key>, ops: seq<Op>, i: nat)
    requires i < |ops|
    ensures ApplyAll(ks, ops[..i + 1]) == Apply(ApplyAll(ks, ops[..i]), ops[i])
    ensures AllPermitted(ks, ops) ==> Permitted(ApplyAll(ks, ops[..i]), ops[i])
  {
    assert ops[..i + 1][..i] == ops[..i];
  }

  lemma PredictsMore(ks: seq<Key>, ops: seq<Op>, found: seq<bool>, f: bool)
    requires Predicts(ks, ops, found) && |found| < |ops|
    requires f <==> Sought(ApplyAll(ks, ops[..|found|]), ops[|found|])
    ensures Predicts(ks, ops, found + [f])
  {
  }

  // Sorting does not change the map.
  lemma SortKeepsMap(cmp: (Elem, Elem) -> int, dom: set<Elem>, s: seq<Elem>, t: seq<Elem>)
    requires StablySorted(cmp, dom, s, t) && UniqueKeys(s)
    ensures UniqueKeys(t) && View(t) == View(s)
  {
    hide View;
    assert multiset(s) == multiset(t);
    forall x ensures x in s <==> x in t {
      assert x in s <==> x in multiset(s);
    }
    forall i, j | 0 <= i < j < |t| ensures t[i].key != t[j].key {
      OnceEach(s, t, i, j);
      var a := FoundAt(s, t[i]);
      var b := FoundAt(s, t[j]);
    }
    forall key ensures key in View(s) <==> key in View(t)
      ensures key in View(s) ==> View(t)[key] == View(s)[key]
    {
      ViewMember(s, key);
      ViewMember(t, key);
      if key in View(s) {
        var i := FoundAt(t, View(s)[key]);
        ViewAt(t, i);
      }
      if key in View(t) {
        var i := FoundAt(s, View(t)[key]);
      }
    }
  }

  lemma OnceEach(s: seq<Elem>, t: seq<Elem>, i: nat, j: nat)
    requires UniqueKeys(s) && multiset(s) == multiset(t) && i < j < |t|
    ensures t[i] != t[j]
  {
    AtMostOnce(s, t[i]);
    Twice(t, i, j);
  }

  lemma AtMostOnce(s: seq<Elem>, x: Elem)
    requires UniqueKeys(s)
    ensures multiset(s)[x] <= 1
  {
    if x in s {
      var k := FoundAt(s, x);
      assert s == s[..k] + [x] + s[k + 1..];
      assert x !in s[..k] && x !in s[k + 1..];
    }
  }

  lemma Twice(t: seq<Elem>, i: nat, j: nat)
    requires i < j < |t|
    ensures t[i] == t[j] ==> multiset(t)[t[i]] >= 2
  {
    assert t == t[..i] + [t[i]] + t[i + 1..j] + [t[j]] + t[j + 1..];
  }
}
