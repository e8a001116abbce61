// Model of inc/fastrpc_hash_table.h: one node per effective domain id, kept in
// a uthash table behind a mutex. Every operation below runs under the lock, so
// a run is a sequence of them.
module DomainTables {
  import opened Wrappers
  import opened HashBuckets
  import opened HashTables

  // The sizeof(int) bytes of a domain id that serve as its key, as a
  // little-endian machine stores them.
  function KeyOf(domain: bv32): (k: Key)
    ensures |k| == 4
  {
    [(domain & 0xff) as bv8, ((domain >> 8) & 0xff) as bv8, ((domain >> 16) & 0xff) as bv8, (domain >> 24) as bv8]
  }

  lemma KeyInjective(a: bv32, b: bv32)
    requires KeyOf(a) == KeyOf(b)
    ensures a == b
  {
    var j, k := KeyOf(a), KeyOf(b);
    assert j[0] == k[0] && j[1] == k[1] && j[2] == k[2] && j[3] == k[3];
    assert a & 0xff == b & 0xff;
    assert (a >> 8) & 0xff == (b >> 8) & 0xff;
    assert (a >> 16) & 0xff == (b >> 16) & 0xff;
    assert a >> 24 == b >> 24;
  }

  lemma KeyWeights(domain: bv32)
    ensures var k := KeyOf(domain);
            (k[0] as bv32) + 0x100 * (k[1] as bv32) + 0x1_0000 * (k[2] as bv32) + 0x100_0000 * (k[3] as bv32) == domain
  {
  }

  // The node registered for a domain, if any.
  ghost function NodeOf(order: seq<Elem>, domain: bv32): Elem? {
    if KeyOf(domain) in View(order) then View(order)[KeyOf(domain)] else null
  }

  datatype Request =
    | Get(domain: bv32)
    | AllocAndAdd(domain: bv32, memory: bool)

  // The nodes calloc gave out and free did not take back. Only these can be
  // read, and freed once.
  class Nodes {
    ghost var live: set<Elem>

    method Next(e: Elem) returns (n: Elem?)
      requires e in live
      ensures n == e.next
    {
      n := e.next;
    }

    method Free(e: Elem)
      requires e in live
      modifies this
      ensures live == old(live) - {e}
    {
      live := live - {e};
    }
  }

  class DomainTable {
    const tbl: HashTable

    ghost predicate Valid()
      reads tbl, tbl.Repr()
    {
      tbl.Valid() && UniqueKeys(tbl.order)
    }

    constructor (hash: HashFn)
      ensures Valid() && tbl.order == [] && fresh(tbl)
    {
      tbl := new HashTable(hash);
    }

    // GET_HASH_NODE
    method GetNode(domain: bv32) returns (me: Elem?)
      requires Valid()
      ensures me == NodeOf(tbl.order, domain)
    {
      me := tbl.Find(KeyOf(domain));
    }

    // ALLOC_AND_ADD_NEW_NODE_TO_TABLE. memory says whether calloc succeeds;
    // a null result stands for AEE_ENOMEMORY.
    method AllocAndAdd(domain: bv32, memory: bool) returns (me: Elem?)
      requires Valid()
      modifies tbl.Repr()
      ensures Valid() && fresh(tbl.Repr() - old(tbl.Repr()))
      ensures me == NodeOf(tbl.order, domain)
      ensures old(NodeOf(tbl.order, domain)) == null && me != null ==> me.key == KeyOf(domain)
      ensures if old(NodeOf(tbl.order, domain)) == null && memory
              then me != null && fresh(me) && tbl.order == old(tbl.order) + [me]
              else me == old(NodeOf(tbl.order, domain)) && tbl.order == old(tbl.order)
    {
      hide Filled, KeyOf, UniqueKeys, View;
      me := tbl.Find(KeyOf(domain));
      if me == null {
        if !memory {
          return;
        }
        var node := new Elem(KeyOf(domain));
        ViewAdd(tbl.order, node);
        tbl.Add(node);
        me := node;
      }
    }

    // Any run of lookups and registrations: a domain that once got a node gets
    // the same node ever after.
    method Serve(requests: seq<Request>) returns (replies: seq<Elem?>)
      requires Valid()
      modifies tbl.Repr()
      ensures Valid() && |replies| == |requests|
      ensures forall i, j :: 0 <= i < j < |replies| && requests[i].domain == requests[j].domain && replies[i] != null
                ==> replies[j] == replies[i]
      ensures forall i :: 0 <= i < |replies| && replies[i] != null ==>
                replies[i] == NodeOf(tbl.order, requests[i].domain)
      ensures forall i :: 0 <= i < |replies| ==>
                (replies[i] != null <==> Known(old(tbl.order), requests, i + 1, requests[i].domain))
    {
      hide HashTable.Valid, UniqueKeys, NodeOf, Known;
      ghost var was := tbl.order;
      replies := [];
      KnowsFirst(was, requests);
      while |replies| < |requests|
        invariant Valid() && fresh(tbl.Repr() - old(tbl.Repr())) && |replies| <= |requests|
        invariant Kept(requests, replies, tbl.order) && Knows(was, requests, |replies|, tbl.order)
        invariant forall i :: 0 <= i < |replies| ==>
                    (replies[i] != null <==> Known(was, requests, i + 1, requests[i].domain))
        invariant forall i, j :: 0 <= i < j < |replies| &&
                    requests[i].domain == requests[j].domain && replies[i] != null
                    ==> replies[j] == replies[i]
      {
        ghost var before := tbl.order;
        var r := requests[|replies|];
        var me;
        match r {
          case Get(domain) =>
            me := GetNode(domain);
          case AllocAndAdd(domain, memory) =>
            me := AllocAndAdd(domain, memory);
            if tbl.order != before {
              KeptAdd(requests, replies, before, domain, me);
            }
        }
        KnowsNext(was, requests, |replies|, before, tbl.order);
        replies := replies + [me];
      }
    }

    // HASH_TABLE_CLEANUP: deletes while iterating. freed lists the nodes in the
    // order they are passed to free. Nodes are read and deleted while allocated
    // only: the next one is read before its predecessor is freed.
    method Cleanup(mem: Nodes) returns (freed: seq<Elem>)
      requires Valid() && tbl.elems <= mem.live && mem !in tbl.Repr()
      modifies tbl.Repr(), mem
      ensures freed == old(tbl.order) && Distinct(freed)
      ensures mem.live == old(mem.live) - old(tbl.elems)
      ensures Valid() && tbl.order == [] && tbl.head == null && tbl.tbl == null
    {
      hide Filled, UniqueKeys, HashTable.Valid;
      ghost var all := tbl.order;
      freed := [];
      Ahead(tbl);
      TailOf(tbl.order, 0);
      var me := tbl.head;
      var tmp := null;
      if me != null {
        tmp := mem.Next(me);
      }
      while me != null
        invariant tbl.Valid() && tbl.Repr() <= old(tbl.Repr()) && mem !in tbl.Repr()
        invariant |freed| <= |all| && freed == all[..|freed|] && tbl.order == all[|freed|..]
        invariant tbl.elems <= mem.live && mem.live - tbl.elems == old(mem.live) - old(tbl.elems)
        invariant me == At(tbl.order, 0) && tmp == At(tbl.order, 1) && (tmp != null ==> tmp in tbl.elems)
        decreases |tbl.order|
      {
        var e: Elem := me;
        TailOf(all, |freed|);
        freed := freed + [e];
        FreeFirst(mem, e);
        Ahead(tbl);
        me := tmp;
        if tmp != null {
          tmp := mem.Next(tmp);
        }
      }
      Emptied(tbl);
    }

    // The body of the loop. What is deleted is still allocated, and so is all
    // that deleting reads or writes.
    method FreeFirst(mem: Nodes, e: Elem)
      requires tbl.Valid() && tbl.order != [] && tbl.order[0] == e && tbl.elems <= mem.live && mem !in tbl.Repr()
      modifies tbl.Repr(), mem
      ensures tbl.Valid() && tbl.order == old(tbl.order)[1..]
      ensures tbl.elems == old(tbl.elems) - {e} && tbl.Repr() <= old(tbl.Repr())
      ensures mem.live == old(mem.live) - {e} && tbl.elems <= mem.live
      ensures mem.live - tbl.elems == old(mem.live) - old(tbl.elems)
    {
      hide Filled, HashTable.Valid;
      Ahead(tbl);
      tbl.Delete(e, 0);
      mem.Free(e);
    }
  }

  lemma TailOf<T>(s: seq<T>, k: nat)
    requires k <= |s|
    ensures s[..0] == [] && s[0..] == s && (|s[k..]| == 0 ==> s[..k] == s)
    ensures k < |s| ==> s[k..][0] == s[k] && s[k..][1..] == s[k + 1..] && s[..k] + [s[k]] == s[..k + 1]
  {
  }

  lemma Emptied(t: HashTable)
    requires t.Valid()
    ensures t.order == [] ==> UniqueKeys(t.order) && t.head == null && t.tbl == null && t.elems == {}
  {
  }

  // Where the iteration variables of HASH_ITER point.
  lemma Ahead(t: HashTable)
    requires t.Valid()
    ensures t.head == At(t.order, 0) && (t.head != null ==> t.head.next == At(t.order, 1))
    ensures Distinct(t.order) && (t.order != [] ==> t.order[0] in t.elems)
    ensures |t.order| > 1 ==> t.order[1] in t.elems
  {
    CoversMember(t.order, t.elems);
  }

  // Every node handed out so far is still its domain's node.
  ghost predicate Kept(requests: seq<Request>, replies: seq<Elem?>, order: seq<Elem>)
    requires |replies| <= |requests|
  {
    forall i :: 0 <= i < |replies| && replies[i] != null ==> replies[i] == NodeOf(order, requests[i].domain)
  }

  // The domain had a node at first, or one of the first n requests registered it.
  ghost predicate Known(was: seq<Elem>, requests: seq<Request>, n: nat, domain: bv32)
    requires n <= |requests|
  {
    NodeOf(was, domain) != null || exists j :: 0 <= j < n && requests[j] == AllocAndAdd(domain, true)
  }

  ghost predicate Knows(was: seq<Elem>, requests: seq<Request>, n: nat, order: seq<Elem>)
    requires n <= |requests|
  {
    forall domain: bv32 {:trigger NodeOf(order, domain)} ::
      NodeOf(order, domain) != null <==> Known(was, requests, n, domain)
  }

  lemma KnowsFirst(was: seq<Elem>, requests: seq<Request>)
    ensures Knows(was, requests, 0, was)
  {
  }

  lemma KnowsNext(was: seq<Elem>, requests: seq<Request>, n: nat, order: seq<Elem>, order': seq<Elem>)
    requires n < |requests| && Knows(was, requests, n, order) && UniqueKeys(order)
    requires var r := requests[n];
             if r.AllocAndAdd? && r.memory && NodeOf(order, r.domain) == null
             then exists me: Elem :: me.key == KeyOf(r.domain) && order' == order + [me]
             else order' == order
    ensures Knows(was, requests, n + 1, order')
  {
    hide UniqueKeys, View;
    var r := requests[n];
    forall domain: bv32 ensures NodeOf(order', domain) != null <==> Known(was, requests, n + 1, domain) {
      assert NodeOf(order, domain) != null <==> Known(was, requests, n, domain);
      assert Known(was, requests, n + 1, domain) <==>
             Known(was, requests, n, domain) || r == AllocAndAdd(domain, true);
      if order' != order {
        var me: Elem :| me.key == KeyOf(r.domain) && order' == order + [me];
        ViewAdd(order, me);
        if KeyOf(domain) == KeyOf(r.domain) {
          KeyInjective(domain, r.domain);
        }
      }
    }
  }

  lemma KeptAdd(requests: seq<Request>, replies: seq<Elem?>, order: seq<Elem>, domain: bv32, me: Elem)
    requires |replies| <= |requests| && Kept(requests, replies, order)
    requires UniqueKeys(order) && NodeOf(order, domain) == null && NodeOf(order + [me], domain) == me
    ensures Kept(requests, replies, order + [me])
  {
    ViewMember(order + [me], KeyOf(domain));
    ViewAdd(order, me);
  }

  // At most one node per domain, and never one node for two domains.
  lemma OneNodePerDomain(t: DomainTable, a: bv32, b: bv32, i: nat, j: nat)
    requires t.Valid() && i < |t.tbl.order| && j < |t.tbl.order|
    requires t.tbl.order[i].key == KeyOf(a) && t.tbl.order[j].key == KeyOf(b)
    ensures i == j <==> a == b
    ensures NodeOf(t.tbl.order, a) == t.tbl.order[i]
  {
    ViewAt(t.tbl.order, i);
    if i == j {
      KeyInjective(a, b);
    }
  }
}
