// Model of inc/uthash.h, HASH_SRT: a bottom-up merge sort that relinks the
// application-order list in place. Only next and prev are ever written, so
// every bucket chain survives untouched.
module HashSort {
  import opened Wrappers
  import opened HashBuckets
  import opened StableSort
  import opened Ints

  // The application-order list: next and prev mutually inverse, both ends null.
  ghost predicate AppOrder(s: seq<Elem>)
    reads s`next, s`prev
  {
    && Distinct(s)
    && (forall i {:trigger s[i].next} :: 0 <= i < |s| ==> s[i].next == At(s, i + 1))
    && (forall i {:trigger s[i].prev} :: 0 <= i < |s| ==> s[i].prev == At(s, i - 1))
  }

  // The list half of HASH_ADD_KEYPTR on a non-empty table.
  method Append(tail: Elem, add: Elem, ghost s: seq<Elem>)
    requires AppOrder(s) && s != [] && tail == Last(s) && add !in s && add.next == null
    modifies tail`next, add`prev
    ensures AppOrder(s + [add])
  {
    tail.next := add;
    add.prev := tail;
    ghost var t := s + [add];
    assert forall i :: 0 <= i < |s| ==> t[i] == s[i] && s[i] != add;
  }

  // The list half of HASH_DELETE when the table keeps other elements.
  method Remove(head: Elem, tail: Elem, del: Elem, ghost dom: set<Elem>, ghost s: seq<Elem>, ghost k: nat)
    returns (head': Elem, tail': Elem)
    requires AppOrder(s) && Within(s, dom) && |s| > 1 && k < |s| && s[k] == del && head == s[0] && tail == Last(s)
    modifies dom`next, dom`prev
    ensures AppOrder(Without(s, k)) && head' == Without(s, k)[0] && tail' == Last(Without(s, k))
  {
    head', tail' := head, tail;
    if del == tail {
      tail' := del.prev;
    }
    if del.prev != null {
      assert del.prev == s[k - 1];
      del.prev.next := del.next;
    } else {
      head' := del.next;
    }
    if del.next != null {
      assert del.next == s[k + 1];
      del.next.prev := del.prev;
    }
    ghost var t := Without(s, k);
    forall i {:trigger t[i]} | 0 <= i < |t|
      ensures t[i].next == At(t, i + 1) && t[i].prev == At(t, i - 1)
    {
      var i' := if i < k then i else i + 1;
      assert t[i] == s[i'] != del;
      assert t[i].next == if i + 1 == k then At(s, k + 1) else At(s, i' + 1);
      assert t[i].prev == if i == k then At(s, k - 1) else At(s, i' - 1);
    }
  }

  // Linked forwards; the last element's next is unconstrained.
  ghost predicate Run(s: seq<Elem>)
    reads s`next
  {
    forall i {:trigger s[i].next} :: 0 <= i < |s| - 1 ==> s[i].next == s[i + 1]
  }

  // Linked forwards up to a null.
  ghost predicate Rest(s: seq<Elem>)
    reads s`next
  {
    forall i {:trigger s[i].next} :: 0 <= i < |s| ==> s[i].next == At(s, i + 1)
  }

  // The merged part so far: everything but the last next pointer is final.
  ghost predicate Out(s: seq<Elem>)
    reads s`next, s`prev
  {
    && Run(s)
    && forall i {:trigger s[i].prev} :: 0 <= i < |s| ==> s[i].prev == At(s, i - 1)
  }

  function Last(s: seq<Elem>): Elem
    requires s != []
  {
    s[|s| - 1]
  }

  lemma RunTail(s: seq<Elem>)
    requires Run(s) && s != []
    ensures Run(s[1..]) && (|s| > 1 ==> s[0].next == s[1])
  {
    assert forall i :: 0 <= i < |s| - 1 ==> s[1..][i] == s[i + 1];
  }

  lemma RestTail(s: seq<Elem>)
    requires Rest(s) && s != []
    ensures Rest(s[1..]) && s[0].next == At(s[1..], 0)
  {
    assert forall i :: 0 <= i < |s| - 1 ==> s[1..][i] == s[i + 1];
  }

  ghost predicate Apart(a: seq<Elem>, b: seq<Elem>) {
    forall i, j :: 0 <= i < |a| && 0 <= j < |b| ==> a[i] != b[j]
  }

  // The list during a merge: the merged part, what is left of the first run,
  // and everything from the second run on.
  ghost predicate Parts(dom: set<Elem>, out: seq<Elem>, p: seq<Elem>, w: seq<Elem>) {
    && Distinct(out) && Distinct(p) && Distinct(w)
    && Apart(out, p) && Apart(out, w) && Apart(p, w)
    && Within(out, dom) && Within(p, dom) && Within(w, dom)
  }

  lemma PartsMoveP(dom: set<Elem>, out: seq<Elem>, p: seq<Elem>, w: seq<Elem>)
    requires Parts(dom, out, p, w) && p != []
    ensures Parts(dom, out + [p[0]], p[1..], w) && p[0] !in out
  {
  }

  lemma PartsMoveW(dom: set<Elem>, out: seq<Elem>, p: seq<Elem>, w: seq<Elem>)
    requires Parts(dom, out, p, w) && w != []
    ensures Parts(dom, out + [w[0]], p, w[1..]) && w[0] !in out
  {
  }

  // list and tail delimit the merged part.
  ghost predicate Ends(list: Elem?, tail: Elem?, out: seq<Elem>) {
    if out == [] then list == null && tail == null else list == out[0] && tail == Last(out)
  }

  // The tail of the merge loop: e becomes the last of the merged part, and the
  // links of the two remainders stay as they are.
  method Emit(list: Elem?, tail: Elem?, e: Elem,
              ghost dom: set<Elem>, ghost out: seq<Elem>, ghost p: seq<Elem>, ghost w: seq<Elem>)
    returns (list': Elem?)
    requires Out(out) && Run(p) && Rest(w) && Ends(list, tail, out) && Parts(dom, out + [e], p, w)
    modifies dom`next, dom`prev
    ensures Out(out + [e]) && Run(p) && Rest(w) && Ends(list', e, out + [e])
  {
    ghost var t := out + [e];
    forall i | 0 <= i < |out| ensures t[i] == out[i] && out[i] != e {
      assert t[i] != t[|out|];
    }
    assert t[|out|] == e;
    list' := list;
    if tail != null {
      assert tail == t[|out| - 1];
      tail.next := e;
    } else {
      list' := e;
    }
    e.prev := tail;
  }

  lemma MergeTake<T>(cmp: (T, T) -> int, out: seq<T>, p: seq<T>, q: seq<T>, takeP: bool)
    requires takeP ==> p != [] && (q == [] || cmp(p[0], q[0]) <= 0)
    requires !takeP ==> q != [] && (p == [] || cmp(p[0], q[0]) > 0)
    ensures takeP ==> (out + [p[0]]) + Merge(cmp, p[1..], q) == out + Merge(cmp, p, q)
    ensures !takeP ==> (out + [q[0]]) + Merge(cmp, p, q[1..]) == out + Merge(cmp, p, q)
  {
  }

  // Between two steps of a merge: pl and ql are what is left of the two runs,
  // rest is the list after them.
  ghost predicate Merging(dom: set<Elem>, p: Elem?, psize: nat, q: Elem?, qsize: nat, list: Elem?, tail: Elem?,
                          out: seq<Elem>, pl: seq<Elem>, ql: seq<Elem>, rest: seq<Elem>)
    reads out`next, out`prev, pl`next, (ql + rest)`next
  {
    && Parts(dom, out, pl, ql + rest)
    && Out(out) && Run(pl) && Rest(ql + rest) && Ends(list, tail, out)
    && psize == |pl| && (pl != [] ==> p == pl[0]) && q == At(ql + rest, 0)
    && |ql| <= qsize && (rest != [] ==> |ql| == qsize)
  }

  method TakeP(p: Elem, psize: nat, q: Elem?, qsize: nat, list: Elem?, tail: Elem?,
               ghost dom: set<Elem>, ghost out: seq<Elem>,
               ghost pl: seq<Elem>, ghost ql: seq<Elem>, ghost rest: seq<Elem>)
    returns (p': Elem?, list': Elem?)
    requires Merging(dom, p, psize, q, qsize, list, tail, out, pl, ql, rest) && psize > 0
    modifies dom`next, dom`prev
    ensures Merging(dom, p', psize - 1, q, qsize, list', p, out + [p], pl[1..], ql, rest)
  {
    RunTail(pl);
    PartsMoveP(dom, out, pl, ql + rest);
    p' := p.next;
    list' := Emit(list, tail, p, dom, out, pl[1..], ql + rest);
  }

  method TakeQ(p: Elem?, psize: nat, q: Elem, qsize: nat, list: Elem?, tail: Elem?,
               ghost dom: set<Elem>, ghost out: seq<Elem>,
               ghost pl: seq<Elem>, ghost ql: seq<Elem>, ghost rest: seq<Elem>)
    returns (q': Elem?, list': Elem?)
    requires Merging(dom, p, psize, q, qsize, list, tail, out, pl, ql, rest) && ql != []
    modifies dom`next, dom`prev
    ensures Merging(dom, p, psize, q', qsize - 1, list', q, out + [q], pl, ql[1..], rest)
  {
    RestTail(ql + rest);
    PartsMoveW(dom, out, pl, ql + rest);
    assert (ql + rest)[1..] == ql[1..] + rest;
    q' := q.next;
    list' := Emit(list, tail, q, dom, out, pl, ql[1..] + rest);
  }

  // The merge loop of HASH_SRT: psize elements from p, at most qsize from q.
  method MergeRuns(cmp: (Elem, Elem) -> int, p0: Elem?, psize0: nat, q0: Elem?, qsize0: nat, list0: Elem?, tail0: Elem?,
                   ghost dom: set<Elem>, ghost out0: seq<Elem>,
                   ghost ps: seq<Elem>, ghost qs: seq<Elem>, ghost rest: seq<Elem>)
    returns (q: Elem?, list: Elem?, tail: Elem?, ghost out: seq<Elem>)
    requires Merging(dom, p0, psize0, q0, qsize0, list0, tail0, out0, ps, qs, rest)
    modifies dom`next, dom`prev
    ensures out == out0 + Merge(cmp, ps, qs) && q == At(rest, 0)
    ensures Out(out) && Rest(rest) && Parts(dom, out, [], rest) && Ends(list, tail, out)
  {
    var p, psize, qsize := p0, psize0, qsize0;
    q, list, tail, out := q0, list0, tail0, out0;
    ghost var pl, ql := ps, qs;
    while psize > 0 || (qsize > 0 && q != null)
      invariant Merging(dom, p, psize, q, qsize, list, tail, out, pl, ql, rest)
      invariant out + Merge(cmp, pl, ql) == out0 + Merge(cmp, ps, qs)
      decreases |pl| + |ql|
    {
      var takeP := if psize == 0 then false else if qsize == 0 || q == null then true else cmp(p, q) <= 0;
      MergeTake(cmp, out, pl, ql, takeP);
      if takeP {
        var e: Elem := p;
        p, list := TakeP(e, psize, q, qsize, list, tail, dom, out, pl, ql, rest);
        psize, tail, out, pl := psize - 1, e, out + [e], pl[1..];
      } else {
        var e: Elem := q;
        q, list := TakeQ(p, psize, e, qsize, list, tail, dom, out, pl, ql, rest);
        qsize, tail, out, ql := qsize - 1, e, out + [e], ql[1..];
      }
    }
    assert [] + rest == rest;
  }

  // How many runs of k elements a list of n elements has.
  function Runs(n: nat, k: nat): nat
    requires k > 0
  {
    if n == 0 then 0 else if n <= k then 1 else 1 + Runs(n - k, k)
  }

  // Each pass halves the number of runs, rounding up.
  lemma {:induction false} RunsHalve(n: nat, k: nat)
    requires k > 0
    ensures Runs(n, 2 * k) == (Runs(n, k) + 1) / 2
  {
    if n > 2 * k {
      RunsHalve(n - 2 * k, k);
    }
  }

  lemma PartsCut(dom: set<Elem>, out: seq<Elem>, p: seq<Elem>, w: seq<Elem>)
    requires Parts(dom, out, [], p + w) && Rest(p + w)
    ensures Parts(dom, out, p, w) && Run(p) && Rest(w)
    ensures At(p + w, |p|) == At(w, 0)
  {
    var l := p + w;
    assert forall i :: 0 <= i < |p| ==> p[i] == l[i];
    assert forall i :: 0 <= i < |w| ==> w[i] == l[|p| + i];
  }

  // The counting loop that finds where the second run starts.
  method SplitRun(p: Elem, insize: nat, ghost l: seq<Elem>) returns (q: Elem?, psize: nat)
    requires insize > 0 && Rest(l) && l != [] && p == l[0]
    ensures psize == (if insize < |l| then insize else |l|) && q == At(l, psize)
  {
    q, psize := p, 0;
    for i := 0 to insize
      invariant psize == i < |l| && q == l[i]
    {
      psize := psize + 1;
      q := q.next;
      if q == null {
        break;
      }
    }
  }

  // The end of a pass: the last element gets its null.
  method Close(tail: Elem, ghost dom: set<Elem>, ghost out: seq<Elem>)
    requires Out(out) && Parts(dom, out, [], []) && out != [] && tail == Last(out)
    modifies tail`next
    ensures AppOrder(out)
  {
    tail.next := null;
  }

  // One pass: the runs of insize are merged pairwise. l and l' are the list
  // before and after, s the order the sort started from.
  method Pass(cmp: (Elem, Elem) -> int, list0: Elem, insize: nat,
              ghost dom: set<Elem>, ghost s: seq<Elem>, ghost l: seq<Elem>)
    returns (list: Elem, tail: Elem, nmerges: nat, ghost l': seq<Elem>)
    requires insize > 0 && s != [] && Preorder(cmp, dom) && Within(s, dom)
    requires l == Blocks(cmp, s, insize) && Rest(l) && Distinct(l) && Within(l, dom) && list0 == l[0]
    modifies dom`next, dom`prev
    ensures l' == Blocks(cmp, s, 2 * insize) && nmerges == Runs(|s|, 2 * insize)
    ensures AppOrder(l') && Within(l', dom) && list == l'[0] && tail == Last(l')
  {
    hide Blocks, AppOrder;
    var p: Elem?, first: Elem?, end: Elem? := list0, null, null;
    nmerges := 0;
    ghost var out: seq<Elem>, rem, sr := [], l, s;
    while p != null
      invariant Passing(cmp, dom, insize, p, first, end, out, rem, sr)
      invariant out + Blocks(cmp, sr, 2 * insize) == Blocks(cmp, s, 2 * insize)
      invariant nmerges + Runs(|sr|, 2 * insize) == Runs(|s|, 2 * insize)
      decreases |sr|
    {
      nmerges := nmerges + 1;
      p, first, end, out, rem, sr := PassStep(cmp, p, insize, first, end, dom, out, rem, sr);
    }
    l' := out;
    assert out + [] == out;
    list, tail := first, end;
    Close(tail, dom, out);
  }

  // Between two merges of a pass: out is merged, rem is still in runs of
  // insize, and sr is the stretch of the original order that rem came from.
  ghost predicate Passing(cmp: (Elem, Elem) -> int, dom: set<Elem>, insize: nat, p: Elem?, list: Elem?, tail: Elem?,
                          out: seq<Elem>, rem: seq<Elem>, sr: seq<Elem>)
    requires insize > 0
    reads out`next, out`prev, rem`next
  {
    && rem == Blocks(cmp, sr, insize) && Within(sr, dom) && p == At(rem, 0)
    && Out(out) && Rest(rem) && Parts(dom, out, [], rem) && Ends(list, tail, out)
  }

  method PassStep(cmp: (Elem, Elem) -> int, p: Elem, insize: nat, list: Elem?, tail: Elem?,
                  ghost dom: set<Elem>, ghost out: seq<Elem>, ghost rem: seq<Elem>, ghost sr: seq<Elem>)
    returns (p': Elem?, list': Elem?, tail': Elem?, ghost out': seq<Elem>, ghost rem': seq<Elem>, ghost sr': seq<Elem>)
    requires insize > 0 && Preorder(cmp, dom) && Passing(cmp, dom, insize, p, list, tail, out, rem, sr)
    modifies dom`next, dom`prev
    ensures Passing(cmp, dom, insize, p', list', tail', out', rem', sr')
    ensures |sr'| < |sr| && 1 + Runs(|sr'|, 2 * insize) == Runs(|sr|, 2 * insize)
    ensures out' + Blocks(cmp, sr', 2 * insize) == out + Blocks(cmp, sr, 2 * insize)
  {
    ghost var ps, qs;
    ps, qs, rem', sr' := Plan(cmp, dom, out, sr, insize);
    PartsCut(dom, out, ps, qs + rem');
    var q, psize := SplitRun(p, insize, rem);
    p', list', tail', out' := MergeRuns(cmp, p, psize, q, insize, list, tail, dom, out, ps, qs, rem');
  }

  // The two runs the next merge will meet, and what merging them achieves.
  lemma Plan(cmp: (Elem, Elem) -> int, dom: set<Elem>, out: seq<Elem>, s: seq<Elem>, k: nat)
    returns (ps: seq<Elem>, qs: seq<Elem>, rest: seq<Elem>, c: seq<Elem>)
    requires k > 0 && s != [] && Preorder(cmp, dom) && Within(s, dom)
    ensures Blocks(cmp, s, k) == ps + (qs + rest) && rest == Blocks(cmp, c, k) && Within(c, dom)
    ensures |ps| == (if k < |s| then k else |s|) && |qs| <= k && (rest != [] ==> |qs| == k)
    ensures (out + Merge(cmp, ps, qs)) + Blocks(cmp, c, 2 * k) == out + Blocks(cmp, s, 2 * k)
    ensures |c| < |s| && 1 + Runs(|c|, 2 * k) == Runs(|s|, 2 * k)
  {
    var a, b;
    a, b, c := Cut(s, k);
    MergeStep(cmp, dom, a, b, c, k);
    ps, qs, rest := Sort(cmp, a), Sort(cmp, b), Blocks(cmp, c, k);
    Assoc(out, Merge(cmp, ps, qs), Blocks(cmp, c, 2 * k));
  }

  lemma Assoc<T>(x: seq<T>, y: seq<T>, z: seq<T>)
    ensures (x + y) + z == x + (y + z)
  {
  }

  // Doubling an unsigned 32-bit counter.
  method Doubled(k: nat) returns (r: nat)
    requires k <= UINT_MAX
    ensures r == if 2 * k <= UINT_MAX then 2 * k else 2 * k - UINT_MAX - 1
  {
    r := k * 2 % (UINT_MAX + 1);
  }

  lemma PassEnd(cmp: (Elem, Elem) -> int, s: seq<Elem>, k: nat)
    requires k > 0
    ensures Runs(|s|, k) <= 1 <==> |s| <= k
    ensures |s| <= k ==> Blocks(cmp, s, k) == Sort(cmp, s)
  {
  }

  // HASH_SRT on a non-empty table. insize is a 32-bit counter; it is doubled
  // without a check, and a list of at most UINT_MAX elements never lets the
  // wrapped value be used.
  method SortList(cmp: (Elem, Elem) -> int, head: Elem, ghost dom: set<Elem>, ghost s: seq<Elem>)
    returns (list: Elem, tail: Elem, ghost t: seq<Elem>)
    requires s != [] && |s| <= UINT_MAX && AppOrder(s) && Within(s, dom) && head == s[0]
    requires Preorder(cmp, dom)
    modifies dom`next, dom`prev
    ensures t == Sort(cmp, s)
    ensures AppOrder(t) && list == t[0] && tail == Last(t)
  {
    var insize, looping := 1, true;
    list, tail := head, head;
    BlocksOfOne(cmp, s);
    t := s;
    while looping
      invariant looping ==> 0 < insize < |s| || insize == 1
      invariant Within(t, dom) && AppOrder(t) && t != [] && list == t[0]
      invariant looping ==> t == Blocks(cmp, s, insize)
      invariant !looping ==> t == Sort(cmp, s) && tail == Last(t)
      decreases looping, |s| - insize
    {
      var nmerges;
      list, tail, nmerges, t := Pass(cmp, list, insize, dom, s, t);
      PassEnd(cmp, s, 2 * insize);
      if nmerges <= 1 {
        looping := false;
      }
      insize := Doubled(insize);
    }
  }
}
