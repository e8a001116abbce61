// Model of src/platform_libs.c: reference-counted libraries that bring up and
// tear down the libraries they depend on.
module PlatformLibs {

  // ----- the libraries -----

  // Libraries are numbered so that a library depends on smaller numbers only:
  // this is what an acyclic dependency relation amounts to. own(l, i) is what
  // library l's own part of its constructor returns when i events have gone by.
  // When its constructor fails, a library gives back the dependencies it took;
  // those with all(l) give back all their dependencies, taken or not.
  datatype Platform = Platform(deps: seq<seq<nat>>, own: (nat, nat) -> int, all: nat -> bool)

  predicate Below(ds: seq<nat>, m: nat) {
    forall k :: 0 <= k < |ds| ==> ds[k] < m
  }

  predicate Acyclic(p: Platform) {
    forall l :: 0 <= l < |p.deps| ==> Below(p.deps[l], l)
  }

  // What ran: a constructor, when it returns; a destructor, when it is called.
  datatype Event = Ctor(lib: nat, err: int) | Dtor(lib: nat)

  // uRefs and nErr of each library, and, not read by any step, the events so far
  // and the references that were given back without having been taken.
  datatype State = State(refs: seq<int>, err: seq<int>, log: seq<Event>, lost: multiset<nat>)

  predicate Shaped(p: Platform, s: State) {
    |s.refs| == |s.err| == |p.deps|
  }

  function Start(p: Platform): (s: State)
    ensures Shaped(p, s)
  {
    State(seq(|p.deps|, _ => 0), seq(|p.deps|, _ => -1), [], multiset{})
  }

  // ----- the operations as functions -----

  // pl_lib_init
  function LibInit(p: Platform, l: nat, s: State): (r: (State, int))
    requires Acyclic(p) && Shaped(p, s) && l < |p.deps|
    ensures Shaped(p, r.0) && s.log <= r.0.log && s.lost <= r.0.lost
    decreases l, |p.deps[l]| + 2
  {
    var s1 := s.(refs := s.refs[l := s.refs[l] + 1]);
    if s.refs[l] != 0 then
      (s1, s1.err[l])
    else
      var (s2, e) := Construct(p, l, s1);
      (s2.(err := s2.err[l := e], log := s2.log + [Ctor(l, e)]), e)
  }

  // A library's init: it takes its dependencies and runs its own code, and
  // gives back when something fails.
  function Construct(p: Platform, l: nat, s: State): (r: (State, int))
    requires Acyclic(p) && Shaped(p, s) && l < |p.deps|
    ensures Shaped(p, r.0) && s.log <= r.0.log && s.lost <= r.0.lost
    decreases l, |p.deps[l]| + 1
  {
    var ds := p.deps[l];
    var (s1, e, k) := BringUp(p, ds, l, s);
    var e1 := if e != 0 then e else p.own(l, |s1.log|);
    if e1 == 0 then (s1, 0) else (Cleanup(p, l, s1, k), e1)
  }

  // What a constructor that fails does when it took its first k dependencies.
  function Cleanup(p: Platform, l: nat, s: State, k: nat): (r: State)
    requires Acyclic(p) && Shaped(p, s) && l < |p.deps| && k <= |p.deps[l]|
    ensures Shaped(p, r) && s.log <= r.log && s.lost <= r.lost
    decreases l, |p.deps[l]| + 1, 0
  {
    var ds := p.deps[l];
    if p.all(l) then TearDown(p, ds, l, s.(lost := s.lost + multiset(ds[k..])))
    else TearDown(p, ds[..k], l, s)
  }

  // Inits in order, up to the first failure. The last result counts those that
  // were attempted.
  function BringUp(p: Platform, ds: seq<nat>, m: nat, s: State): (r: (State, int, nat))
    requires Acyclic(p) && Shaped(p, s) && Below(ds, m) && m <= |p.deps|
    ensures Shaped(p, r.0) && s.log <= r.0.log && s.lost <= r.0.lost
    ensures r.2 <= |ds| && (r.1 == 0 ==> r.2 == |ds|) && (ds != [] ==> r.2 > 0)
    decreases m, |ds|
  {
    if ds == [] then
      (s, 0, 0)
    else
      var (s1, e) := LibInit(p, ds[0], s);
      if e != 0 then
        (s1, e, 1)
      else
        var (s2, e2, k) := BringUp(p, ds[1..], m, s1);
        (s2, e2, k + 1)
  }

  // pl_lib_deinit
  function LibDeinit(p: Platform, l: nat, s: State): (r: State)
    requires Acyclic(p) && Shaped(p, s) && l < |p.deps|
    ensures Shaped(p, r) && s.log <= r.log && s.lost == r.lost
    decreases l, |p.deps[l]| + 1
  {
    var s1 := s.(refs := s.refs[l := s.refs[l] - 1]);
    if s.refs[l] == 1 && s.err[l] == 0 then
      TearDown(p, p.deps[l], l, s1.(log := s1.log + [Dtor(l)]))
    else
      s1
  }

  // The last one taken is the first one given back.
  function TearDown(p: Platform, ds: seq<nat>, m: nat, s: State): (r: State)
    requires Acyclic(p) && Shaped(p, s) && Below(ds, m) && m <= |p.deps|
    ensures Shaped(p, r) && s.log <= r.log && s.lost == r.lost
    decreases m, |ds|
  {
    if ds == [] then s else LibDeinit(p, ds[0], TearDown(p, ds[1..], m, s))
  }

  // pl_init_lst: stops at the first failure and gives nothing back.
  function InitLst(p: Platform, lst: seq<nat>, s: State): (r: (State, int, nat))
    requires Acyclic(p) && Shaped(p, s) && Below(lst, |p.deps|)
    ensures Shaped(p, r.0) && r.2 <= |lst| && (r.1 == 0 ==> r.2 == |lst|)
  {
    BringUp(p, lst, |p.deps|, s)
  }

  // pl_deinit_lst
  function DeinitLst(p: Platform, lst: seq<nat>, s: State): (r: State)
    requires Acyclic(p) && Shaped(p, s) && Below(lst, |p.deps|)
    ensures Shaped(p, r)
  {
    TearDown(p, lst, |p.deps|, s)
  }

  // After the first k entries were taken, one after the other.
  function Took(p: Platform, lst: seq<nat>, k: nat, s: State): (r: State)
    requires Acyclic(p) && Shaped(p, s) && Below(lst, |p.deps|) && k <= |lst|
    ensures Shaped(p, r)
  {
    if k == 0 then s else LibInit(p, lst[k - 1], Took(p, lst, k - 1, s)).0
  }

  // What the k-th entry, taken after those before it, comes up with.
  function Comes(p: Platform, lst: seq<nat>, k: nat, s: State): int
    requires Acyclic(p) && Shaped(p, s) && Below(lst, |p.deps|) && k < |lst|
  {
    LibInit(p, lst[k], Took(p, lst, k, s)).1
  }

  predicate AllCome(p: Platform, lst: seq<nat>, k: nat, s: State)
    requires Acyclic(p) && Shaped(p, s) && Below(lst, |p.deps|) && k <= |lst|
  {
    forall i :: 0 <= i < k ==> Comes(p, lst, i, s) == 0
  }

  // Taking lst came to the end, or to its first entry that fails: the result is
  // what that entry came up with, which it keeps in nErr.
  predicate Came(p: Platform, lst: seq<nat>, s: State, t: State, e: int)
    requires Acyclic(p) && Shaped(p, s) && Shaped(p, t) && Below(lst, |p.deps|)
  {
    if AllCome(p, lst, |lst|, s) then e == 0 && t == Took(p, lst, |lst|, s)
    else
      exists k :: 0 <= k < |lst| && AllCome(p, lst, k, s) && CameTo(p, lst, s, t, e, k)
  }

  predicate CameTo(p: Platform, lst: seq<nat>, s: State, t: State, e: int, k: nat)
    requires Acyclic(p) && Shaped(p, s) && Shaped(p, t) && Below(lst, |p.deps|) && k < |lst|
  {
    e != 0 && Comes(p, lst, k, s) == e == t.err[lst[k]] && t == Took(p, lst, k + 1, s)
  }

  // ----- the operations in place -----

  class Libraries {
    const p: Platform
    const uRefs: array<int>
    const nErr: array<int>
    var count: nat
    ghost var log: seq<Event>
    ghost var lost: multiset<nat>

    ghost predicate Valid()
      reads this, uRefs, nErr
    {
      Acyclic(p) && uRefs != nErr && uRefs.Length == nErr.Length == |p.deps| && count == |log|
    }

    ghost function Now(): State
      reads this, uRefs, nErr
    {
      State(uRefs[..], nErr[..], log, lost)
    }

    constructor (p: Platform)
      requires Acyclic(p)
      ensures Valid() && this.p == p && Now() == Start(p)
    {
      this.p := p;
      uRefs := new int[|p.deps|](_ => 0);
      nErr := new int[|p.deps|](_ => -1);
      count, log, lost := 0, [], multiset{};
    }

    method Note(ghost e: Event)
      requires Valid()
      modifies `count, `log
      ensures Valid() && log == old(log) + [e]
    {
      count := count + 1;
      log := log + [e];
    }

    // pl_lib_init
    method PlLibInit(l: nat) returns (e: int)
      requires Valid() && l < |p.deps|
      modifies `count, `log, `lost, uRefs, nErr
      ensures Valid() && (Now(), e) == LibInit(p, l, old(Now()))
      decreases l, |p.deps[l]| + 2
    {
      hide Construct;
      var before := uRefs[l];
      uRefs[l] := before + 1;
      assert Now() == old(Now()).(refs := old(Now()).refs[l := before + 1]);
      if before == 0 {
        e := Init(l);
        nErr[l] := e;
        Note(Ctor(l, e));
      }
      e := nErr[l];
    }

    method Init(l: nat) returns (e: int)
      requires Valid() && l < |p.deps|
      modifies `count, `log, `lost, uRefs, nErr
      ensures Valid() && (Now(), e) == Construct(p, l, old(Now()))
      decreases l, |p.deps[l]| + 1
    {
      var ds, k := p.deps[l], 0;
      e, k := Take(ds, l);
      if e == 0 {
        e := p.own(l, count);
      }
      if e != 0 {
        if p.all(l) {
          lost := lost + multiset(ds[k..]);
          GiveBack(ds, l);
        } else {
          GiveBack(ds[..k], l);
        }
      }
    }

    method Take(ds: seq<nat>, m: nat) returns (e: int, k: nat)
      requires Valid() && Below(ds, m) && m <= |p.deps|
      modifies `count, `log, `lost, uRefs, nErr
      ensures Valid() && (Now(), e, k) == BringUp(p, ds, m, old(Now()))
      decreases m, |ds|
    {
      if ds == [] {
        return 0, 0;
      }
      e := PlLibInit(ds[0]);
      k := 0;
      if e == 0 {
        e, k := Take(ds[1..], m);
      }
      k := k + 1;
    }

    // pl_lib_deinit
    method PlLibDeinit(l: nat)
      requires Valid() && l < |p.deps|
      modifies `count, `log, `lost, uRefs, nErr
      ensures Valid() && Now() == LibDeinit(p, l, old(Now()))
      decreases l, |p.deps[l]| + 1
    {
      var before := uRefs[l];
      uRefs[l] := before - 1;
      assert Now() == old(Now()).(refs := old(Now()).refs[l := before - 1]);
      if before == 1 && nErr[l] == 0 {
        Note(Dtor(l));
        GiveBack(p.deps[l], l);
      }
    }

    method GiveBack(ds: seq<nat>, m: nat)
      requires Valid() && Below(ds, m) && m <= |p.deps|
      modifies `count, `log, `lost, uRefs, nErr
      ensures Valid() && Now() == TearDown(p, ds, m, old(Now()))
      decreases m, |ds|
    {
      if ds != [] {
        GiveBack(ds[1..], m);
        PlLibDeinit(ds[0]);
      }
    }

    // pl_init_lst
    method PlInit(lst: seq<nat>) returns (e: int)
      requires Valid() && Below(lst, |p.deps|)
      modifies `count, `log, `lost, uRefs, nErr
      ensures Valid()
      ensures var r := InitLst(p, lst, old(Now())); Now() == r.0 && e == r.1
      ensures Came(p, lst, old(Now()), Now(), e)
    {
      hide LibInit;
      e := 0;
      var ii := 0;
      while ii < |lst|
        invariant 0 <= ii <= |lst| && Valid() && e == 0
        invariant var r, whole := InitLst(p, lst[ii..], Now()), InitLst(p, lst, old(Now()));
                  r.0 == whole.0 && r.1 == whole.1
        invariant Now() == Took(p, lst, ii, old(Now())) && AllCome(p, lst, ii, old(Now()))
      {
        assert lst[ii..][0] == lst[ii] && lst[ii..][1..] == lst[ii + 1..];
        ResultStored(p, lst[ii], Now());
        e := PlLibInit(lst[ii]);
        assert e == Comes(p, lst, ii, old(Now()));
        if e != 0 {
          assert CameTo(p, lst, old(Now()), Now(), e, ii);
          break;
        }
        ii := ii + 1;
      }
    }

    // pl_deinit_lst
    method PlDeinit(lst: seq<nat>)
      requires Valid() && Below(lst, |p.deps|)
      modifies `count, `log, `lost, uRefs, nErr
      ensures Valid() && Now() == DeinitLst(p, lst, old(Now()))
    {
      assert lst[|lst|..] == [];
      for ii := |lst| downto 0
        invariant Valid() && Now() == TearDown(p, lst[ii..], |p.deps|, old(Now()))
      {
        assert lst[ii..][0] == lst[ii] && lst[ii..][1..] == lst[ii + 1..];
        PlLibDeinit(lst[ii]);
      }
    }
  }

  // pl_lib_init returns the stored result, of this call or of an earlier one.
  lemma ResultStored(p: Platform, l: nat, s: State)
    requires Acyclic(p) && Shaped(p, s) && l < |p.deps|
    ensures var (t, e) := LibInit(p, l, s); t.err[l] == e
    ensures s.refs[l] != 0 ==> LibInit(p, l, s) == (s.(refs := s.refs[l := s.refs[l] + 1]), s.err[l])
  {
    hide Construct;
  }

  // A constructor takes its dependencies in turn. It returns what the first one
  // that fails came up with, else what its own part returns; only when that is
  // zero does it keep what it took.
  lemma ConstructResult(p: Platform, l: nat, s: State)
    requires Acyclic(p) && Shaped(p, s) && l < |p.deps|
    ensures var ds, (t, e) := p.deps[l], Construct(p, l, s);
            if AllCome(p, ds, |ds|, s) then
              e == p.own(l, |Took(p, ds, |ds|, s).log|) && (e == 0 ==> t == Took(p, ds, |ds|, s))
            else
              exists k :: 0 <= k < |ds| && AllCome(p, ds, k, s) && Comes(p, ds, k, s) == e != 0
  {
    hide LibInit, Cleanup;
    BringUpCame(p, p.deps[l], l, s);
  }

  lemma {:induction false} BringUpCame(p: Platform, ds: seq<nat>, m: nat, s: State)
    requires Acyclic(p) && Shaped(p, s) && Below(ds, m) && m <= |p.deps|
    ensures var (t, e, k) := BringUp(p, ds, m, s); Came(p, ds, s, t, e)
    ensures var (t, e, k) := BringUp(p, ds, m, s); t == Took(p, ds, k, s)
    decreases |ds|
  {
    hide LibInit, Came;
    if ds == [] {
      NoneCame(p, ds, s);
    } else {
      var (s1, e) := LibInit(p, ds[0], s);
      var (t, e2, k) := BringUp(p, ds, m, s);
      TookAfter(p, ds, k, s);
      if e != 0 {
        FirstCame(p, ds, s);
      } else {
        BringUpCame(p, ds[1..], m, s1);
        RestCame(p, ds, s, t, e2);
      }
    }
  }

  lemma NoneCame(p: Platform, ds: seq<nat>, s: State)
    requires Acyclic(p) && Shaped(p, s) && ds == []
    ensures Came(p, ds, s, s, 0)
  {
  }

  lemma CameAt(p: Platform, lst: seq<nat>, s: State, t: State, e: int, k: nat)
    requires Acyclic(p) && Shaped(p, s) && Shaped(p, t) && Below(lst, |p.deps|) && k < |lst|
    requires (k == 0 || AllCome(p, lst, k, s)) && CameTo(p, lst, s, t, e, k)
    ensures Came(p, lst, s, t, e)
  {
    hide LibInit, Took, Comes;
    assert AllCome(p, lst, k, s) && !AllCome(p, lst, |lst|, s);
  }

  lemma FirstCame(p: Platform, ds: seq<nat>, s: State)
    requires Acyclic(p) && Shaped(p, s) && Below(ds, |p.deps|) && ds != [] && LibInit(p, ds[0], s).1 != 0
    ensures Came(p, ds, s, LibInit(p, ds[0], s).0, LibInit(p, ds[0], s).1)
  {
    ResultStored(p, ds[0], s);
    TookNone(p, ds, s);
    TookNone(p, ds[1..], LibInit(p, ds[0], s).0);
    TookAfter(p, ds, 1, s);
    hide LibInit, Took, Came, AllCome;
    CameAt(p, ds, s, LibInit(p, ds[0], s).0, LibInit(p, ds[0], s).1, 0);
  }

  lemma RestCame(p: Platform, ds: seq<nat>, s: State, t: State, e: int)
    requires Acyclic(p) && Shaped(p, s) && Shaped(p, t) && Below(ds, |p.deps|) && ds != []
    requires LibInit(p, ds[0], s).1 == 0 && Came(p, ds[1..], LibInit(p, ds[0], s).0, t, e)
    ensures Came(p, ds, s, t, e)
  {
    hide LibInit, Took, AllCome, Comes, Came, CameTo;
    var s1, rest := LibInit(p, ds[0], s).0, ds[1..];
    RestComes(p, ds, s, |rest|);
    if AllCome(p, rest, |rest|, s1) {
      TookAfter(p, ds, |ds|, s);
      CameAll(p, rest, s1, t, e);
      CameAll(p, ds, s, t, e);
    } else {
      var k := CameWhere(p, rest, s1, t, e);
      RestComes(p, ds, s, k);
      RestCameTo(p, ds, s, t, e, k);
      CameAt(p, ds, s, t, e, k + 1);
    }
  }

  lemma CameAll(p: Platform, lst: seq<nat>, s: State, t: State, e: int)
    requires Acyclic(p) && Shaped(p, s) && Shaped(p, t) && Below(lst, |p.deps|) && AllCome(p, lst, |lst|, s)
    ensures Came(p, lst, s, t, e) <==> e == 0 && t == Took(p, lst, |lst|, s)
  {
    hide LibInit, Took, AllCome;
  }

  lemma CameWhere(p: Platform, lst: seq<nat>, s: State, t: State, e: int) returns (k: nat)
    requires Acyclic(p) && Shaped(p, s) && Shaped(p, t) && Below(lst, |p.deps|) && !AllCome(p, lst, |lst|, s)
    requires Came(p, lst, s, t, e)
    ensures k < |lst| && AllCome(p, lst, k, s) && CameTo(p, lst, s, t, e, k)
  {
    hide LibInit, Took, AllCome, CameTo;
    k :| 0 <= k < |lst| && AllCome(p, lst, k, s) && CameTo(p, lst, s, t, e, k);
  }

  lemma RestCameTo(p: Platform, ds: seq<nat>, s: State, t: State, e: int, k: nat)
    requires Acyclic(p) && Shaped(p, s) && Shaped(p, t) && Below(ds, |p.deps|) && k + 1 < |ds|
    requires CameTo(p, ds[1..], LibInit(p, ds[0], s).0, t, e, k)
    ensures CameTo(p, ds, s, t, e, k + 1)
  {
    hide LibInit, Took, Comes;
    ComesAfter(p, ds, s, k);
    TookAfter(p, ds, k + 2, s);
  }

  lemma ComesAfter(p: Platform, ds: seq<nat>, s: State, k: nat)
    requires Acyclic(p) && Shaped(p, s) && Below(ds, |p.deps|) && k + 1 < |ds|
    ensures Comes(p, ds, k + 1, s) == Comes(p, ds[1..], k, LibInit(p, ds[0], s).0)
  {
    hide LibInit, Took;
    TookAfter(p, ds, k + 1, s);
  }

  lemma ComesFirst(p: Platform, ds: seq<nat>, s: State)
    requires Acyclic(p) && Shaped(p, s) && Below(ds, |p.deps|) && ds != []
    ensures Comes(p, ds, 0, s) == LibInit(p, ds[0], s).1
  {
    hide LibInit, Took;
    TookNone(p, ds, s);
  }

  lemma RestComes(p: Platform, ds: seq<nat>, s: State, k: nat)
    requires Acyclic(p) && Shaped(p, s) && Below(ds, |p.deps|) && k + 1 <= |ds| && LibInit(p, ds[0], s).1 == 0
    ensures AllCome(p, ds, k + 1, s) <==> AllCome(p, ds[1..], k, LibInit(p, ds[0], s).0)
  {
    hide LibInit, Took, Comes;
    ComesFirst(p, ds, s);
    var s1, rest := LibInit(p, ds[0], s).0, ds[1..];
    forall i {:trigger Comes(p, rest, i, s1)} | 0 <= i < k ensures Comes(p, ds, i + 1, s) == Comes(p, rest, i, s1) {
      ComesAfter(p, ds, s, i);
    }
    if AllCome(p, rest, k, s1) {
      forall i | 0 <= i < k + 1 ensures Comes(p, ds, i, s) == 0 {
        if i > 0 {
          assert Comes(p, rest, i - 1, s1) == Comes(p, ds, i - 1 + 1, s);
        }
      }
    }
  }

  lemma TookNone(p: Platform, ds: seq<nat>, s: State)
    requires Acyclic(p) && Shaped(p, s) && Below(ds, |p.deps|)
    ensures Took(p, ds, 0, s) == s
  {
  }

  lemma {:induction false} TookAfter(p: Platform, ds: seq<nat>, k: nat, s: State)
    requires Acyclic(p) && Shaped(p, s) && Below(ds, |p.deps|) && 0 < k <= |ds|
    ensures Took(p, ds, k, s) == Took(p, ds[1..], k - 1, LibInit(p, ds[0], s).0)
  {
    hide LibInit;
    if k > 1 {
      TookAfter(p, ds, k - 1, s);
    }
  }

  // ----- what stays: nothing at or above the bound is touched -----

  predicate Frame(s: State, t: State, m: nat)
    requires |s.refs| == |s.err| == |t.refs| == |t.err|
  {
    && (forall x :: m <= x < |s.refs| ==> t.refs[x] == s.refs[x])
    && (forall x :: m <= x < |s.refs| ==> t.err[x] == s.err[x])
    && (forall x :: m <= x < |s.refs| ==> Built(t.log, x) == Built(s.log, x))
  }

  // Whether library x has been constructed and not destroyed since.
  function Built(log: seq<Event>, x: nat): bool {
    if log == [] then
      false
    else
      var last := log[|log| - 1];
      if last.lib == x then last == Ctor(x, 0) else Built(log[..|log| - 1], x)
  }

  lemma BuiltStep(log: seq<Event>, ev: Event, x: nat)
    ensures Built(log + [ev], x) == if ev.lib == x then ev == Ctor(x, 0) else Built(log, x)
  {
    assert (log + [ev])[..|log|] == log;
  }

  // ----- what is conserved -----

  // How often library k, when it is constructed, depends on x.
  function Uses(p: Platform, log: seq<Event>, x: nat, k: nat): nat
    requires k < |p.deps|
  {
    if Built(log, k) then multiset(p.deps[k])[x] else 0
  }

  // How often the constructed libraries below k depend on x.
  function Needed(p: Platform, log: seq<Event>, x: nat, k: nat): nat
    requires k <= |p.deps|
  {
    if k == 0 then 0 else Needed(p, log, x, k - 1) + Uses(p, log, x, k - 1)
  }

  // The references to x that no live dependent explains, had none been lost.
  function Held(p: Platform, s: State, x: nat): int
    requires Shaped(p, s) && x < |p.deps|
  {
    s.refs[x] + s.lost[x] - Needed(p, s.log, x, |p.deps|)
  }

  // The counter and the result of each library below m say whether it is built.
  predicate Sync(p: Platform, s: State, m: nat)
    requires Shaped(p, s) && m <= |p.deps|
  {
    forall x :: 0 <= x < m ==> (Built(s.log, x) <==> s.refs[x] > 0 && s.err[x] == 0)
  }

  lemma {:induction false} NeededStep(p: Platform, log: seq<Event>, ev: Event, x: nat, k: nat)
    requires k <= |p.deps|
    ensures Needed(p, log + [ev], x, k) - Needed(p, log, x, k)
            == if ev.lib < k then Uses(p, log + [ev], x, ev.lib) - Uses(p, log, x, ev.lib) else 0
  {
    if k > 0 {
      BuiltStep(log, ev, k - 1);
      NeededStep(p, log, ev, x, k - 1);
    }
  }

  lemma First(ds: seq<nat>)
    requires ds != []
    ensures multiset(ds) == multiset{ds[0]} + multiset(ds[1..])
  {
    assert ds == [ds[0]] + ds[1..];
  }

  lemma FirstOf(ds: seq<nat>, k: nat)
    requires 0 < k <= |ds|
    ensures multiset(ds[..k]) == multiset{ds[0]} + multiset(ds[1..][..k - 1])
  {
    assert ds[..k] == [ds[0]] + ds[1..][..k - 1];
  }

  // From s to t only libraries below m changed, and the references held from
  // outside grew by plus and shrank by minus.
  ghost predicate Moved(p: Platform, s: State, t: State, m: nat, plus: multiset<nat>, minus: multiset<nat>) {
    && Shaped(p, s) && Shaped(p, t) && Frame(s, t, m) && s.lost <= t.lost
    && forall x :: 0 <= x < |p.deps| ==> Held(p, t, x) + minus[x] == Held(p, s, x) + plus[x]
  }

  // The counter of l alone moves.
  lemma CounterMoves(p: Platform, s: State, t: State, l: nat, up: bool)
    requires Shaped(p, s) && l < |p.deps|
    requires t == s.(refs := s.refs[l := s.refs[l] + if up then 1 else -1])
    ensures Moved(p, s, t, l + 1, if up then multiset{l} else multiset{}, if up then multiset{} else multiset{l})
  {
    hide Built;
  }

  // An event of library l, which may flip whether it is built.
  lemma EventMoves(p: Platform, s: State, t: State, l: nat, ev: Event)
    requires Acyclic(p) && Shaped(p, s) && Shaped(p, t) && l < |p.deps| && ev.lib == l
    requires t.refs == s.refs && t.lost == s.lost && t.log == s.log + [ev] && Frame(s.(log := []), t.(log := []), l + 1)
    requires forall x :: 0 <= x < l ==> t.err[x] == s.err[x]
    ensures Moved(p, s, t, l + 1, if Built(s.log, l) then multiset(p.deps[l]) else multiset{},
                                  if ev == Ctor(l, 0) then multiset(p.deps[l]) else multiset{})
    ensures Built(t.log, l) <==> ev == Ctor(l, 0)
    ensures Sync(p, s, l) ==> Sync(p, t, l)
  {
    forall x | 0 <= x < |p.deps|
      ensures Built(t.log, x) == if x == l then ev == Ctor(l, 0) else Built(s.log, x)
      ensures Needed(p, t.log, x, |p.deps|) - Needed(p, s.log, x, |p.deps|)
              == Uses(p, t.log, x, l) - Uses(p, s.log, x, l)
    {
      BuiltStep(s.log, ev, x);
      NeededStep(p, s.log, ev, x, |p.deps|);
    }
    hide Built;
  }

  // Library l is counted in and, when it is the first, constructed.
  lemma {:induction false} InitMoves(p: Platform, l: nat, s: State, m: nat)
    requires Acyclic(p) && Shaped(p, s) && l < m <= |p.deps| && Sync(p, s, m)
    ensures var r := LibInit(p, l, s);
            Moved(p, s, r.0, m, multiset{l}, multiset{}) && Sync(p, r.0, m) && r.0.err[l] == r.1
    decreases l, |p.deps[l]| + 2
  {
    hide Construct, Built, Held, Below;
    var s1 := s.(refs := s.refs[l := s.refs[l] + 1]);
    CounterMoves(p, s, s1, l, true);
    if s.refs[l] == 0 {
      var (s2, e) := Construct(p, l, s1);
      ConstructMoves(p, l, s1);
      EventMoves(p, s2, LibInit(p, l, s).0, l, Ctor(l, e));
    }
  }

  lemma {:induction false} ConstructMoves(p: Platform, l: nat, s: State)
    requires Acyclic(p) && Shaped(p, s) && l < |p.deps| && Sync(p, s, l)
    ensures var r := Construct(p, l, s);
            Moved(p, s, r.0, l, if r.1 == 0 then multiset(p.deps[l]) else multiset{}, multiset{}) && Sync(p, r.0, l)
    decreases l, |p.deps[l]| + 1
  {
    hide Built, Held, Below, BringUp, Cleanup;
    var ds := p.deps[l];
    var (s1, e, k) := BringUp(p, ds, l, s);
    BringUpMoves(p, ds, l, s);
    assert e == 0 ==> ds[..k] == ds;
    CleanupMoves(p, l, s1, k);
  }

  // Either way as much is given back as was taken, counting what is lost.
  lemma {:induction false} CleanupMoves(p: Platform, l: nat, s: State, k: nat)
    requires Acyclic(p) && Shaped(p, s) && l < |p.deps| && k <= |p.deps[l]| && Sync(p, s, l)
    ensures var ds, t := p.deps[l], Cleanup(p, l, s, k);
            && Moved(p, s, t, l, multiset{}, multiset(ds[..k])) && Sync(p, t, l)
            && t.lost == if p.all(l) then s.lost + multiset(ds[k..]) else s.lost
    decreases l, |p.deps[l]| + 1, 0
  {
    hide Built, Held, TearDown;
    var ds := p.deps[l];
    if p.all(l) {
      var s1 := s.(lost := s.lost + multiset(ds[k..]));
      Loses(p, s, s1, l, multiset(ds[k..]));
      assert multiset(ds) == multiset(ds[..k]) + multiset(ds[k..]) by { assert ds == ds[..k] + ds[k..]; }
      TearDownMoves(p, ds, l, s1);
    } else {
      TearDownMoves(p, ds[..k], l, s);
    }
  }

  // a and b lost the same.
  predicate SameLost(p: Platform, a: State, b: State) {
    forall x :: 0 <= x < |p.deps| ==> a.lost[x] == b.lost[x]
  }

  lemma CountsFirst(ds: seq<nat>, k: nat)
    ensures k < |ds| ==> multiset(ds[k..])[ds[k]] > 0
  {
    assert k < |ds| ==> ds[k] in ds[k..];
  }

  lemma NothingMore(ds: seq<nat>, k: nat, lost: multiset<nat>, n: nat)
    requires Below(ds, n) && k <= |ds|
    requires forall x {:trigger multiset(ds[k..])[x]} :: 0 <= x < n ==> (lost + multiset(ds[k..]))[x] == lost[x]
    ensures k == |ds|
  {
    CountsFirst(ds, k);
  }

  // Cleaning up without a loss is giving back what was taken.
  lemma CleanupIsTearDown(p: Platform, l: nat, s: State, k: nat)
    requires Acyclic(p) && Shaped(p, s) && l < |p.deps| && k <= |p.deps[l]| && Sync(p, s, l)
    requires SameLost(p, s, Cleanup(p, l, s, k))
    ensures Cleanup(p, l, s, k) == TearDown(p, p.deps[l][..k], l, s)
  {
    hide TearDown, Sync;
    CleanupMoves(p, l, s, k);
    var ds := p.deps[l];
    if p.all(l) {
      NothingMore(ds, k, s.lost, l);
      assert ds[..|ds|] == ds && multiset(ds[|ds|..]) == multiset{};
      assert s.(lost := s.lost + multiset{}) == s;
    }
  }

  // Recording a loss.
  lemma Loses(p: Platform, s: State, t: State, m: nat, more: multiset<nat>)
    requires Shaped(p, s) && m <= |p.deps| && Sync(p, s, m) && t == s.(lost := s.lost + more)
    ensures Moved(p, s, t, m, more, multiset{}) && Sync(p, t, m)
  {
  }

  lemma {:induction false} BringUpMoves(p: Platform, ds: seq<nat>, m: nat, s: State)
    requires Acyclic(p) && Shaped(p, s) && Below(ds, m) && m <= |p.deps| && Sync(p, s, m)
    ensures var (t, e, k) := BringUp(p, ds, m, s);
            Moved(p, s, t, m, multiset(ds[..k]), multiset{}) && Sync(p, t, m)
    decreases m, |ds|
  {
    hide Built, Held, LibInit;
    if ds != [] {
      var (s1, e) := LibInit(p, ds[0], s);
      InitMoves(p, ds[0], s, m);
      var k := BringUp(p, ds, m, s).2;
      FirstOf(ds, k);
      if e == 0 {
        BringUpMoves(p, ds[1..], m, s1);
      }
    }
  }

  // Library l is counted out and, when it was the last, destroyed.
  lemma {:induction false} DeinitMoves(p: Platform, l: nat, s: State, m: nat)
    requires Acyclic(p) && Shaped(p, s) && l < m <= |p.deps| && Sync(p, s, m)
    ensures var t := LibDeinit(p, l, s);
            Moved(p, s, t, m, multiset{}, multiset{l}) && Sync(p, t, m) && t.err == s.err && t.lost == s.lost
    decreases l, |p.deps[l]| + 1
  {
    hide Built, Held, Below, TearDown;
    var s1 := s.(refs := s.refs[l := s.refs[l] - 1]);
    CounterMoves(p, s, s1, l, false);
    if s.refs[l] == 1 && s.err[l] == 0 {
      var s2 := s1.(log := s1.log + [Dtor(l)]);
      EventMoves(p, s1, s2, l, Dtor(l));
      TearDownMoves(p, p.deps[l], l, s2);
    }
  }

  lemma {:induction false} TearDownMoves(p: Platform, ds: seq<nat>, m: nat, s: State)
    requires Acyclic(p) && Shaped(p, s) && Below(ds, m) && m <= |p.deps| && Sync(p, s, m)
    ensures var t := TearDown(p, ds, m, s);
            Moved(p, s, t, m, multiset{}, multiset(ds)) && Sync(p, t, m) && t.err == s.err && t.lost == s.lost
    decreases m, |ds|
  {
    hide Built, Held, LibDeinit;
    if ds != [] {
      First(ds);
      TearDownMoves(p, ds[1..], m, s);
      DeinitMoves(p, ds[0], TearDown(p, ds[1..], m, s), m);
    }
  }

  // ----- the order of constructors and destructors -----

  // A library is constructed when it is not yet and all it depends on is, and
  // destroyed when it is constructed and nothing that depends on it still is.
  ghost predicate Proper(p: Platform, log: seq<Event>, ev: Event) {
    ev.lib < |p.deps| &&
    match ev
    case Ctor(l, e) =>
      !Built(log, l) && (e == 0 ==> forall k :: 0 <= k < |p.deps[l]| ==> Built(log, p.deps[l][k]))
    case Dtor(l) =>
      Built(log, l) && forall d :: 0 <= d < |p.deps| && l in p.deps[d] ==> !Built(log, d)
  }

  ghost predicate Orderly(p: Platform, log: seq<Event>) {
    forall i :: 0 <= i < |log| ==> Proper(p, log[..i], log[i])
  }

  lemma OrderlyStep(p: Platform, log: seq<Event>, ev: Event)
    requires Orderly(p, log) && Proper(p, log, ev)
    ensures Orderly(p, log + [ev])
  {
    hide Proper;
    forall i | 0 <= i < |log + [ev]|
      ensures Proper(p, (log + [ev])[..i], (log + [ev])[i])
    {
      assert (log + [ev])[..i] == log[..i];
      assert i == |log| ==> log[..i] == log;
    }
  }

  // Nothing was given back that had not been taken.
  predicate Lossless(p: Platform, s: State) {
    forall x :: 0 <= x < |p.deps| ==> s.lost[x] == 0
  }

  // At least keep[x] references to each x are held from outside.
  ghost predicate Kept(p: Platform, s: State, m: nat, keep: multiset<nat>) {
    && Acyclic(p) && Shaped(p, s) && Lossless(p, s) && m <= |p.deps| && Sync(p, s, m) && Orderly(p, s.log)
    && forall x :: 0 <= x < |p.deps| ==> Held(p, s, x) >= keep[x]
  }

  // What is kept throughout is not constructed anew.
  ghost predicate SameErr(p: Platform, s: State, t: State, keep: multiset<nat>)
    requires Shaped(p, s) && Shaped(p, t)
  {
    forall x :: 0 <= x < |p.deps| && keep[x] > 0 ==> t.err[x] == s.err[x]
  }

  lemma {:induction false} Unneeded(p: Platform, log: seq<Event>, x: nat, k: nat)
    requires k <= |p.deps| && Needed(p, log, x, k) == 0
    ensures forall d :: 0 <= d < k && x in p.deps[d] ==> !Built(log, d)
  {
    if k > 0 {
      Unneeded(p, log, x, k - 1);
    }
  }

  // What is held is referenced.
  lemma Referenced(p: Platform, s: State, m: nat, keep: multiset<nat>, x: nat)
    requires Kept(p, s, m, keep) && x < |p.deps|
    ensures s.refs[x] >= keep[x]
  {
  }

  lemma {:induction false} InitOrderly(p: Platform, l: nat, s: State, m: nat, keep: multiset<nat>)
    requires Kept(p, s, m, keep) && l < m && Lossless(p, LibInit(p, l, s).0)
    ensures var t := LibInit(p, l, s).0; Kept(p, t, m, keep + multiset{l}) && SameErr(p, s, t, keep)
    decreases l, |p.deps[l]| + 2
  {
    hide Construct, Built, Held, Below, Orderly;
    InitMoves(p, l, s, m);
    Referenced(p, s, m, keep, l);
    if s.refs[l] == 0 {
      var s1 := s.(refs := s.refs[l := s.refs[l] + 1]);
      CounterMoves(p, s, s1, l, true);
      var (s2, e) := Construct(p, l, s1);
      ConstructMoves(p, l, s1);
      ConstructOrderly(p, l, s1, keep + multiset{l});
      OrderlyStep(p, s2.log, Ctor(l, e));
    }
  }

  lemma {:induction false} ConstructOrderly(p: Platform, l: nat, s: State, keep: multiset<nat>)
    requires Kept(p, s, l, keep) && l < |p.deps| && Lossless(p, Construct(p, l, s).0)
    ensures var (t, e) := Construct(p, l, s);
            && Kept(p, t, l, if e == 0 then keep + multiset(p.deps[l]) else keep)
            && SameErr(p, s, t, keep)
            && (e == 0 ==> forall k :: 0 <= k < |p.deps[l]| ==> Built(t.log, p.deps[l][k]))
    decreases l, |p.deps[l]| + 1
  {
    hide Built, Held, BringUp, TearDown, Cleanup, Orderly;
    var ds := p.deps[l];
    var (s1, e, k) := BringUp(p, ds, l, s);
    BringUpMoves(p, ds, l, s);
    CleanupMoves(p, l, s1, k);
    assert e == 0 ==> ds[..k] == ds;
    BringUpOrderly(p, ds, l, s, keep);
    if Construct(p, l, s).1 != 0 {
      CleanupIsTearDown(p, l, s1, k);
      TearDownMoves(p, ds[..k], l, s1);
      TearDownOrderly(p, ds[..k], l, s1, keep);
    } else {
      forall i | 0 <= i < |ds|
        ensures Built(s1.log, ds[i])
      {
        Referenced(p, s1, l, keep + multiset(ds), ds[i]);
      }
    }
  }

  lemma {:induction false} BringUpOrderly(p: Platform, ds: seq<nat>, m: nat, s: State, keep: multiset<nat>)
    requires Kept(p, s, m, keep) && Below(ds, m) && Lossless(p, BringUp(p, ds, m, s).0)
    ensures var (t, e, k) := BringUp(p, ds, m, s);
            && Kept(p, t, m, keep + multiset(ds[..k]))
            && SameErr(p, s, t, keep)
            && (e == 0 ==> AllUp(p, t, ds))
    decreases m, |ds|
  {
    hide Built, Held, LibInit, Orderly, Sync, SameErr, AllUp;
    var (t, e1, k) := BringUp(p, ds, m, s);
    FirstKept(ds, k, keep);
    if ds != [] {
      var (s1, e) := LibInit(p, ds[0], s);
      InitMoves(p, ds[0], s, m);
      if e == 0 {
        BringUpMoves(p, ds[1..], m, s1);
        InitOrderly(p, ds[0], s, m, keep);
        BringUpOrderly(p, ds[1..], m, s1, keep + multiset{ds[0]});
        SameErrTwice(p, s, s1, t, keep, ds[0]);
        AllUpFirst(p, t, ds);
      } else {
        InitOrderly(p, ds[0], s, m, keep);
      }
    } else {
      NothingChanged(p, s, keep, ds);
    }
  }

  lemma FirstKept(ds: seq<nat>, k: nat, keep: multiset<nat>)
    requires k <= |ds|
    ensures k == 0 ==> keep + multiset(ds[..k]) == keep
    ensures k > 0 ==> keep + multiset(ds[..k]) == keep + multiset{ds[0]} + multiset(ds[1..][..k - 1])
    ensures k == 1 ==> keep + multiset(ds[..k]) == keep + multiset{ds[0]}
  {
    if k > 0 {
      FirstOf(ds, k);
    }
  }

  // The inits of ds all reported success.
  ghost predicate AllUp(p: Platform, s: State, ds: seq<nat>)
    requires Shaped(p, s) && Below(ds, |p.deps|)
  {
    forall i :: 0 <= i < |ds| ==> s.err[ds[i]] == 0
  }

  lemma AllUpFirst(p: Platform, s: State, ds: seq<nat>)
    requires Shaped(p, s) && Below(ds, |p.deps|) && ds != []
    ensures AllUp(p, s, ds[1..]) && s.err[ds[0]] == 0 ==> AllUp(p, s, ds)
  {
    var rest := ds[1..];
    assert forall i :: 0 < i < |ds| ==> ds[i] == rest[i - 1];
  }

  lemma NothingChanged(p: Platform, s: State, keep: multiset<nat>, ds: seq<nat>)
    requires Shaped(p, s) && ds == []
    ensures SameErr(p, s, s, keep) && AllUp(p, s, ds)
  {
  }

  lemma SameErrTwice(p: Platform, s: State, t: State, u: State, keep: multiset<nat>, x: nat)
    requires Shaped(p, s) && Shaped(p, t) && Shaped(p, u) && x < |p.deps|
    requires SameErr(p, s, t, keep) && SameErr(p, t, u, keep + multiset{x})
    ensures SameErr(p, s, u, keep) && u.err[x] == t.err[x]
  {
  }

  lemma {:induction false} DeinitOrderly(p: Platform, l: nat, s: State, m: nat, keep: multiset<nat>)
    requires Kept(p, s, m, keep + multiset{l}) && l < m
    ensures Kept(p, LibDeinit(p, l, s), m, keep)
    decreases l, |p.deps[l]| + 1
  {
    hide Built, Below, TearDown, Orderly, Uses;
    DeinitMoves(p, l, s, m);
    if s.refs[l] == 1 && s.err[l] == 0 {
      var s1 := s.(refs := s.refs[l := 0]);
      CounterMoves(p, s, s1, l, false);
      var s2 := s1.(log := s1.log + [Dtor(l)]);
      EventMoves(p, s1, s2, l, Dtor(l));
      Unneeded(p, s.log, l, |p.deps|);
      OrderlyStep(p, s.log, Dtor(l));
      hide Held;
      TearDownOrderly(p, p.deps[l], l, s2, keep);
    }
  }

  lemma {:induction false} TearDownOrderly(p: Platform, ds: seq<nat>, m: nat, s: State, keep: multiset<nat>)
    requires Kept(p, s, m, keep + multiset(ds)) && Below(ds, m)
    ensures Kept(p, TearDown(p, ds, m, s), m, keep)
    decreases m, |ds|
  {
    hide Built, Held, LibDeinit, Orderly;
    if ds != [] {
      First(ds);
      assert keep + multiset(ds) == keep + multiset{ds[0]} + multiset(ds[1..]);
      TearDownOrderly(p, ds[1..], m, s, keep + multiset{ds[0]});
      DeinitOrderly(p, ds[0], TearDown(p, ds[1..], m, s), m, keep);
    } else {
      assert keep + multiset(ds) == keep;
    }
  }

  // ----- whole runs -----

  datatype Op = Init(lib: nat) | Deinit(lib: nat)

  predicate Known(p: Platform, ops: seq<Op>) {
    forall i :: 0 <= i < |ops| ==> ops[i].lib < |p.deps|
  }

  // The direct references outstanding after a call, and after a run.
  function Next(direct: multiset<nat>, op: Op): multiset<nat> {
    match op
    case Init(l) => direct + multiset{l}
    case Deinit(l) => direct - multiset{l}
  }

  function Direct(ops: seq<Op>): multiset<nat> {
    if ops == [] then multiset{} else Next(Direct(ops[..|ops| - 1]), ops[|ops| - 1])
  }

  // Nobody gives back what it does not hold.
  predicate Balanced(ops: seq<Op>) {
    forall i :: 0 <= i < |ops| && ops[i].Deinit? ==> Direct(ops[..i])[ops[i].lib] > 0
  }

  function Step(p: Platform, s: State, op: Op): (t: State)
    requires Acyclic(p) && Shaped(p, s) && op.lib < |p.deps|
    ensures Shaped(p, t)
  {
    match op
    case Init(l) => LibInit(p, l, s).0
    case Deinit(l) => LibDeinit(p, l, s)
  }

  function Run(p: Platform, ops: seq<Op>): (s: State)
    requires Acyclic(p) && Known(p, ops)
    ensures Shaped(p, s)
  {
    if ops == [] then Start(p) else Step(p, Run(p, ops[..|ops| - 1]), ops[|ops| - 1])
  }

  // The same, without asking for balance.
  function Given(ops: seq<Op>, x: nat): int {
    if ops == [] then 0
    else
      var op := ops[|ops| - 1];
      Given(ops[..|ops| - 1], x) + if op.lib != x then 0 else if op.Init? then 1 else -1
  }

  // Each counter is the outstanding direct references plus the live dependents,
  // it says what is constructed, and constructors and destructors came in order.
  ghost predicate Conserved(p: Platform, s: State, direct: multiset<nat>) {
    && Kept(p, s, |p.deps|, direct)
    && forall x :: 0 <= x < |p.deps| ==> s.refs[x] == direct[x] + Needed(p, s.log, x, |p.deps|)
  }

  lemma {:induction false} NothingBuilt(p: Platform, x: nat, k: nat)
    requires k <= |p.deps|
    ensures Needed(p, [], x, k) == 0
  {
    if k > 0 {
      NothingBuilt(p, x, k - 1);
    }
  }

  lemma StartNeeds(p: Platform)
    requires Acyclic(p)
    ensures Sync(p, Start(p), |p.deps|) && forall x :: 0 <= x < |p.deps| ==> Needed(p, [], x, |p.deps|) == 0
  {
    forall x | 0 <= x < |p.deps|
      ensures Needed(p, [], x, |p.deps|) == 0
    {
      NothingBuilt(p, x, |p.deps|);
    }
  }

  lemma StepMoves(p: Platform, s: State, op: Op)
    requires Acyclic(p) && Shaped(p, s) && Sync(p, s, |p.deps|) && op.lib < |p.deps|
    ensures var t := Step(p, s, op);
            && Sync(p, t, |p.deps|) && s.lost <= t.lost
            && forall x :: 0 <= x < |p.deps| ==>
                 Held(p, t, x) == Held(p, s, x) + if op.lib != x then 0 else if op.Init? then 1 else -1
  {
    hide LibInit, LibDeinit, Held, Below, Built;
    match op {
      case Init(l) => InitMoves(p, l, s, |p.deps|);
      case Deinit(l) => DeinitMoves(p, l, s, |p.deps|);
    }
  }

  // Over any run, whatever the constructors return and however they clean up,
  // uRefs is the outstanding direct references plus the live dependents, short
  // of the references that were lost.
  lemma {:induction false} RunAccounts(p: Platform, ops: seq<Op>)
    requires Acyclic(p) && Known(p, ops)
    ensures var s := Run(p, ops);
            && Sync(p, s, |p.deps|)
            && forall x :: 0 <= x < |p.deps| ==>
                 s.refs[x] == Given(ops, x) + Needed(p, s.log, x, |p.deps|) - s.lost[x]
  {
    if ops == [] {
      StartNeeds(p);
    } else {
      hide Needed, Below, Built;
      var before := ops[..|ops| - 1];
      RunAccounts(p, before);
      var s, t := Run(p, before), Run(p, ops);
      StepMoves(p, s, ops[|ops| - 1]);
      forall x | 0 <= x < |p.deps|
        ensures t.refs[x] == Given(ops, x) + Needed(p, t.log, x, |p.deps|) - t.lost[x]
      {
        assert Held(p, t, x) == Held(p, s, x) + Given(ops, x) - Given(before, x);
      }
    }
  }

  // With at most one dependency, giving back all is giving back what was taken.
  ghost predicate Tidy(deps: seq<seq<nat>>, all: nat -> bool) {
    forall l {:trigger all(l)} {:trigger deps[l]} :: 0 <= l < |deps| && all(l) ==> |deps[l]| <= 1
  }

  // Such constructors, and those that give back what they took, lose nothing.
  lemma {:induction false} InitLosesNothing(p: Platform, l: nat, s: State)
    requires Acyclic(p) && Shaped(p, s) && l < |p.deps| && Sync(p, s, l) && Tidy(p.deps, p.all)
    ensures LibInit(p, l, s).0.lost == s.lost
    decreases l, |p.deps[l]| + 2
  {
    hide BringUp, Cleanup, Below, Built;
    if s.refs[l] == 0 {
      var s1 := s.(refs := s.refs[l := 1]);
      var ds := p.deps[l];
      var (s2, e, k) := BringUp(p, ds, l, s1);
      BringUpLosesNothing(p, ds, l, s1);
      BringUpMoves(p, ds, l, s1);
      CleanupMoves(p, l, s2, k);
      assert p.all(l) ==> ds[k..] == [] && s2.lost + multiset([]) == s2.lost;
    }
  }

  lemma {:induction false} BringUpLosesNothing(p: Platform, ds: seq<nat>, m: nat, s: State)
    requires Acyclic(p) && Shaped(p, s) && Below(ds, m) && m <= |p.deps| && Sync(p, s, m)
    requires Tidy(p.deps, p.all)
    ensures BringUp(p, ds, m, s).0.lost == s.lost
    decreases m, |ds|
  {
    hide LibInit, Built, Tidy;
    if ds != [] {
      var (s1, e) := LibInit(p, ds[0], s);
      InitLosesNothing(p, ds[0], s);
      InitMoves(p, ds[0], s, m);
      if e == 0 {
        BringUpLosesNothing(p, ds[1..], m, s1);
      }
    }
  }

  lemma {:induction false} RunLosesNothing(p: Platform, ops: seq<Op>)
    requires Acyclic(p) && Known(p, ops) && Tidy(p.deps, p.all)
    ensures Run(p, ops).lost == multiset{} && Lossless(p, Run(p, ops))
  {
    hide LibInit, LibDeinit, Needed, Given, Below, Built, Tidy;
    if ops != [] {
      var before, op := ops[..|ops| - 1], ops[|ops| - 1];
      RunLosesNothing(p, before);
      RunAccounts(p, before);
      match op {
        case Init(l) => InitLosesNothing(p, l, Run(p, before));
        case Deinit(l) => DeinitMoves(p, l, Run(p, before), |p.deps|);
      }
    }
  }

  lemma StepConserves(p: Platform, s: State, op: Op, direct: multiset<nat>)
    requires Conserved(p, s, direct) && op.lib < |p.deps|
    requires op.Deinit? ==> direct[op.lib] > 0
    requires Lossless(p, Step(p, s, op))
    ensures Conserved(p, Step(p, s, op), Next(direct, op))
  {
    hide LibInit, LibDeinit, Needed, Orderly, Below, Built;
    match op {
      case Init(l) =>
        InitMoves(p, l, s, |p.deps|);
        InitOrderly(p, l, s, |p.deps|, direct);
      case Deinit(l) =>
        assert direct == direct - multiset{l} + multiset{l};
        DeinitMoves(p, l, s, |p.deps|);
        DeinitOrderly(p, l, s, |p.deps|, direct - multiset{l});
    }
  }

  lemma {:induction false} LosslessConserves(p: Platform, ops: seq<Op>)
    requires Acyclic(p) && Known(p, ops) && Balanced(ops) && Lossless(p, Run(p, ops))
    ensures Conserved(p, Run(p, ops), Direct(ops))
  {
    if ops == [] {
      StartNeeds(p);
    } else {
      hide Conserved, Step, Balanced, Lossless, Needed;
      var before := ops[..|ops| - 1];
      BalancedBefore(ops);
      RunAccounts(p, before);
      StepMoves(p, Run(p, before), ops[|ops| - 1]);
      StillLossless(p, Run(p, before), Run(p, ops));
      LosslessConserves(p, before);
      StepConserves(p, Run(p, before), ops[|ops| - 1], Direct(before));
    }
  }

  // Over every balanced run of tidy libraries, whatever the constructors return.
  lemma RunConserves(p: Platform, ops: seq<Op>)
    requires Acyclic(p) && Known(p, ops) && Balanced(ops) && Tidy(p.deps, p.all)
    ensures Conserved(p, Run(p, ops), Direct(ops))
  {
    RunLosesNothing(p, ops);
    LosslessConserves(p, ops);
  }

  // And in every step of one.
  lemma TidyStep(p: Platform, s: State, op: Op, direct: multiset<nat>)
    requires Conserved(p, s, direct) && op.lib < |p.deps| && Tidy(p.deps, p.all)
    requires op.Deinit? ==> direct[op.lib] > 0
    ensures Conserved(p, Step(p, s, op), Next(direct, op))
  {
    hide LibInit, LibDeinit, Below, Built, Tidy, Needed, Orderly;
    match op {
      case Init(l) => InitLosesNothing(p, l, s);
      case Deinit(l) => DeinitMoves(p, l, s, |p.deps|);
    }
    StepConserves(p, s, op, direct);
  }

  lemma BalancedBefore(ops: seq<Op>)
    requires Balanced(ops) && ops != []
    ensures var before, op := ops[..|ops| - 1], ops[|ops| - 1];
            Balanced(before) && (op.Deinit? ==> Direct(before)[op.lib] > 0)
  {
    hide Direct;
    var before := ops[..|ops| - 1];
    assert forall i :: 0 <= i < |before| ==> before[..i] == ops[..i];
  }

  lemma StillLossless(p: Platform, s: State, t: State)
    ensures s.lost <= t.lost && Lossless(p, t) ==> Lossless(p, s)
  {
  }

  lemma {:induction false} NoneBuiltAbove(p: Platform, log: seq<Event>, x: nat, k: nat)
    requires Acyclic(p) && k <= |p.deps|
    requires forall d :: x < d < k ==> !Built(log, d)
    ensures Needed(p, log, x, k) == 0
  {
    if k > 0 {
      assert k - 1 <= x ==> x !in p.deps[k - 1];
      NoneBuiltAbove(p, log, x, k - 1);
    }
  }

  // When every direct reference has been given back, nothing is left.
  lemma {:induction false} NothingLeft(p: Platform, s: State, x: nat)
    requires Conserved(p, s, multiset{}) && x <= |p.deps|
    ensures forall y :: x <= y < |p.deps| ==> s.refs[y] == 0 && !Built(s.log, y)
    decreases |p.deps| - x
  {
    if x < |p.deps| {
      NothingLeft(p, s, x + 1);
      NoneBuiltAbove(p, s.log, x, |p.deps|);
    }
  }

  // ----- deinit undoes init -----

  // a and b agree on the libraries below m, up to the stale results of those
  // without references.
  predicate Alike(a: State, b: State, m: nat) {
    && m <= |a.refs| == |a.err| == |b.refs| == |b.err|
    && (forall x :: 0 <= x < m ==> a.refs[x] == b.refs[x])
    && (forall x :: 0 <= x < m && a.refs[x] > 0 ==> a.err[x] == b.err[x])
  }

  // a to a2 and b to b2 ran the same constructors and destructors.
  predicate SameEvents(a: State, a2: State, b: State, b2: State) {
    a.log <= a2.log && b.log <= b2.log && a2.log[|a.log|..] == b2.log[|b.log|..]
  }

  // What deinit does depends on nothing else.
  lemma {:induction false} DeinitAlike(p: Platform, l: nat, a: State, b: State, m: nat)
    requires Acyclic(p) && Shaped(p, a) && Shaped(p, b) && l < m <= |p.deps| && Alike(a, b, m)
    ensures var a2, b2 := LibDeinit(p, l, a), LibDeinit(p, l, b); Alike(a2, b2, m) && SameEvents(a, a2, b, b2)
    decreases l, |p.deps[l]| + 1
  {
    if a.refs[l] == 1 && a.err[l] == 0 {
      var a1 := a.(refs := a.refs[l := 0], log := a.log + [Dtor(l)]);
      var b1 := b.(refs := b.refs[l := 0], log := b.log + [Dtor(l)]);
      TearDownAlike(p, p.deps[l], l, a1, b1, m);
      ThenEvents(a, a1, TearDown(p, p.deps[l], l, a1), b, b1, TearDown(p, p.deps[l], l, b1));
    }
  }

  lemma {:induction false} TearDownAlike(p: Platform, ds: seq<nat>, k: nat, a: State, b: State, m: nat)
    requires Acyclic(p) && Shaped(p, a) && Shaped(p, b) && Below(ds, k) && k <= m <= |p.deps| && Alike(a, b, m)
    ensures var a2, b2 := TearDown(p, ds, k, a), TearDown(p, ds, k, b); Alike(a2, b2, m) && SameEvents(a, a2, b, b2)
    decreases k, |ds|
  {
    if ds != [] {
      var a1, b1 := TearDown(p, ds[1..], k, a), TearDown(p, ds[1..], k, b);
      TearDownAlike(p, ds[1..], k, a, b, m);
      DeinitAlike(p, ds[0], a1, b1, m);
      ThenEvents(a, a1, LibDeinit(p, ds[0], a1), b, b1, LibDeinit(p, ds[0], b1));
    }
  }

  lemma ThenEvents(a: State, a1: State, a2: State, b: State, b1: State, b2: State)
    requires SameEvents(a, a1, b, b1) && SameEvents(a1, a2, b1, b2)
    ensures SameEvents(a, a2, b, b2)
  {
    assert a2.log[|a.log|..] == a1.log[|a.log|..] + a2.log[|a1.log|..];
    assert b2.log[|b.log|..] == b1.log[|b.log|..] + b2.log[|b1.log|..];
  }

  // The destructors of what was constructed, in the opposite order.
  function Closing(es: seq<Event>): seq<Event> {
    if es == [] then [] else [Dtor(es[|es| - 1].lib)] + Closing(es[..|es| - 1])
  }

  lemma {:induction false} ClosingConcat(a: seq<Event>, b: seq<Event>)
    ensures Closing(a + b) == Closing(b) + Closing(a)
  {
    if b == [] {
      assert a + b == a;
    } else {
      assert (a + b)[..|a + b| - 1] == a + b[..|b| - 1];
      ClosingConcat(a, b[..|b| - 1]);
    }
  }

  // What ran from s to u is, backwards, what ran from u to t.
  predicate Mirrors(s: seq<Event>, u: seq<Event>, t: seq<Event>) {
    s <= u && t == u + Closing(u[|s|..])
  }

  lemma MirrorsTwice(s: State, u: State, v: State, t: State, w: State, r: State)
    requires Mirrors(s.log, u.log, r.log) && Mirrors(u.log, v.log, t.log) && SameEvents(t, w, u, r)
    ensures Mirrors(s.log, v.log, w.log)
  {
    hide Closing;
    var first, second := u.log[|s.log|..], v.log[|u.log|..];
    ClosingConcat(first, second);
    Pieces(s.log, u.log, v.log);
    Suffix(u.log, Closing(first));
    Suffix(t.log, Closing(first));
    Assoc(v.log, Closing(second), Closing(first));
    assert w.log == t.log + w.log[|t.log|..];
  }

  lemma Suffix<T>(a: seq<T>, b: seq<T>)
    ensures (a + b)[|a|..] == b
  {
  }

  lemma Assoc<T>(a: seq<T>, b: seq<T>, c: seq<T>)
    ensures (a + b) + c == a + (b + c)
  {
  }

  lemma Pieces<T>(a: seq<T>, b: seq<T>, c: seq<T>)
    requires a <= b <= c
    ensures a <= c && c[|a|..] == b[|a|..] + c[|b|..] && c == b + c[|b|..]
  {
  }

  lemma {:induction false} InitUndone(p: Platform, l: nat, s: State)
    requires Acyclic(p) && Shaped(p, s) && l < |p.deps| && Sync(p, s, l + 1)
    ensures var (u, e) := LibInit(p, l, s);
            var t := LibDeinit(p, l, u);
            && (SameLost(p, s, u) ==> Alike(t, s, |p.deps|))
            && (e == 0 ==> SameLost(p, s, u) && Mirrors(s.log, u.log, t.log))
    decreases l, |p.deps[l]| + 2
  {
    hide Built, Held, Below, Construct, TearDown;
    if s.refs[l] == 0 {
      var s1 := s.(refs := s.refs[l := 1]);
      var (s2, e) := Construct(p, l, s1);
      ConstructMoves(p, l, s1);
      ConstructUndone(p, l, s1);
      if e == 0 {
        var u := s2.(err := s2.err[l := 0], log := s2.log + [Ctor(l, 0)]);
        var out := u.(refs := u.refs[l := 0]);
        var t := out.(log := u.log + [Dtor(l)]);
        EventMoves(p, s2, u, l, Ctor(l, 0));
        EventMoves(p, out, t, l, Dtor(l));
        TearDownMoves(p, p.deps[l], l, t);
        TearDownAlike(p, p.deps[l], l, t, s2, l);
        MirrorsAround(s1, s2, u, t, l, TearDown(p, p.deps[l], l, t), TearDown(p, p.deps[l], l, s2));
      }
    }
  }

  lemma MirrorsAround(s: State, v: State, u: State, t: State, l: nat, w: State, r: State)
    requires Mirrors(s.log, v.log, r.log) && SameEvents(t, w, v, r)
    requires u.log == v.log + [Ctor(l, 0)] && t.log == u.log + [Dtor(l)]
    ensures Mirrors(s.log, u.log, w.log)
  {
    var made := v.log[|s.log|..];
    ClosingConcat(made, [Ctor(l, 0)]);
    assert Closing([Ctor(l, 0)]) == [Dtor(l)];
    Pieces(s.log, v.log, u.log);
    hide Closing;
    assert w.log == t.log + Closing(made);
  }

  lemma {:induction false} ConstructUndone(p: Platform, l: nat, s: State)
    requires Acyclic(p) && Shaped(p, s) && l < |p.deps| && Sync(p, s, l)
    ensures var (u, e) := Construct(p, l, s);
            if e != 0 then SameLost(p, s, u) ==> Alike(u, s, |p.deps|) else
              var t := TearDown(p, p.deps[l], l, u);
              SameLost(p, s, u) && Alike(t, s, |p.deps|) && Mirrors(s.log, u.log, t.log)
    decreases l, |p.deps[l]| + 1
  {
    hide Built, Held, Below, BringUp, TearDown, Cleanup, Alike;
    var ds := p.deps[l];
    var (s1, e, k) := BringUp(p, ds, l, s);
    BringUpUndone(p, ds, l, s);
    BringUpMoves(p, ds, l, s);
    CleanupMoves(p, l, s1, k);
    assert k == |ds| ==> ds[..k] == ds;
    var (u, e1) := Construct(p, l, s);
    if e1 != 0 && SameLost(p, s, u) {
      CleanupIsTearDown(p, l, s1, k);
    }
  }

  lemma {:induction false} BringUpUndone(p: Platform, ds: seq<nat>, m: nat, s: State)
    requires Acyclic(p) && Shaped(p, s) && Below(ds, m) && m <= |p.deps| && Sync(p, s, m)
    ensures var (u, e, k) := BringUp(p, ds, m, s);
            var t := TearDown(p, ds[..k], m, u);
            && (SameLost(p, s, u) ==> Alike(t, s, |p.deps|))
            && (e == 0 ==> SameLost(p, s, u) && Mirrors(s.log, u.log, t.log))
    decreases m, |ds|
  {
    hide Built, Held, LibInit, LibDeinit, TearDown;
    if ds == [] {
      TearDownFirst(p, ds, 0, m, s);
    } else {
      var (s1, e) := LibInit(p, ds[0], s);
      InitMoves(p, ds[0], s, m);
      InitUndone(p, ds[0], s);
      var (u, e2, k) := BringUp(p, ds, m, s);
      TearDownFirst(p, ds, k, m, u);
      if e == 0 {
        BringUpUndone(p, ds[1..], m, s1);
        BringUpMoves(p, ds[1..], m, s1);
        var t := TearDown(p, ds[1..][..k - 1], m, u);
        if SameLost(p, s, u) {
          DeinitAlike(p, ds[0], t, s1, |p.deps|);
          if e2 == 0 {
            MirrorsTwice(s, s1, u, t, LibDeinit(p, ds[0], t), LibDeinit(p, ds[0], s1));
          }
        }
      }
    }
  }

  lemma TearDownFirst(p: Platform, ds: seq<nat>, k: nat, m: nat, s: State)
    requires Acyclic(p) && Shaped(p, s) && Below(ds, m) && m <= |p.deps| && k <= |ds|
    ensures k == 0 ==> TearDown(p, ds[..k], m, s) == s
    ensures k > 0 ==> TearDown(p, ds[..k], m, s) == LibDeinit(p, ds[0], TearDown(p, ds[1..][..k - 1], m, s))
    ensures k == 1 ==> TearDown(p, ds[1..][..k - 1], m, s) == s
  {
    hide LibDeinit;
    if k > 0 {
      assert ds[..k][0] == ds[0] && ds[..k][1..] == ds[1..][..k - 1];
    }
  }

  // Every entry before the last comes up.
  predicate AllButLastSucceed(p: Platform, lst: seq<nat>, s: State)
    requires Acyclic(p) && Shaped(p, s) && Below(lst, |p.deps|)
    decreases |lst|
  {
    |lst| <= 1 || var (s1, e) := LibInit(p, lst[0], s); e == 0 && AllButLastSucceed(p, lst[1..], s1)
  }

  lemma {:induction false} ReachesLast(p: Platform, lst: seq<nat>, s: State)
    requires Acyclic(p) && Shaped(p, s) && Below(lst, |p.deps|)
    ensures InitLst(p, lst, s).2 == |lst| <==> AllButLastSucceed(p, lst, s)
    decreases |lst|
  {
    if |lst| > 1 {
      var (s1, e) := LibInit(p, lst[0], s);
      if e == 0 {
        ReachesLast(p, lst[1..], s1);
      }
    }
  }

  // pl_deinit after pl_init restores every counter exactly when every entry
  // before the last comes up and no constructor loses a reference; it gives back
  // even what pl_init did not get to.
  lemma RestoresIff(p: Platform, lst: seq<nat>, s: State)
    requires Acyclic(p) && Shaped(p, s) && Below(lst, |p.deps|) && Sync(p, s, |p.deps|)
    ensures var u := InitLst(p, lst, s).0;
            Alike(DeinitLst(p, lst, u), s, |p.deps|) <==> AllButLastSucceed(p, lst, s) && SameLost(p, s, u)
  {
    var (u, e, k) := InitLst(p, lst, s);
    ReachesLast(p, lst, s);
    BringUpMoves(p, lst, |p.deps|, s);
    if k == |lst| && SameLost(p, s, u) {
      assert lst[..k] == lst;
      BringUpUndone(p, lst, |p.deps|, s);
    } else {
      hide AllButLastSucceed, InitLst, BringUp, TearDown, Held, Built, Frame, Alike;
      assert multiset(lst) == multiset(lst[..k]) + multiset(lst[k..]) by { assert lst == lst[..k] + lst[k..]; }
      TearDownMoves(p, lst, |p.deps|, u);
      if k < |lst| {
        assert lst[k] in multiset(lst[k..]);
        AlikeHeld(p, DeinitLst(p, lst, u), s, lst[k]);
      } else {
        assert lst[..k] == lst;
        var x :| 0 <= x < |p.deps| && s.lost[x] != u.lost[x];
        AlikeHeld(p, DeinitLst(p, lst, u), s, x);
      }
    }
  }

  // Where constructors give back what they took, that is up to the results of
  // the entries alone.
  lemma RestoresIffTidy(p: Platform, lst: seq<nat>, s: State)
    requires Acyclic(p) && Shaped(p, s) && Below(lst, |p.deps|) && Sync(p, s, |p.deps|)
    requires Tidy(p.deps, p.all)
    ensures Alike(DeinitLst(p, lst, InitLst(p, lst, s).0), s, |p.deps|) <==> AllButLastSucceed(p, lst, s)
  {
    hide Alike, AllButLastSucceed, DeinitLst, BringUp;
    BringUpLosesNothing(p, lst, |p.deps|, s);
    RestoresIff(p, lst, s);
  }

  lemma AlikeHeld(p: Platform, t: State, s: State, x: nat)
    requires Shaped(p, s) && Shaped(p, t) && Sync(p, s, |p.deps|) && Sync(p, t, |p.deps|) && x < |p.deps|
    ensures Alike(t, s, |p.deps|) ==> Held(p, t, x) - t.lost[x] == Held(p, s, x) - s.lost[x]
  {
    if Alike(t, s, |p.deps|) {
      SameNeeds(p, s.log, t.log, x, |p.deps|);
    }
  }

  lemma {:induction false} SameNeeds(p: Platform, a: seq<Event>, b: seq<Event>, x: nat, k: nat)
    requires k <= |p.deps| && forall d :: 0 <= d < k ==> Built(a, d) == Built(b, d)
    ensures Needed(p, a, x, k) == Needed(p, b, x, k)
  {
    if k > 0 {
      SameNeeds(p, a, b, x, k - 1);
    }
  }

  // After a pl_init that succeeds, pl_deinit also runs the destructors of all
  // that was constructed, in the opposite order.
  lemma InitDeinit(p: Platform, lst: seq<nat>, s: State)
    requires Acyclic(p) && Shaped(p, s) && Below(lst, |p.deps|) && Sync(p, s, |p.deps|)
    requires InitLst(p, lst, s).1 == 0
    ensures var u := InitLst(p, lst, s).0;
            var t := DeinitLst(p, lst, u);
            Alike(t, s, |p.deps|) && Mirrors(s.log, u.log, t.log)
  {
    assert lst[..|lst|] == lst;
    BringUpUndone(p, lst, |p.deps|, s);
  }

  // A failing entry that is not the last one: the next entry ends below zero,
  // and it is not constructed when it is asked for again.
  lemma StopsEarly(own: (nat, nat) -> int, all: nat -> bool)
    requires own(0, 0) != 0
    ensures var p := Platform([[], []], own, all);
            var u := DeinitLst(p, [0, 1], InitLst(p, [0, 1], Start(p)).0);
            u.refs == [0, -1] && LibInit(p, 1, u).1 == -1 && LibInit(p, 1, u).0.refs == [0, 0]
  {
    var p := Platform([[], []], own, all);
    var s, e := Start(p), own(0, 0);
    assert s == State([0, 0], [-1, -1], [], multiset{});
    FirstFails(p, s);
    var u := State([1, 0], [e, -1], [Ctor(0, e)], multiset{});
    assert s.refs[0 := 1] == u.refs && s.err[0 := e] == u.err && s.log + [Ctor(0, e)] == u.log;
    assert LibInit(p, 0, s) == (u, e);
    assert InitLst(p, [0, 1], s).0 == u;
    TwoGivenBack(p, u, 2);
    assert DeinitLst(p, [0, 1], u) == u.(refs := [0, -1]);
  }

  // A constructor that gives back all its dependencies when the first one fails:
  // the same happens to the second.
  lemma GivesBackAll(own: (nat, nat) -> int, all: nat -> bool)
    requires own(0, 0) != 0 && all(2)
    ensures var p := Platform([[], [], [0, 1]], own, all);
            var u := LibInit(p, 2, Start(p)).0;
            && u.refs == [0, -1, 1] && u.lost == multiset{1}
            && LibInit(p, 1, u).1 == -1 && LibInit(p, 1, u).0.refs == [0, 0, 1]
  {
    var p := Platform([[], [], [0, 1]], own, all);
    var s, e := Start(p), own(0, 0);
    assert s == State([0, 0, 0], [-1, -1, -1], [], multiset{});
    var s1 := s.(refs := s.refs[2 := 1]);
    FirstFails(p, s1);
    var u := State([1, 0, 1], [e, -1, -1], [Ctor(0, e)], multiset{});
    assert s1.refs[0 := 1] == u.refs && s1.err[0 := e] == u.err && s1.log + [Ctor(0, e)] == u.log;
    assert LibInit(p, 0, s1) == (u, e);
    assert BringUp(p, [0, 1], 2, s1) == (u, e, 1);
    var v := u.(lost := u.lost + multiset([0, 1][1..]));
    assert [0, 1][1..] == [1];
    TwoGivenBack(p, v, 2);
    hide LibDeinit, TearDown, LibInit;
    assert Cleanup(p, 2, u, 1) == v.(refs := [0, -1, 1]);
    assert Construct(p, 2, s1) == (v.(refs := [0, -1, 1]), e);
    Constructed(p, 2, s);
    Refused(p, 1, LibInit(p, 2, s).0);
  }

  lemma Constructed(p: Platform, l: nat, s: State)
    requires Acyclic(p) && Shaped(p, s) && l < |p.deps| && s.refs[l] == 0
    ensures var (t, e) := Construct(p, l, s.(refs := s.refs[l := 1]));
            LibInit(p, l, s) == (t.(err := t.err[l := e], log := t.log + [Ctor(l, e)]), e)
  {
    hide Construct;
  }

  lemma Refused(p: Platform, l: nat, s: State)
    requires Acyclic(p) && Shaped(p, s) && l < |p.deps| && s.refs[l] == -1
    ensures LibInit(p, l, s) == (s.(refs := s.refs[l := 0]), s.err[l])
  {
  }

  // Library 0, on its own, fails.
  lemma FirstFails(p: Platform, s: State)
    requires Acyclic(p) && Shaped(p, s) && |p.deps| > 0 && p.deps[0] == [] && s.refs[0] == 0
    requires p.own(0, |s.log|) != 0
    ensures var e := p.own(0, |s.log|);
            LibInit(p, 0, s) == (State(s.refs[0 := 1], s.err[0 := e], s.log + [Ctor(0, e)], s.lost), e)
  {
    var e := p.own(0, |s.log|);
    var s1 := s.(refs := s.refs[0 := 1]);
    var none: seq<nat> := [];
    assert none[..0] == [] && none[0..] == none && multiset(none) == multiset{};
    assert BringUp(p, none, 0, s1) == (s1, 0, 0);
    assert s1.(lost := s1.lost + multiset(none[0..])) == s1;
    assert TearDown(p, none, 0, s1) == s1;
    assert Cleanup(p, 0, s1, 0) == s1;
    assert Construct(p, 0, s1) == (s1, e);
  }

  // Giving back library 0, which failed, and library 1, which nobody took.
  lemma TwoGivenBack(p: Platform, s: State, m: nat)
    requires Acyclic(p) && Shaped(p, s) && 2 <= m <= |p.deps|
    requires s.refs[0] == 1 && s.err[0] != 0 && s.refs[1] == 0
    ensures TearDown(p, [0, 1], m, s) == s.(refs := s.refs[1 := -1][0 := 0])
  {
    assert [0, 1][1..] == [1] && [1][1..] == [];
    assert TearDown(p, [], m, s) == s;
    assert TearDown(p, [1], m, s) == LibDeinit(p, 1, s);
  }
}
