// When the promises of src/platform_libs.c hold, told from the dependencies and
// the clean-up of the libraries alone: for every result of every constructor and
// every balanced run.
module PlatformConditions {
  import opened PlatformLibs

  // ----- the promises -----

  // Each counter is the outstanding direct references plus the live dependents.
  ghost predicate Explained(p: Platform, ops: seq<Op>) {
    Acyclic(p) && Known(p, ops) && Balanced(ops) ==>
      var s := Run(p, ops);
      forall x :: 0 <= x < |p.deps| ==> s.refs[x] == Direct(ops)[x] + Needed(p, s.log, x, |p.deps|)
  }

  // Constructors run on what has all its dependencies, and destructors on what
  // has no live dependent.
  ghost predicate InOrder(p: Platform, ops: seq<Op>) {
    Acyclic(p) && Known(p, ops) && Balanced(ops) ==> Orderly(p, Run(p, ops).log)
  }

  // From the start, pl_deinit undoes pl_init exactly when every entry before the
  // last comes up.
  ghost predicate Restores(p: Platform, lst: seq<nat>) {
    Acyclic(p) && Below(lst, |p.deps|) ==>
      (Alike(DeinitLst(p, lst, InitLst(p, lst, Start(p)).0), Start(p), |p.deps|)
       <==> AllButLastSucceed(p, lst, Start(p)))
  }

  // ----- when every constructor succeeds -----

  // Every own part of a constructor succeeds from the from-th event on.
  ghost predicate Succeeds(p: Platform, from: nat) {
    forall d: nat, i: nat {:trigger p.own(d, i)} :: i >= from ==> p.own(d, i) == 0
  }

  // Below m no counter is negative, and what is referenced came up.
  ghost predicate Sound(p: Platform, s: State, m: nat)
    requires Shaped(p, s) && m <= |p.deps|
  {
    forall x :: 0 <= x < m ==> s.refs[x] >= 0 && (s.refs[x] > 0 ==> s.err[x] == 0)
  }

  lemma {:induction false} InitSucceeds(p: Platform, l: nat, s: State, m: nat)
    requires Acyclic(p) && Shaped(p, s) && l < m <= |p.deps| && Sync(p, s, m)
    requires Sound(p, s, m) && Succeeds(p, |s.log|)
    ensures var (t, e) := LibInit(p, l, s); e == 0 && t.lost == s.lost && t.refs[l] > 0 && Sound(p, t, m)
    decreases l, |p.deps[l]| + 2
  {
    hide BringUp, Cleanup, Below, Built;
    if s.refs[l] == 0 {
      var s1 := s.(refs := s.refs[l := 1]);
      BringUpSucceeds(p, p.deps[l], l, s1);
      BringUpMoves(p, p.deps[l], l, s1);
    }
  }

  lemma {:induction false} BringUpSucceeds(p: Platform, ds: seq<nat>, m: nat, s: State)
    requires Acyclic(p) && Shaped(p, s) && Below(ds, m) && m <= |p.deps| && Sync(p, s, m)
    requires Sound(p, s, m) && Succeeds(p, |s.log|)
    ensures var (t, e, k) := BringUp(p, ds, m, s); e == 0 && t.lost == s.lost && Sound(p, t, m)
    decreases m, |ds|
  {
    hide LibInit, Built;
    if ds != [] {
      InitSucceeds(p, ds[0], s, m);
      InitMoves(p, ds[0], s, m);
      BringUpSucceeds(p, ds[1..], m, LibInit(p, ds[0], s).0);
    }
  }

  // So pl_init returns 0 whenever constructors succeed.
  lemma PlInitSucceeds(p: Platform, lst: seq<nat>, s: State)
    requires Acyclic(p) && Shaped(p, s) && Below(lst, |p.deps|) && Sync(p, s, |p.deps|)
    requires Sound(p, s, |p.deps|) && Succeeds(p, |s.log|)
    ensures AllCome(p, lst, |lst|, s) && InitLst(p, lst, s).1 == 0
    ensures InitLst(p, lst, s).0 == Took(p, lst, |lst|, s)
  {
    hide Took, Comes;
    BringUpSucceeds(p, lst, |p.deps|, s);
    BringUpCame(p, lst, |p.deps|, s);
  }

  lemma {:induction false} DeinitLowers(p: Platform, l: nat, s: State)
    requires Acyclic(p) && Shaped(p, s) && l < |p.deps|
    ensures var t := LibDeinit(p, l, s); t.err == s.err && forall x :: 0 <= x < |p.deps| ==> t.refs[x] <= s.refs[x]
    decreases l, |p.deps[l]| + 1
  {
    if s.refs[l] == 1 && s.err[l] == 0 {
      TearDownLowers(p, p.deps[l], l, s.(refs := s.refs[l := 0], log := s.log + [Dtor(l)]));
    }
  }

  lemma {:induction false} TearDownLowers(p: Platform, ds: seq<nat>, m: nat, s: State)
    requires Acyclic(p) && Shaped(p, s) && Below(ds, m) && m <= |p.deps|
    ensures var t := TearDown(p, ds, m, s); t.err == s.err && forall x :: 0 <= x < |p.deps| ==> t.refs[x] <= s.refs[x]
    decreases m, |ds|
  {
    hide LibDeinit;
    if ds != [] {
      TearDownLowers(p, ds[1..], m, s);
      DeinitLowers(p, ds[0], TearDown(p, ds[1..], m, s));
    }
  }

  // When no constructor fails, a balanced run loses nothing, however libraries
  // would clean up, and keeps every promise.
  lemma {:induction false} SucceedingConserves(p: Platform, ops: seq<Op>)
    requires Acyclic(p) && Known(p, ops) && Balanced(ops) && Succeeds(p, 0)
    ensures Conserved(p, Run(p, ops), Direct(ops)) && Sound(p, Run(p, ops), |p.deps|)
  {
    if ops == [] {
      LosslessConserves(p, ops);
    } else {
      hide Step, Balanced, Known, Direct, Needed, Orderly, Below, Built, Held, Sync;
      var before, op := ops[..|ops| - 1], ops[|ops| - 1];
      BalancedBefore(ops);
      KnownBefore(p, ops);
      SucceedingConserves(p, before);
      StepSucceeds(p, Run(p, before), op, Direct(before));
      DirectLast(ops);
    }
  }

  lemma KnownBefore(p: Platform, ops: seq<Op>)
    requires Known(p, ops) && ops != []
    ensures Known(p, ops[..|ops| - 1]) && ops[|ops| - 1].lib < |p.deps|
  {
  }

  lemma DirectLast(ops: seq<Op>)
    requires ops != []
    ensures Direct(ops) == Next(Direct(ops[..|ops| - 1]), ops[|ops| - 1])
  {
  }

  lemma StepSucceeds(p: Platform, s: State, op: Op, direct: multiset<nat>)
    requires Conserved(p, s, direct) && Sound(p, s, |p.deps|) && Succeeds(p, 0) && op.lib < |p.deps|
    requires op.Deinit? ==> direct[op.lib] > 0
    ensures Conserved(p, Step(p, s, op), Next(direct, op)) && Sound(p, Step(p, s, op), |p.deps|)
  {
    hide LibInit, LibDeinit, Needed, Orderly, Below, Built;
    match op {
      case Init(l) =>
        InitSucceeds(p, l, s, |p.deps|);
        StepConserves(p, s, op, direct);
      case Deinit(l) =>
        DeinitLowers(p, l, s);
        StepConserves(p, s, op, direct);
        forall x | 0 <= x < |p.deps|
          ensures Step(p, s, op).refs[x] >= 0
        {
          Referenced(p, Step(p, s, op), |p.deps|, Next(direct, op), x);
        }
    }
  }

  // ----- when every constructor fails -----

  ghost predicate Fails(p: Platform) {
    forall d: nat, i: nat {:trigger p.own(d, i)} :: p.own(d, i) != 0
  }

  // No library came up since it was last asked.
  ghost predicate Dead(p: Platform, s: State)
    requires Shaped(p, s)
  {
    forall x :: 0 <= x < |p.deps| ==> s.err[x] != 0
  }

  lemma {:induction false} DeadTearDown(p: Platform, ds: seq<nat>, m: nat, s: State)
    requires Acyclic(p) && Shaped(p, s) && Below(ds, m) && m <= |p.deps| && Dead(p, s)
    ensures var t := TearDown(p, ds, m, s); t.err == s.err && t.log == s.log
    decreases |ds|
  {
    if ds != [] {
      DeadTearDown(p, ds[1..], m, s);
    }
  }

  lemma {:induction false} DeadInit(p: Platform, l: nat, s: State)
    requires Acyclic(p) && Shaped(p, s) && l < |p.deps| && Dead(p, s) && Fails(p)
    ensures var (t, e) := LibInit(p, l, s); e != 0 && Dead(p, t)
    decreases l, |p.deps[l]| + 2
  {
    if s.refs[l] == 0 {
      var s1 := s.(refs := s.refs[l := 1]);
      DeadBringUp(p, p.deps[l], l, s1);
      var (s2, e, k) := BringUp(p, p.deps[l], l, s1);
      DeadCleanup(p, l, s2, k);
    }
  }

  lemma DeadCleanup(p: Platform, l: nat, s: State, k: nat)
    requires Acyclic(p) && Shaped(p, s) && l < |p.deps| && k <= |p.deps[l]| && Dead(p, s)
    ensures Dead(p, Cleanup(p, l, s, k))
  {
    var ds := p.deps[l];
    DeadTearDown(p, ds, l, s.(lost := s.lost + multiset(ds[k..])));
    DeadTearDown(p, ds[..k], l, s);
  }

  lemma {:induction false} DeadBringUp(p: Platform, ds: seq<nat>, m: nat, s: State)
    requires Acyclic(p) && Shaped(p, s) && Below(ds, m) && m <= |p.deps| && Dead(p, s) && Fails(p)
    ensures var (t, e, k) := BringUp(p, ds, m, s); Dead(p, t) && (ds != [] ==> e != 0 && k == 1)
    decreases m, |ds|
  {
    if ds != [] {
      DeadInit(p, ds[0], s);
    }
  }

  // Then a library that gives back all loses its second dependency.
  lemma SecondIsLost(p: Platform, l: nat, s: State)
    requires Acyclic(p) && Shaped(p, s) && l < |p.deps| && Dead(p, s) && Fails(p) && s.refs[l] == 0
    requires p.all(l) && |p.deps[l]| >= 2
    ensures LibInit(p, l, s).0.lost[p.deps[l][1]] > s.lost[p.deps[l][1]]
  {
    hide BringUp, TearDown;
    var ds := p.deps[l];
    var s1 := s.(refs := s.refs[l := 1]);
    DeadBringUp(p, ds, l, s1);
    assert ds[1] in ds[1..];
    assert multiset(ds[1..])[ds[1]] > 0;
  }

  // ----- runs, call by call -----

  lemma Snoc(p: Platform, ops: seq<Op>, op: Op)
    requires Acyclic(p) && Known(p, ops) && Balanced(ops) && op.lib < |p.deps|
    requires op.Deinit? ==> Direct(ops)[op.lib] > 0
    ensures Known(p, ops + [op]) && Balanced(ops + [op])
    ensures Direct(ops + [op]) == Next(Direct(ops), op) && Run(p, ops + [op]) == Step(p, Run(p, ops), op)
  {
    hide Step, Next;
    var more := ops + [op];
    assert more[..|more| - 1] == ops;
    assert forall i :: 0 <= i < |ops| ==> more[..i] == ops[..i];
  }

  lemma {:induction false} GivenIsDirect(ops: seq<Op>, x: nat)
    requires Balanced(ops)
    ensures Given(ops, x) == Direct(ops)[x]
  {
    if ops != [] {
      BalancedBefore(ops);
      GivenIsDirect(ops[..|ops| - 1], x);
    }
  }

  lemma NothingNeeded(p: Platform, s: State, x: nat)
    requires Acyclic(p) && Shaped(p, s) && Dead(p, s) && Sync(p, s, |p.deps|)
    ensures Needed(p, s.log, x, |p.deps|) == 0
  {
    hide Built, Needed;
    NoneBuiltAbove(p, s.log, x, |p.deps|);
  }

  // A run that loses the second dependency of l as often as asked for, and in
  // which nothing comes up or stays referenced.
  lemma {:induction false} Rounds(p: Platform, l: nat, n: nat) returns (ops: seq<Op>)
    requires Acyclic(p) && l < |p.deps| && p.all(l) && |p.deps[l]| >= 2 && Fails(p)
    ensures Known(p, ops) && Balanced(ops) && Direct(ops) == multiset{}
    ensures var s := Run(p, ops); Dead(p, s) && s.refs[l] == 0 && s.lost[p.deps[l][1]] >= n
  {
    if n == 0 {
      ops := [];
    } else {
      hide LibInit, LibDeinit, Run, Known, Balanced, Direct, Below, Built, Held, Needed;
      ops := Rounds(p, l, n - 1);
      var s := Run(p, ops);
      RunAccounts(p, ops);
      DeadInit(p, l, s);
      SecondIsLost(p, l, s);
      OneMore(p, l, s);
      Snoc(p, ops, Init(l));
      ops := ops + [Init(l)];
      Snoc(p, ops, Deinit(l));
      ops := ops + [Deinit(l)];
    }
  }

  lemma OneMore(p: Platform, l: nat, s: State)
    requires Acyclic(p) && Shaped(p, s) && l < |p.deps| && s.refs[l] == 0 && Dead(p, s) && Fails(p)
    requires Sync(p, s, |p.deps|)
    ensures var t := LibInit(p, l, s).0; LibDeinit(p, l, t) == t.(refs := t.refs[l := 0])
  {
    hide BringUp, TearDown, Cleanup, Built, Held;
    ConstructMoves(p, l, s.(refs := s.refs[l := 1]));
    DeadInit(p, l, s);
  }

  // ----- only what happened matters -----

  // q differs from p at most in what constructors return from the n-th event on.
  ghost predicate Agree(p: Platform, q: Platform, n: nat) {
    && q == p.(own := q.own)
    && forall d: nat, i: nat {:trigger p.own(d, i)} {:trigger q.own(d, i)} :: i < n ==> p.own(d, i) == q.own(d, i)
  }

  lemma {:induction false} SameDeinit(p: Platform, q: Platform, l: nat, s: State)
    requires Acyclic(p) && Shaped(p, s) && l < |p.deps| && Agree(p, q, 0)
    ensures LibDeinit(q, l, s) == LibDeinit(p, l, s)
    decreases l, |p.deps[l]| + 1
  {
    if s.refs[l] == 1 && s.err[l] == 0 {
      SameTearDown(p, q, p.deps[l], l, s.(refs := s.refs[l := 0], log := s.log + [Dtor(l)]));
    }
  }

  lemma {:induction false} SameTearDown(p: Platform, q: Platform, ds: seq<nat>, m: nat, s: State)
    requires Acyclic(p) && Shaped(p, s) && Below(ds, m) && m <= |p.deps| && Agree(p, q, 0)
    ensures TearDown(q, ds, m, s) == TearDown(p, ds, m, s)
    decreases m, |ds|
  {
    if ds != [] {
      SameTearDown(p, q, ds[1..], m, s);
      SameDeinit(p, q, ds[0], TearDown(p, ds[1..], m, s));
    }
  }

  lemma {:induction false} SameInit(p: Platform, q: Platform, l: nat, s: State)
    requires Acyclic(p) && Shaped(p, s) && l < |p.deps| && Agree(p, q, |LibInit(p, l, s).0.log|)
    ensures LibInit(q, l, s) == LibInit(p, l, s)
    decreases l, |p.deps[l]| + 2
  {
    if s.refs[l] == 0 {
      var ds, s1 := p.deps[l], s.(refs := s.refs[l := 1]);
      var (s2, e, k) := BringUp(p, ds, l, s1);
      assert s2.log <= Cleanup(p, l, s2, k).log;
      assert |s2.log| < |LibInit(p, l, s).0.log|;
      SameBringUp(p, q, ds, l, s1);
      SameTearDown(p, q, ds, l, s2.(lost := s2.lost + multiset(ds[k..])));
      SameTearDown(p, q, ds[..k], l, s2);
    }
  }

  lemma {:induction false} SameBringUp(p: Platform, q: Platform, ds: seq<nat>, m: nat, s: State)
    requires Acyclic(p) && Shaped(p, s) && Below(ds, m) && m <= |p.deps| && Agree(p, q, |BringUp(p, ds, m, s).0.log|)
    ensures BringUp(q, ds, m, s) == BringUp(p, ds, m, s)
    decreases m, |ds|
  {
    if ds != [] {
      SameInit(p, q, ds[0], s);
      var (s1, e) := LibInit(p, ds[0], s);
      if e == 0 {
        SameBringUp(p, q, ds[1..], m, s1);
      }
    }
  }

  lemma {:induction false} SameRun(p: Platform, q: Platform, ops: seq<Op>)
    requires Acyclic(p) && Known(p, ops) && Agree(p, q, |Run(p, ops).log|)
    ensures Acyclic(q) && Known(q, ops) && Run(q, ops) == Run(p, ops)
  {
    hide LibInit, LibDeinit;
    if ops != [] {
      var before, op := ops[..|ops| - 1], ops[|ops| - 1];
      SameRun(p, q, before);
      match op {
        case Init(l) => SameInit(p, q, l, Run(p, before));
        case Deinit(l) => SameDeinit(p, q, l, Run(p, before));
      }
    }
  }

  // ----- losing references until a live dependent loses its dependency -----

  // Ask for every library until its counter is back at zero; none is constructed.
  lemma {:induction false} Raise(p: Platform, ops: seq<Op>, x: nat) returns (more: seq<Op>)
    requires Acyclic(p) && Known(p, ops) && Balanced(ops) && x <= |p.deps|
    requires var s := Run(p, ops);
             && Dead(p, s)
             && forall y :: 0 <= y < |p.deps| ==> if y < x then s.refs[y] == 0 else s.refs[y] <= 0
    ensures Known(p, more) && Balanced(more)
    ensures var s, t := Run(p, ops), Run(p, more);
            t == s.(refs := t.refs) && forall y :: 0 <= y < |p.deps| ==> t.refs[y] == 0
    decreases |p.deps| - x, if x < |p.deps| then -Run(p, ops).refs[x] else 0
  {
    hide Run, Known, Balanced, Direct, Below;
    var s := Run(p, ops);
    if x == |p.deps| {
      more := ops;
    } else if s.refs[x] == 0 {
      more := Raise(p, ops, x + 1);
    } else {
      Snoc(p, ops, Init(x));
      more := Raise(p, ops + [Init(x)], x);
    }
  }

  // How many dependencies there are in all.
  function Edges(deps: seq<seq<nat>>, k: nat): nat
    requires k <= |deps|
  {
    if k == 0 then 0 else Edges(deps, k - 1) + |deps[k - 1]|
  }

  lemma CountAtMost(s: seq<nat>, x: nat)
    ensures multiset(s)[x] <= |s|
  {
    assert |multiset(s)| == |s|;
    assert multiset(s)[x := 0] <= multiset(s);
    assert multiset(s) == multiset(s)[x := 0] + multiset{}[x := multiset(s)[x]];
  }

  lemma {:induction false} NeededAtMost(p: Platform, log: seq<Event>, x: nat, k: nat)
    requires k <= |p.deps|
    ensures Needed(p, log, x, k) <= Edges(p.deps, k)
  {
    if k > 0 {
      CountAtMost(p.deps[k - 1], x);
      NeededAtMost(p, log, x, k - 1);
    }
  }

  // Give d back until it is destroyed, with l, which depends on it, constructed.
  lemma {:induction false} Drop(p: Platform, ops: seq<Op>, d: nat, l: nat) returns (more: seq<Op>)
    requires Acyclic(p) && Known(p, ops) && Balanced(ops) && l < |p.deps| && d in p.deps[l]
    requires var s := Run(p, ops); 0 < s.refs[d] <= Direct(ops)[d] && s.err[d] == 0 && Built(s.log, l)
    ensures !InOrder(p, more)
    decreases Run(p, ops).refs[d]
  {
    var s := Run(p, ops);
    Snoc(p, ops, Deinit(d));
    more := ops + [Deinit(d)];
    hide Run, Known, Balanced, Direct, Below, TearDown, Built;
    if s.refs[d] == 1 {
      Misplaced(p, s.log, Run(p, more).log, d, l);
    } else {
      more := Drop(p, more, d, l);
    }
  }

  lemma Misplaced(p: Platform, before: seq<Event>, log: seq<Event>, d: nat, l: nat)
    requires before + [Dtor(d)] <= log && l < |p.deps| && d in p.deps[l] && Built(before, l)
    ensures !Orderly(p, log)
  {
    assert log[..|before|] == before && log[|before|] == Dtor(d);
    assert !Proper(p, log[..|before|], log[|before|]);
  }

  lemma SameAcyclic(p: Platform, q: Platform)
    requires Acyclic(p) && q.deps == p.deps
    ensures Acyclic(q)
  {
  }

  // Where nothing is constructed, a counter is its direct references short of
  // what was lost.
  lemma DeadAccounts(p: Platform, ops: seq<Op>)
    requires Acyclic(p) && Known(p, ops) && Balanced(ops) && Dead(p, Run(p, ops))
    ensures var s := Run(p, ops);
            Sync(p, s, |p.deps|) && forall x :: 0 <= x < |p.deps| ==> s.refs[x] + s.lost[x] == Direct(ops)[x]
  {
    hide Run, Known, Balanced, Direct, Given, Needed, Built;
    RunAccounts(p, ops);
    forall x | 0 <= x < |p.deps|
      ensures Given(ops, x) == Direct(ops)[x] && Needed(p, Run(p, ops).log, x, |p.deps|) == 0
    {
      GivenIsDirect(ops, x);
      NothingNeeded(p, Run(p, ops), x);
    }
  }

  // With all counters at zero, l comes up and holds its dependency d up, which
  // was asked for directly as often as it was lost.
  lemma ComesUp(p: Platform, ops: seq<Op>, l: nat, d: nat)
    requires Acyclic(p) && Known(p, ops) && Balanced(ops) && l < |p.deps| && d in p.deps[l]
    requires var s := Run(p, ops);
             && Dead(p, s) && Succeeds(p, |s.log|) && (forall x :: 0 <= x < |p.deps| ==> s.refs[x] == 0)
             && Edges(p.deps, |p.deps|) <= s.lost[d]
    ensures var up := ops + [Init(l)];
            && Known(p, up) && Balanced(up)
            && 0 < Run(p, up).refs[d] <= Direct(up)[d] && Run(p, up).err[d] == 0 && Built(Run(p, up).log, l)
  {
    hide Run, Known, Balanced, Direct, LibInit, Built, Needed, Given, Edges;
    var n, s, up := |p.deps|, Run(p, ops), ops + [Init(l)];
    DeadAccounts(p, ops);
    InitSucceeds(p, l, s, n);
    InitMoves(p, l, s, n);
    Snoc(p, ops, Init(l));
    var t := Run(p, up);
    assert t == LibInit(p, l, s).0;
    RunAccounts(p, up);
    GivenIsDirect(up, d);
    NeededAtMost(p, t.log, d, n);
    assert Needed(p, t.log, d, n) > 0 by {
      if Needed(p, t.log, d, n) == 0 {
        Unneeded(p, t.log, d, n);
      }
    }
  }

  // With a library that is not tidy, a run in which a library is destroyed under
  // a live dependent: the constructors fail up to some event, and then succeed.
  lemma Disorder(p: Platform, l: nat) returns (q: Platform, ops: seq<Op>)
    requires Acyclic(p) && l < |p.deps| && p.all(l) && |p.deps[l]| >= 2
    ensures q == p.(own := q.own) && !InOrder(q, ops)
  {
    hide Run, Known, Balanced, Direct, LibInit, LibDeinit, Built, Needed, Held, Edges;
    var n, d := |p.deps|, p.deps[l][1];
    assert d in p.deps[l];
    var fails := p.(own := (_, _) => 1);
    SameAcyclic(p, fails);
    ops := Rounds(fails, l, Edges(p.deps, n));
    var from := |Run(fails, ops).log|;
    q := p.(own := (d: nat, i: nat) => if i < from then 1 else 0);
    SameAcyclic(p, q);
    SameRun(fails, q, ops);
    DeadAccounts(q, ops);
    ops := Raise(q, ops, 0);
    ComesUp(q, ops, l, d);
    ops := Drop(q, ops + [Init(l)], d, l);
  }

  // ----- the conditions -----

  // However constructors turn out, every counter is explained over every
  // balanced run exactly if the libraries are tidy.
  lemma ExplainedIff(p: Platform)
    requires Acyclic(p)
    ensures Tidy(p.deps, p.all) <==> forall own: (nat, nat) -> int, ops: seq<Op> :: Explained(p.(own := own), ops)
  {
    if Tidy(p.deps, p.all) {
      forall own: (nat, nat) -> int, ops: seq<Op>
        ensures Explained(p.(own := own), ops)
      {
        TidyExplained(p.(own := own), ops);
      }
    } else {
      var l: nat :| l < |p.deps| && p.all(l) && |p.deps[l]| > 1;
      var q := p.(own := (_, _) => 1);
      Unexplained(q, l);
      assert !Explained(p.(own := q.own), [Init(l)]);
    }
  }

  lemma TidyExplained(p: Platform, ops: seq<Op>)
    requires Tidy(p.deps, p.all)
    ensures Explained(p, ops) && InOrder(p, ops)
  {
    hide Tidy;
    if Acyclic(p) && Known(p, ops) && Balanced(ops) {
      RunConserves(p, ops);
    }
  }

  lemma Unexplained(p: Platform, l: nat)
    requires Acyclic(p) && l < |p.deps| && p.all(l) && |p.deps[l]| > 1 && Fails(p)
    ensures !Explained(p, [Init(l)]) && LibInit(p, l, Start(p)).0.lost[p.deps[l][1]] > 0
  {
    hide LibInit, Needed, Given, Direct, Built, Run, Known, Balanced;
    OneInit(p, l);
    SecondIsLost(p, l, Start(p));
    RunAccounts(p, [Init(l)]);
    GivenIsDirect([Init(l)], p.deps[l][1]);
  }

  lemma OneInit(p: Platform, l: nat)
    requires Acyclic(p) && l < |p.deps|
    ensures Known(p, [Init(l)]) && Balanced([Init(l)]) && Run(p, [Init(l)]) == LibInit(p, l, Start(p)).0
  {
    hide LibInit;
    assert Run(p, []) == Start(p);
    Snoc(p, [], Init(l));
    assert [] + [Init(l)] == [Init(l)];
  }

  // And constructors and destructors run in order exactly then.
  lemma OrderIff(p: Platform)
    requires Acyclic(p)
    ensures Tidy(p.deps, p.all) <==> forall own: (nat, nat) -> int, ops: seq<Op> :: InOrder(p.(own := own), ops)
  {
    if Tidy(p.deps, p.all) {
      forall own: (nat, nat) -> int, ops: seq<Op>
        ensures InOrder(p.(own := own), ops)
      {
        TidyExplained(p.(own := own), ops);
      }
    } else {
      var l: nat :| l < |p.deps| && p.all(l) && |p.deps[l]| > 1;
      var q, ops := Disorder(p, l);
      assert !InOrder(p.(own := q.own), ops);
    }
  }

  // And pl_deinit undoes pl_init, when no entry before the last fails and only
  // then, exactly then.
  lemma RestoresAlwaysIff(p: Platform)
    requires Acyclic(p)
    ensures Tidy(p.deps, p.all) <==> forall own: (nat, nat) -> int, lst: seq<nat> :: Restores(p.(own := own), lst)
  {
    hide Alike, DeinitLst, InitLst, AllButLastSucceed;
    if Tidy(p.deps, p.all) {
      forall own: (nat, nat) -> int, lst: seq<nat>
        ensures Restores(p.(own := own), lst)
      {
        TidyRestores(p.(own := own), lst);
      }
    } else {
      var l: nat :| l < |p.deps| && p.all(l) && |p.deps[l]| > 1;
      var q := p.(own := (_, _) => 1);
      NotRestored(q, l);
      assert !Restores(p.(own := q.own), [l]);
    }
  }

  lemma TidyRestores(p: Platform, lst: seq<nat>)
    requires Tidy(p.deps, p.all)
    ensures Restores(p, lst)
  {
    hide Tidy;
    if Acyclic(p) && Below(lst, |p.deps|) {
      StartNeeds(p);
      RestoresIffTidy(p, lst, Start(p));
    }
  }

  lemma NotRestored(p: Platform, l: nat)
    requires Acyclic(p) && l < |p.deps| && p.all(l) && |p.deps[l]| > 1 && Fails(p)
    ensures !Restores(p, [l])
  {
    hide LibInit, Alike, DeinitLst;
    StartNeeds(p);
    Unexplained(p, l);
    DeadInit(p, l, Start(p));
    RestoresIff(p, [l], Start(p));
    assert InitLst(p, [l], Start(p)).0 == LibInit(p, l, Start(p)).0;
  }

  // ----- a library destroyed under a live dependent -----

  // Library 2 needs 1; library 3 needs 0, which fails, and 1, and gives back all.
  lemma DestroyedUnderDependent(all: nat -> bool)
    requires all(3)
    ensures var p := Platform([[], [], [1], [0, 1]], (l, _) => if l == 0 then 1 else 0, all);
            var ops := [Init(2), Init(3)];
            && Acyclic(p) && Known(p, ops) && Balanced(ops)
            && Run(p, ops).log == [Ctor(1, 0), Ctor(2, 0), Ctor(0, 1), Dtor(1), Ctor(3, 1)]
            && Run(p, ops).refs == [0, 0, 1, 1] && !InOrder(p, ops)
  {
    hide LibInit, LibDeinit, Run, Built, Orderly, Known, Balanced, Direct;
    var p := Platform([[], [], [1], [0, 1]], (l, _) => if l == 0 then 1 else 0, all);
    var s := Start(p);
    assert s == State([0, 0, 0, 0], [-1, -1, -1, -1], [], multiset{});
    OneInit(p, 2);
    Snoc(p, [Init(2)], Init(3));
    assert [Init(2)] + [Init(3)] == [Init(2), Init(3)];
    var u := State([0, 1, 1, 0], [-1, 0, 0, -1], [Ctor(1, 0), Ctor(2, 0)], multiset{});
    var t := State([0, 0, 1, 1], [1, 0, 0, 1], [Ctor(1, 0), Ctor(2, 0), Ctor(0, 1), Dtor(1), Ctor(3, 1)], multiset{1});
    SecondComesUp(p, s, u);
    ThirdFails(p, u, t);
    SecondIsBuilt();
    Misplaced(p, [Ctor(1, 0), Ctor(2, 0), Ctor(0, 1)], t.log, 1, 2);
  }

  lemma SecondIsBuilt()
    ensures Built([Ctor(1, 0), Ctor(2, 0), Ctor(0, 1)], 2)
  {
    assert [Ctor(1, 0), Ctor(2, 0), Ctor(0, 1)] == [Ctor(1, 0), Ctor(2, 0)] + [Ctor(0, 1)];
    assert [Ctor(1, 0), Ctor(2, 0)] == [Ctor(1, 0)] + [Ctor(2, 0)];
    BuiltStep([Ctor(1, 0)], Ctor(2, 0), 2);
    BuiltStep([Ctor(1, 0), Ctor(2, 0)], Ctor(0, 1), 2);
  }

  // Library 1, on its own, and then library 2 come up.
  lemma SecondComesUp(p: Platform, s: State, u: State)
    requires Acyclic(p) && p.deps == [[], [], [1], [0, 1]] && forall i :: p.own(1, i) == 0 && p.own(2, i) == 0
    requires s == State([0, 0, 0, 0], [-1, -1, -1, -1], [], multiset{})
    requires u == State([0, 1, 1, 0], [-1, 0, 0, -1], [Ctor(1, 0), Ctor(2, 0)], multiset{})
    ensures LibInit(p, 2, s) == (u, 0)
  {
    var s1 := State([0, 0, 1, 0], [-1, -1, -1, -1], [], multiset{});
    assert s1 == s.(refs := s.refs[2 := 1]);
    var s2 := State([0, 1, 1, 0], [-1, -1, -1, -1], [], multiset{});
    assert s2 == s1.(refs := s1.refs[1 := 1]);
    assert BringUp(p, [], 1, s2) == (s2, 0, 0);
    assert Construct(p, 1, s2) == (s2, 0);
    var s3 := State([0, 1, 1, 0], [-1, 0, -1, -1], [Ctor(1, 0)], multiset{});
    assert s2.err[1 := 0] == s3.err && s2.log + [Ctor(1, 0)] == s3.log;
    assert LibInit(p, 1, s1) == (s3, 0);
    assert [1][1..] == [];
    assert BringUp(p, [1], 2, s1) == (s3, 0, 1);
    assert Construct(p, 2, s1) == (s3, 0);
    assert s3.err[2 := 0] == u.err && s3.log + [Ctor(2, 0)] == u.log;
  }

  // Library 3 fails at library 0 and gives back library 1.
  lemma ThirdFails(p: Platform, u: State, t: State)
    requires Acyclic(p) && p.deps == [[], [], [1], [0, 1]] && p.all(3) && forall i :: p.own(0, i) == 1
    requires u == State([0, 1, 1, 0], [-1, 0, 0, -1], [Ctor(1, 0), Ctor(2, 0)], multiset{})
    requires t == State([0, 0, 1, 1], [1, 0, 0, 1],
                        [Ctor(1, 0), Ctor(2, 0), Ctor(0, 1), Dtor(1), Ctor(3, 1)], multiset{1})
    ensures LibInit(p, 3, u) == (t, 1)
  {
    var u1 := u.(refs := [0, 1, 1, 1]);
    assert u1 == u.(refs := u.refs[3 := 1]);
    FirstFails(p, u1);
    var u2 := State([1, 1, 1, 1], [1, 0, 0, -1], [Ctor(1, 0), Ctor(2, 0), Ctor(0, 1)], multiset{});
    assert u1.refs[0 := 1] == u2.refs && u1.err[0 := 1] == u2.err && u1.log + [Ctor(0, 1)] == u2.log;
    assert BringUp(p, [0, 1], 3, u1) == (u2, 1, 1);
    var u3 := u2.(lost := multiset{1});
    assert [0, 1][1..] == [1];
    assert u3 == u2.(lost := u2.lost + multiset([0, 1][1..]));
    var u5 := State([0, 0, 1, 1], [1, 0, 0, -1], u2.log + [Dtor(1)], multiset{1});
    FirstLastGivenBack(p, u3, u5);
    hide TearDown, BringUp, LibInit;
    assert Cleanup(p, 3, u2, 1) == u5;
    assert Construct(p, 3, u1) == (u5, 1);
    assert u5.err[3 := 1] == t.err && u5.log + [Ctor(3, 1)] == t.log;
    Constructed(p, 3, u);
  }

  // Libraries 0, which failed, and 1, which is up, lose their last reference.
  lemma FirstLastGivenBack(p: Platform, u3: State, u5: State)
    requires Acyclic(p) && p.deps == [[], [], [1], [0, 1]] && Shaped(p, u3)
    requires u3.refs == [1, 1, 1, 1] && u3.err[0] != 0 && u3.err[1] == 0
    requires u5 == u3.(refs := [0, 0, 1, 1], log := u3.log + [Dtor(1)])
    ensures TearDown(p, [0, 1], 3, u3) == u5
  {
    assert [0, 1][1..] == [1] && [1][1..] == [];
    var u4 := u3.(refs := [1, 0, 1, 1], log := u3.log + [Dtor(1)]);
    assert u3.refs[1 := 0] == u4.refs;
    assert TearDown(p, [], 3, u3) == u3;
    assert TearDown(p, [], 1, u4) == u4;
    assert LibDeinit(p, 1, u3) == u4;
    assert TearDown(p, [1], 3, u3) == u4;
    assert u4.refs[0 := 0] == u5.refs;
    assert LibDeinit(p, 0, u4) == u5;
  }
}
