// What the calls of inc/pls.h come back with, and that they come back.
module PlsCalls {
  import opened Wrappers
  import opened Ints
  import opened Pls

  // The first of the last r blocks of a list that has the key, or 0.
  ghost function NewestOf(heap: map<nat, Node>, list: seq<nat>, r: nat, key: Key): nat
    requires r <= |list|
  {
    if r == 0 then 0 else
    var p := list[|list| - r];
    if p in heap && heap[p].key == key then p else NewestOf(heap, list, r - 1, key)
  }

  // What pls_lookup finds in a state.
  ghost function Newest(s: State, key: Key): nat {
    NewestOf(s.heap, s.list, |s.list|, key)
  }

  // ----- what a step of another thread leaves to u -----

  ghost predicate Kept(s: State, s': State, u: nat) {
    && u in s.threads && u in s'.threads && s'.threads[u] == s.threads[u]
    && Grows(ViewOf(s), ViewOf(s'), u)
    && (u in s.answers ==> u in s'.answers && s'.answers[u] == s.answers[u])
    && s.handed <= s'.handed && s.pushed <= s'.pushed && s.nextId <= s'.nextId
  }

  // A step of thread t that leaves the list, and every block but p.
  ghost predicate Local(s: State, s': State, t: nat, p: nat) {
    s'.list == s.list && HeapBut(s.heap, s'.heap, p) && Others(s, s', t)
  }

  ghost predicate HeapBut(heap: map<nat, Node>, heap': map<nat, Node>, p: nat) {
    forall q {:trigger q in heap} :: q in heap && q != p ==> q in heap' && heap'[q] == heap[q]
  }

  ghost predicate Others(s: State, s': State, t: nat) {
    && MapBut(s.threads, s'.threads, t) && MapBut(s.answers, s'.answers, t)
    && s.handed <= s'.handed && s.pushed <= s'.pushed && s.nextId <= s'.nextId
  }

  ghost predicate MapBut<V>(a: map<nat, V>, b: map<nat, V>, t: nat) {
    forall u {:trigger u in a} :: u in a && u != t ==> u in b && b[u] == a[u]
  }

  lemma ToLocal(s: State, s': State, t: nat, p: nat, pc: PC)
    requires Local(s, s', t, p)
    ensures Local(s, To(s', t, pc), t, p)
  {
  }

  lemma BackLocal(s: State, s': State, t: nat, p: nat, r: nat)
    requires Local(s, s', t, p)
    ensures Local(s, Back(s', t, r), t, p)
  {
    hide HeapBut;
  }

  lemma FreeLocal(s: State, t: nat, p: nat, key: Key, w: nat)
    requires p in s.heap
    ensures Local(s, Free(s, p).(handed := s.handed + {(key, w)}), t, p)
  {
  }

  lemma Same(s: State, t: nat, p: nat)
    ensures Local(s, s, t, p)
  {
  }

  // A step that only moves its thread.
  lemma MoveLocal(s: State, t: nat, p: nat)
    ensures Local(s, s, t, p)
    ensures forall pc :: Local(s, To(s, t, pc), t, p)
  {
    hide Local, To;
    Same(s, t, p);
    forall pc ensures Local(s, To(s, t, pc), t, p) {
      ToLocal(s, s, t, p, pc);
    }
  }

  lemma FoundLocal(s: State, t: nat, use: Use, w: nat)
    ensures Local(s, Found(s, t, use, w), t, PrivateOf(WalkHead(use)))
  {
    hide Local, Free, To, Back;
    Same(s, t, PrivateOf(WalkHead(use)));
    match use {
      case Query(_) => BackLocal(s, s, t, 0, w);
      case First(key, _) =>
        HandLocal(s, t, key, w);
        BackLocal(s, s.(handed := s.handed + {(key, w)}), t, 0, w);
      case Again(p, key, _, _) =>
        ToLocal(s, s, t, p, Crash);
        if p in s.heap {
          FreeLocal(s, t, p, key, w);
          FreeHanded(s, p);
          BackLocal(s, Free(s, p).(handed := s.handed + {(key, w)}), t, p, w);
        }
    }
  }

  lemma HandLocal(s: State, t: nat, key: Key, w: nat)
    ensures Local(s, s.(handed := s.handed + {(key, w)}), t, 0)
  {
    hide MapBut, HeapBut;
    SameMaps(s, t);
  }

  lemma SameMaps(s: State, t: nat)
    ensures HeapBut(s.heap, s.heap, 0) && MapBut(s.threads, s.threads, t) && MapBut(s.answers, s.answers, t)
  {
  }

  lemma WalkLocal(s: State, t: nat, use: Use, w: nat, rest: nat)
    ensures Local(s, WalkStep(s, t, use, w, rest), t, PrivateOf(WalkHead(use)))
  {
    hide Local, Found, To, Back, PrivateOf;
    var p := PrivateOf(WalkHead(use));
    MoveLocal(s, t, p);
    BackLocal(s, s, t, p, 0);
    FoundLocal(s, t, use, w);
  }

  lemma LoadLocal(s: State, t: nat, p: nat, single: bool)
    ensures Local(s, LoadStep(s, t, p, single), t, p)
  {
    hide Local, To;
    MoveLocal(s, t, p);
    if p in s.heap {
      var s' := s.(heap := s.heap[p := s.heap[p].(next := s.lst)]);
      assert Local(s, s', t, p) by { WithHeap(s, s'.heap, t, p); }
      ToLocal(s, s', t, p, WalkHead(Again(p, s.heap[p].key, |s.list|, 0)));
      ToLocal(s, s', t, p, Cas(p, false, |s.list|));
    }
  }

  lemma WithHeap(s: State, heap: map<nat, Node>, t: nat, p: nat)
    requires HeapBut(s.heap, heap, p)
    ensures Local(s, s.(heap := heap), t, p)
  {
    hide HeapBut;
  }

  lemma DeSubLocal(s: State, t: nat)
    ensures Local(s, DeSubStep(s, t), t, 0)
  {
    hide Local, To;
    var s' := s.(uRefs := if s.uRefs == 0 then UINT_MAX else s.uRefs - 1);
    Counted(s, s'.uRefs, s.extra, s.phase, t);
    Counted(s, s'.uRefs, s.extra, Emptying(t), t);
    ToLocal(s, s'.(phase := Emptying(t)), t, 0, DeXchg);
    ToLocal(s, s', t, 0, Done);
  }

  lemma Counted(s: State, uRefs: nat, extra: bool, phase: Phase, t: nat)
    ensures Local(s, s.(uRefs := uRefs, extra := extra, phase := phase), t, 0)
  {
    hide MapBut, HeapBut;
    SameMaps(s, t);
  }

  lemma PublishOthers(s: State, t: nat, p: nat, single: bool)
    requires p in s.heap
    ensures Others(s, Publish(s, t, p, single), t)
  {
  }

  lemma PrivateMine(c: Config, s: State, t: nat)
    requires Inv(c, s) && t in s.threads
    ensures var p := PrivateOf(s.threads[t]); p in s.heap ==> s.heap[p].own == Private(t)
  {
    CheckOk(c, ViewOf(s), s.threads, t);
    hide ListInv, IdInv, ThreadsInv, RefInv, KeyInv, OrderInv;
  }

  lemma LocalKept(c: Config, s: State, s': State, t: nat, p: nat, u: nat)
    requires Inv(c, s) && Inv(c, s') && Local(s, s', t, p) && (p in s.heap ==> s.heap[p].own == Private(t))
    requires u in s.threads && u != t && Holds(c, u, s.threads[u])
    ensures Kept(s, s', u)
  {
    hide ListInv, HeapInv, IdInv, ThreadsInv, RefInv, KeyInv, OrderInv, Grows, Holds;
    HolderRuns(c, s, u);
    HolderRuns(c, s', u);
    GrowsKeep(s, s', t, p);
  }

  lemma PublishKept(c: Config, s: State, t: nat, p: nat, single: bool, snap: nat, u: nat)
    requires Inv(c, s) && t in s.threads && s.threads[t] == Cas(p, single, snap)
    requires p in s.heap && s.lst == s.heap[p].next
    requires u in s.threads && u != t && Holds(c, u, s.threads[u])
    ensures Kept(s, Publish(s, t, p, single), u)
  {
    hide ListInv, HeapInv, IdInv, ThreadsInv, RefInv, KeyInv, OrderInv, Grows, Holds, Publish, Absent;
    NoAba(c, s, t, p, single, snap);
    GrowsPush(s, t, p, u, single);
    PublishOthers(s, t, p, single);
  }

  lemma NoDrain(c: Config, s: State, t: nat, u: nat)
    requires Inv(c, s) && t in s.threads && u in s.threads && Holds(c, u, s.threads[u])
    ensures !Draining(s.threads[t])
  {
    CheckOk(c, ViewOf(s), s.threads, t);
    HolderRuns(c, s, u);
  }

  // While a thread holds a reference, another thread's step leaves alone all
  // it depends on.
  lemma StepKept(c: Config, s: State, t: nat, a: Action, u: nat)
    requires NoAlias(c) && Inv(c, s) && u in s.threads && u != t && Holds(c, u, s.threads[u])
    ensures var r := Next(c, s, t, a); r.Some? ==> Inv(c, r.value) && Kept(s, r.value, u)
  {
    hide Inv, NoAlias, Holds, Local, Kept, To, Back, WalkStep, LoadStep, CasStep, DeSubStep, DrainStep, Draining;
    var r := Next(c, s, t, a);
    if r.Some? {
      StepInv(c, s, t, a);
      NoDrain(c, s, t, u);
      var pc, s' := s.threads[t], r.value;
      MoveLocal(s, t, 0);
      BackLocal(s, s, t, 0, 0);
      var p := PrivateOf(pc);
      PrivateMine(c, s, t);
      if pc.Cas? {
        CasKept(c, s, t, pc.p, pc.single, pc.snap, u);
      } else {
        StepLocal(c, s, t, a);
        LocalKept(c, s, s', t, if a.Allocate? then a.p else p, u);
      }
    }
  }

  lemma CasKept(c: Config, s: State, t: nat, p: nat, single: bool, snap: nat, u: nat)
    requires Inv(c, s) && t in s.threads && s.threads[t] == Cas(p, single, snap)
    requires Inv(c, CasStep(s, t, p, single))
    requires u in s.threads && u != t && Holds(c, u, s.threads[u])
    ensures Kept(s, CasStep(s, t, p, single), u)
  {
    hide Inv, Holds, Local, Kept, To, Publish;
    PrivateMine(c, s, t);
    MoveLocal(s, t, p);
    if p in s.heap && s.lst == s.heap[p].next {
      PublishKept(c, s, t, p, single, snap, u);
    } else {
      LocalKept(c, s, CasStep(s, t, p, single), t, p, u);
    }
  }

  lemma StepLocal(c: Config, s: State, t: nat, a: Action)
    requires t in s.threads && !Draining(s.threads[t]) && !s.threads[t].Cas?
    ensures var r := Next(c, s, t, a);
            r.Some? ==> Local(s, r.value, t, if a.Allocate? then a.p else PrivateOf(s.threads[t]))
  {
    hide Local, To, Back, WalkStep, LoadStep, DeSubStep;
    MoveLocal(s, t, PrivateOf(s.threads[t]));
    match a
    case Go =>
      match s.threads[t] {
        case InitCas(cur) =>
          MoveLocal(s, t, 0);
          Counted(s, cur + 1, s.extra || t == c.prim, s.phase, t);
          ToLocal(s, s.(uRefs := cur + 1, extra := s.extra || t == c.prim), t, 0, Live);
        case Walk(use, w, rest) => WalkLocal(s, t, use, w, rest);
        case Load(p, single) => LoadLocal(s, t, p, single);
        case DeSub => DeSubLocal(s, t);
        case _ =>
      }
    case Begin(op) =>
    case Allocate(p) =>
      if s.threads[t].Check? && p !in s.heap {
        var n := Node(0, s.threads[t].key, s.threads[t].dtor, s.nextId, Private(t));
        var s' := s.(heap := s.heap[p := n], nextId := s.nextId + 1, kind := s.kind[n.id := n.hasDtor],
                     live := s.live[n.id := p]);
        NewLocal(s, t, p, n);
        ToLocal(s, s', t, p, Load(p, s.threads[t].single));
      }
    case AllocateFails =>
      MoveLocal(s, t, 0);
      BackLocal(s, s, t, 0, 0);
  }

  lemma NewLocal(s: State, t: nat, p: nat, n: Node)
    ensures Local(s, s.(heap := s.heap[p := n], nextId := s.nextId + 1, kind := s.kind[n.id := n.hasDtor],
                        live := s.live[n.id := p]), t, p)
  {
  }

  // ----- what a call comes back with -----

  // A walk for key that began on the list of v0 has rest blocks to go.
  ghost predicate WalkFrom(v0: View, v: View, t: nat, key: Key, rest: nat) {
    && Grows(v0, v, t) && rest <= |v0.list|
    && (forall i {:trigger v0.list[i]} :: 0 <= i < |v0.list| ==> v0.list[i] in v0.heap)
    && NewestOf(v0.heap, v0.list, |v0.list|, key) == NewestOf(v0.heap, v0.list, rest, key)
  }

  // A block for key that was made after m, and that only t knows.
  ghost predicate Own(m: State, s: State, t: nat, p: nat, key: Key, dtor: bool) {
    && p in s.heap && s.heap[p].own == Private(t) && s.heap[p].key == key && s.heap[p].hasDtor == dtor
    && m.nextId <= s.heap[p].id
  }

  // A block for key that was made after m, and is on the list.
  ghost predicate Added(m: State, s: State, p: nat, key: Key, dtor: bool) {
    && p in s.list && p in s.heap && s.heap[p].key == key && s.heap[p].hasDtor == dtor
    && m.nextId <= s.heap[p].id && s.heap[p].id in s.pushed
  }

  ghost predicate InLookup(m: State, s: State, t: nat, key: Key) {
    t in s.threads
    && match s.threads[t]
       case Walk(use, _, rest) => use == Query(key) && WalkFrom(ViewOf(m), ViewOf(s), t, key, rest)
       case Live => t in s.answers && s.answers[t] == Newest(m, key)
       case _ => false
  }

  ghost predicate InAdd(m: State, s: State, t: nat, key: Key, dtor: bool, failed: bool) {
    t in s.threads
    && match s.threads[t]
       case Check(k, d, single) => k == key && d == dtor && !single && !failed && m.nextId <= s.nextId
       case Load(p, single) => Own(m, s, t, p, key, dtor) && !single && !failed
       case Cas(p, single, _) => Own(m, s, t, p, key, dtor) && !single && !failed
       case Live => t in s.answers && if failed then s.answers[t] == 0 else Added(m, s, s.answers[t], key, dtor)
       case _ => false
  }

  // Nothing was there when the first walk began, and nothing failed so far.
  ghost predicate Racing(m: State, s: State, t: nat, p: nat, key: Key, dtor: bool) {
    Own(m, s, t, p, key, dtor) && Newest(m, key) == 0
  }

  ghost predicate InSingleton(m: State, s: State, t: nat, key: Key, dtor: bool, failed: bool) {
    t in s.threads
    && match s.threads[t]
       case WalkHead(Again(p, k, _, _)) => Racing(m, s, t, p, key, dtor) && k == key && !failed
       case Walk(Again(p, k, _, _), _, _) => Racing(m, s, t, p, key, dtor) && k == key && !failed
       case Walk(use, _, rest) => use == First(key, dtor) && WalkFrom(ViewOf(m), ViewOf(s), t, key, rest) && !failed
       case Check(k, d, single) =>
         k == key && d == dtor && single && Newest(m, key) == 0 && m.nextId <= s.nextId && !failed
       case Load(p, single) => Racing(m, s, t, p, key, dtor) && single && !failed
       case Cas(p, single, _) => Racing(m, s, t, p, key, dtor) && single && !failed
       case Live => SingletonAnswer(m, s, t, key, failed)
       case _ => false
  }

  // What was there when the first walk began; else 0 if the call failed, else
  // a block that is handed out for the key.
  ghost predicate SingletonAnswer(m: State, s: State, t: nat, key: Key, failed: bool) {
    t in s.answers
    && var p, found := s.answers[t], Newest(m, key);
       if found != 0 then p == found && !failed && (key, p) in s.handed
       else if failed then p == 0
       else (key, p) in s.handed
  }

  ghost predicate InCall(op: Op, m: State, s: State, t: nat, failed: bool) {
    match op
    case Lookup(key) => InLookup(m, s, t, key) && !failed
    case Add(key, dtor) => InAdd(m, s, t, key, dtor, failed)
    case Singleton(key, dtor) => InSingleton(m, s, t, key, dtor, failed)
    case Deinit => false
  }

  lemma InCallHolds(c: Config, op: Op, m: State, s: State, t: nat, failed: bool)
    requires InCall(op, m, s, t, failed)
    ensures t in s.threads && Holds(c, t, s.threads[t])
  {
    hide WalkFrom, Own, Added, SingletonAnswer, Newest;
  }

  lemma GrowsTwice(v0: View, v1: View, v2: View, t: nat)
    requires Grows(v0, v1, t) && Grows(v1, v2, t)
    requires forall i {:trigger v0.list[i]} :: 0 <= i < |v0.list| ==> v0.list[i] in v0.heap
    ensures Grows(v0, v2, t)
  {
    forall i {:trigger v0.list[i]} | 0 <= i < |v0.list|
      ensures v0.list[i] in v2.heap && v2.heap[v0.list[i]] == v0.heap[v0.list[i]]
    {
      var r := |v0.list| - i;
      assert Suf(v0.list, r) == v0.list[i];
      assert Suf(v1.list, r) == Suf(v0.list, r);
      assert v1.list[|v1.list| - r] == v0.list[i];
    }
  }

  lemma ListedKept(s: State, s': State, p: nat, u: nat)
    requires Grows(ViewOf(s), ViewOf(s'), u) && p in s.list && p in s.heap
    ensures p in s'.list && p in s'.heap && s'.heap[p] == s.heap[p]
  {
    var v, v' := ViewOf(s), ViewOf(s');
    var i :| 0 <= i < |v.list| && v.list[i] == p;
    var r := |v.list| - i;
    assert Suf(v.list, r) == p;
    assert Suf(v'.list, r) == Suf(v.list, r);
    assert v'.list[|v'.list| - r] == p;
  }

  lemma OwnKept(m: State, s: State, s': State, t: nat, p: nat, key: Key, dtor: bool)
    requires Kept(s, s', t) && Own(m, s, t, p, key, dtor)
    ensures Own(m, s', t, p, key, dtor)
  {
    hide Suf;
  }

  // Another thread's step leaves the call where it is.
  lemma OtherStep(op: Op, m: State, s: State, s': State, t: nat, failed: bool)
    requires Kept(s, s', t) && InCall(op, m, s, t, failed)
    ensures InCall(op, m, s', t, failed)
  {
    hide Grows, Own, Newest;
    match s.threads[t]
    case WalkHead(Again(p, key, _, _)) => OwnKept(m, s, s', t, p, op.key, op.dtor);
    case Walk(Again(p, key, _, _), _, _) => OwnKept(m, s, s', t, p, op.key, op.dtor);
    case Walk(_, _, _) => GrowsTwice(ViewOf(m), ViewOf(s), ViewOf(s'), t);
    case Load(p, _) => OwnKept(m, s, s', t, p, op.key, op.dtor);
    case Cas(p, _, _) => OwnKept(m, s, s', t, p, op.key, op.dtor);
    case Live =>
      if op.Add? && !failed {
        ListedKept(s, s', s.answers[t], t);
      }
    case _ =>
  }

  // Where a walk is, in a state of a run.
  lemma AtWalk(c: Config, s: State, t: nat, use: Use, w: nat, rest: nat)
    requires Inv(c, s) && t in s.threads && s.threads[t] == Walk(use, w, rest)
    ensures s.uRefs > 0 && rest <= |s.list| && w == Suf(s.list, rest)
    ensures if w == 0 then rest == 0 else rest > 0 && w in s.heap
  {
    HolderRuns(c, s, t);
    CheckOk(c, ViewOf(s), s.threads, t);
    ListFacts(s);
    hide HeapInv, IdInv, RefInv, KeyInv, OrderInv, ListInv, ThreadsInv, Linked, Distinct, Inv;
    if w == 0 {
      RestIsZero(s, rest);
    } else {
      WalkedIsListed(s, t, w, rest, c);
    }
  }

  // One comparison of a first walk.
  lemma FirstWalk(v0: View, v: View, t: nat, key: Key, w: nat, rest: nat)
    requires WalkFrom(v0, v, t, key, rest) && w == Suf(v.list, rest)
    requires if w == 0 then rest == 0 else rest > 0 && w in v.heap
    ensures w == 0 ==> NewestOf(v0.heap, v0.list, |v0.list|, key) == 0
    ensures w != 0 ==>
              if v.heap[w].key == key then NewestOf(v0.heap, v0.list, |v0.list|, key) == w
              else WalkFrom(v0, v, t, key, rest - 1)
  {
    if w != 0 {
      GrownSuf(v0, v, t, rest);
      assert w == v0.list[|v0.list| - rest];
      GrownNode(v0, v, t, |v0.list| - rest);
    }
    hide Grows, Suf;
  }

  lemma GrownSuf(v: View, v': View, t: nat, r: nat)
    requires Grows(v, v', t) && r <= |v.list|
    ensures Suf(v'.list, r) == Suf(v.list, r)
  {
  }

  lemma GrownNode(v: View, v': View, t: nat, i: nat)
    requires Grows(v, v', t) && i < |v.list| && v.list[i] in v.heap
    ensures v.list[i] in v'.heap && v'.heap[v.list[i]] == v.heap[v.list[i]]
  {
  }

  lemma ToView(s: State, t: nat, pc: PC)
    ensures var s' := To(s, t, pc);
            ViewOf(s') == ViewOf(s) && s'.threads == s.threads[t := pc] && s'.nextId == s.nextId
  {
  }

  lemma BackView(s: State, t: nat, p: nat)
    ensures var s' := Back(s, t, p);
            && ViewOf(s') == ViewOf(s) && s'.threads == s.threads[t := Live] && s'.nextId == s.nextId
            && s'.answers == s.answers[t := p] && s'.handed == s.handed
  {
  }

  lemma FirstFound(op: Op, m: State, s: State, t: nat, use: Use, w: nat, rest: nat)
    requires t in s.threads && s.threads[t] == Walk(use, w, rest) && !use.Again?
    requires InCall(op, m, s, t, false) && Newest(m, use.key) == w != 0
    ensures InCall(op, m, Found(s, t, use, w), t, false)
  {
    hide Newest, WalkFrom, To, Back;
    BackView(s, t, w);
    BackView(s.(handed := s.handed + {(use.key, w)}), t, w);
  }

  lemma FirstNotFound(op: Op, m: State, s: State, t: nat, use: Use, w: nat, rest: nat)
    requires t in s.threads && s.threads[t] == Walk(use, w, rest) && !use.Again?
    requires InCall(op, m, s, t, false) && m.nextId <= s.nextId && Newest(m, use.key) == 0
    ensures InCall(op, m, NotFound(s, t, use), t, false)
  {
    hide Newest, WalkFrom, To, Back;
    BackView(s, t, 0);
    if use.First? {
      ToView(s, t, Check(use.key, use.dtor, true));
    }
  }

  lemma FirstFurther(op: Op, m: State, s: State, t: nat, use: Use, w: nat, rest: nat, pc: PC)
    requires t in s.threads && s.threads[t] == Walk(use, w, rest) && !use.Again?
    requires InCall(op, m, s, t, false)
    requires pc.Walk? && pc.use == use && WalkFrom(ViewOf(m), ViewOf(s), t, use.key, pc.rest)
    ensures InCall(op, m, To(s, t, pc), t, false)
  {
    hide Newest, WalkFrom, To;
    ToView(s, t, pc);
  }

  lemma FirstWalkStep(c: Config, op: Op, m: State, s: State, t: nat, use: Use, w: nat, rest: nat)
    requires Inv(c, s) && t in s.threads && s.threads[t] == Walk(use, w, rest) && !use.Again?
    requires InCall(op, m, s, t, false) && m.nextId <= s.nextId
    ensures InCall(op, m, WalkStep(s, t, use, w, rest), t, false)
  {
    hide Inv, InCall, Newest, NewestOf, WalkFrom, To, Found, NotFound, Suf;
    AtWalk(c, s, t, use, w, rest);
    InFirst(op, m, s, t, use);
    FirstWalk(ViewOf(m), ViewOf(s), t, use.key, w, rest);
    LookupIs(m, use.key);
    if w == 0 {
      FirstNotFound(op, m, s, t, use, w, rest);
    } else if s.heap[w].key == use.key {
      WalkedIsListed(s, t, w, rest, c);
      FirstFound(op, m, s, t, use, w, rest);
    } else {
      FirstFurther(op, m, s, t, use, w, rest, Walk(use, s.heap[w].next, rest - 1));
    }
  }

  lemma InFirst(op: Op, m: State, s: State, t: nat, use: Use)
    requires t in s.threads && s.threads[t].Walk? && s.threads[t].use == use && !use.Again?
    requires InCall(op, m, s, t, false)
    ensures WalkFrom(ViewOf(m), ViewOf(s), t, use.key, s.threads[t].rest)
  {
    hide WalkFrom;
  }

  lemma LookupIs(m: State, key: Key)
    ensures var v := ViewOf(m); Newest(m, key) == NewestOf(v.heap, v.list, |v.list|, key)
  {
  }

  lemma AgainFound(op: Op, m: State, s: State, t: nat, use: Use, w: nat, rest: nat)
    requires t in s.threads && s.threads[t] == Walk(use, w, rest) && use.Again?
    requires InCall(op, m, s, t, false)
    ensures InCall(op, m, Found(s, t, use, w), t, false)
  {
    hide Newest, WalkFrom, To, Back, Free;
    assert use.p in s.heap;
    BackView(Free(s, use.p).(handed := s.handed + {(use.key, w)}), t, w);
  }

  lemma AgainMoves(op: Op, m: State, s: State, t: nat, use: Use, w: nat, rest: nat, pc: PC)
    requires t in s.threads && s.threads[t] == Walk(use, w, rest) && use.Again?
    requires InCall(op, m, s, t, false)
    requires (pc.Walk? && pc.use == use) || (pc.Cas? && pc.p == use.p && pc.single)
    ensures InCall(op, m, To(s, t, pc), t, false)
  {
    hide Newest, WalkFrom, To;
    ToView(s, t, pc);
  }

  lemma AgainStep(c: Config, op: Op, m: State, s: State, t: nat, use: Use, w: nat, rest: nat)
    requires Inv(c, s) && t in s.threads && s.threads[t] == Walk(use, w, rest) && use.Again?
    requires InCall(op, m, s, t, false)
    ensures InCall(op, m, WalkStep(s, t, use, w, rest), t, false)
  {
    hide Inv, InCall, To, Found, Suf;
    AtWalk(c, s, t, use, w, rest);
    AgainMoves(op, m, s, t, use, w, rest, Cas(use.p, true, use.snap));
    if w != 0 {
      AgainFound(op, m, s, t, use, w, rest);
      AgainMoves(op, m, s, t, use, w, rest, Walk(use, s.heap[w].next, rest - 1));
    }
  }

  lemma LoadCall(op: Op, m: State, s: State, t: nat, p: nat, single: bool)
    requires t in s.threads && s.threads[t] == Load(p, single) && InCall(op, m, s, t, false)
    ensures InCall(op, m, LoadStep(s, t, p, single), t, false)
  {
    hide Newest, WalkFrom;
  }

  lemma CasCall(op: Op, m: State, s: State, t: nat, p: nat, single: bool)
    requires t in s.threads && s.threads[t].Cas? && s.threads[t].p == p && s.threads[t].single == single
    requires InCall(op, m, s, t, false)
    ensures InCall(op, m, CasStep(s, t, p, single), t, false)
  {
    hide Newest, WalkFrom;
    if p in s.heap && s.lst == s.heap[p].next {
      assert ([p] + s.list)[0] == p && (s.pushed + [s.heap[p].id])[|s.pushed|] == s.heap[p].id;
    }
  }

  // The call's own next step.
  lemma OwnStep(c: Config, op: Op, m: State, s: State, t: nat, a: Action, failed: bool)
    requires Inv(c, s) && InCall(op, m, s, t, failed) && m.nextId <= s.nextId && !a.Begin?
    ensures var r := Next(c, s, t, a);
            r.Some? ==> InCall(op, m, r.value, t, failed || a.AllocateFails?) && (failed ==> !a.AllocateFails?)
  {
    hide Inv, WalkFrom, Newest, WalkStep, LoadStep, CasStep;
    match s.threads[t]
    case Walk(use, w, rest) =>
      if use.Again? {
        AgainStep(c, op, m, s, t, use, w, rest);
      } else {
        FirstWalkStep(c, op, m, s, t, use, w, rest);
      }
    case Load(p, single) => LoadCall(op, m, s, t, p, single);
    case Cas(p, single, _) => CasCall(op, m, s, t, p, single);
    case _ =>
  }

  // Thread t is not, or no longer, inside a call.
  ghost predicate AtRest(pc: PC) {
    pc.Live? || pc.Done? || pc.Refused?
  }

  // Thread t begins no other call.
  ghost predicate Quiet(trace: seq<(nat, Action)>, t: nat) {
    forall i {:trigger trace[i]} :: 0 <= i < |trace| && trace[i].0 == t ==> !trace[i].1.Begin?
  }

  ghost predicate Fails(trace: seq<(nat, Action)>, t: nat) {
    (t, AllocateFails) in trace
  }

  lemma FailsNow(trace: seq<(nat, Action)>, t: nat)
    requires trace != []
    ensures Fails(trace, t) <==> trace[0] == (t, AllocateFails) || Fails(trace[1..], t)
  {
    assert trace == [trace[0]] + trace[1..];
  }

  lemma IdsGrow(c: Config, s: State, t: nat, a: Action)
    requires t in s.threads && !Draining(s.threads[t])
    ensures var r := Next(c, s, t, a); r.Some? ==> s.nextId <= r.value.nextId
  {
    if s.threads[t].Cas? {
      var p := s.threads[t].p;
      if p in s.heap {
        PublishOthers(s, t, p, s.threads[t].single);
      }
      hide Publish;
    } else {
      StepLocal(c, s, t, a);
      hide Next;
    }
  }

  lemma CallStep(c: Config, op: Op, m: State, s: State, t: nat, u: nat, a: Action, failed: bool)
    requires NoAlias(c) && Inv(c, s) && InCall(op, m, s, t, failed) && m.nextId <= s.nextId && (u == t ==> !a.Begin?)
    ensures var r := Next(c, s, u, a);
            r.Some? ==>
              && Inv(c, r.value) && m.nextId <= r.value.nextId
              && InCall(op, m, r.value, t, failed || (u, a) == (t, AllocateFails))
  {
    hide NoAlias, Inv, InCall, Next, Holds;
    InCallHolds(c, op, m, s, t, failed);
    if u == t {
      StepInv(c, s, t, a);
      NoDrain(c, s, t, t);
      IdsGrow(c, s, t, a);
      OwnStep(c, op, m, s, t, a, failed);
    } else {
      StepKept(c, s, u, a, t);
      var r := Next(c, s, u, a);
      if r.Some? {
        OtherStep(op, m, s, r.value, t, failed);
      }
    }
  }

  lemma {:induction false} CallRun(c: Config, op: Op, m: State, s: State, t: nat, trace: seq<(nat, Action)>,
                                   failed: bool)
    requires NoAlias(c) && Inv(c, s) && InCall(op, m, s, t, failed) && m.nextId <= s.nextId && Quiet(trace, t)
    ensures var r := Run(c, s, trace);
            r.Some? ==> Inv(c, r.value) && InCall(op, m, r.value, t, failed || Fails(trace, t))
    decreases |trace|
  {
    hide NoAlias, Inv, InCall, Next;
    if trace != [] {
      FailsNow(trace, t);
      CallStep(c, op, m, s, t, trace[0].0, trace[0].1, failed);
      var r := Next(c, s, trace[0].0, trace[0].1);
      if r.Some? {
        CallRun(c, op, m, r.value, t, trace[1..], failed || trace[0] == (t, AllocateFails));
      }
    }
  }

  ghost function UseOf(op: Op): Use
    requires op.Lookup? || op.Singleton?
  {
    if op.Lookup? then Query(op.key) else First(op.key, op.dtor)
  }

  // The step that loads the head of the list for a first walk.
  lemma HeadStep(c: Config, op: Op, s: State, t: nat)
    requires NoAlias(c) && Inv(c, s) && (op.Lookup? || op.Singleton?)
    requires t in s.threads && s.threads[t] == WalkHead(UseOf(op))
    ensures var r := Next(c, s, t, Go);
            r.Some? && Inv(c, r.value) && InCall(op, s, r.value, t, false) && s.nextId <= r.value.nextId
  {
    StepInv(c, s, t, Go);
    HolderRuns(c, s, t);
    ListFacts(s);
    WalkBegins(s, t, op.key);
    hide Inv, NoAlias, WalkFrom, To;
    ToView(s, t, Walk(UseOf(op), s.lst, |s.list|));
  }

  lemma WalkBegins(s: State, t: nat, key: Key)
    requires Linked(s.heap, s.list) && s.phase.Running?
    ensures WalkFrom(ViewOf(s), ViewOf(s), t, key, |s.list|)
  {
    hide Suf;
  }

  lemma AtHead(c: Config, s: State, t: nat, use: Use, a: Action)
    requires t in s.threads && s.threads[t] == WalkHead(use)
    ensures Next(c, s, t, a).Some? ==> a == Go
    ensures Holds(c, t, s.threads[t])
  {
  }

  // Up to the moment m at which a first walk begins.
  lemma {:induction false} HeadRun(c: Config, op: Op, s: State, t: nat, trace: seq<(nat, Action)>)
    returns (i: nat, m: State)
    requires NoAlias(c) && Inv(c, s) && (op.Lookup? || op.Singleton?)
    requires t in s.threads && s.threads[t] == WalkHead(UseOf(op)) && Quiet(trace, t)
    requires var r := Run(c, s, trace); r.Some? && t in r.value.threads && AtRest(r.value.threads[t])
    ensures i <= |trace| && Run(c, s, trace[..i]) == Some(m)
    ensures InCall(op, m, Run(c, s, trace).value, t, Fails(trace, t))
    decreases |trace|
  {
    hide Next, Inv, InCall, NoAlias, Holds, Fails;
    var u, a := trace[0].0, trace[0].1;
    var s' := Next(c, s, u, a).value;
    FailsNow(trace, t);
    AtHead(c, s, t, UseOf(op), a);
    if u == t {
      i, m := 0, s;
      HeadStep(c, op, s, t);
      CallRun(c, op, s, s', t, trace[1..], false);
    } else {
      StepKept(c, s, u, a, t);
      i, m := HeadRun(c, op, s', t, trace[1..]);
      i := i + 1;
      assert trace[..i][0] == trace[0] && trace[..i][1..] == trace[1..][..i - 1];
    }
  }

  // What a call of thread t has come back with: a lookup with the newest block
  // for the key at m; an add with a block of its own that is on the list; a
  // singleton add with the newest block at m or, when there was none, with one
  // that is on the list and handed out for the key. Either add comes back with
  // 0 when it failed.
  ghost predicate Answered(op: Op, m: State, s: State, t: nat, failed: bool) {
    t in s.answers
    && var p := s.answers[t];
       match op
       case Lookup(key) => p == Newest(m, key) && !failed
       case Add(key, dtor) => if failed then p == 0 else Added(m, s, p, key, dtor)
       case Singleton(key, _) =>
         && (Newest(m, key) != 0 ==> p == Newest(m, key) && !failed)
         && if failed then p == 0 else (key, p) in s.handed && p in s.list && p in s.heap && s.heap[p].key == key
       case Deinit => false
  }

  lemma InCallAnswered(c: Config, op: Op, m: State, s: State, t: nat, failed: bool)
    requires Inv(c, s) && InCall(op, m, s, t, failed) && AtRest(s.threads[t])
    ensures s.threads[t].Live? && Answered(op, m, s, t, failed)
  {
    HolderRuns(c, s, t);
    hide ListInv, HeapInv, IdInv, ThreadsInv, RefInv, OrderInv, Newest;
  }

  lemma CallAnswers(c: Config, s: State, t: nat, op: Op, trace: seq<(nat, Action)>, s': State)
    returns (i: nat, m: State)
    requires NoAlias(c) && Inv(c, s) && !op.Deinit? && Quiet(trace, t)
    requires var r := Next(c, s, t, Begin(op)); r.Some? && Run(c, r.value, trace) == Some(s')
    requires t in s'.threads && AtRest(s'.threads[t])
    ensures s'.threads[t].Live? && i <= |trace| && Run(c, Next(c, s, t, Begin(op)).value, trace[..i]) == Some(m)
    ensures Answered(op, m, s', t, Fails(trace, t))
  {
    hide Inv, NoAlias, InCall, Answered, Run;
    var s1 := Next(c, s, t, Begin(op)).value;
    StepInv(c, s, t, Begin(op));
    if op.Add? {
      i, m := 0, s1;
      AddBegins(s, t, op);
      assert Run(c, s1, trace[..0]) == Some(s1) by { RunNone(c, s1, trace[..0]); }
      CallRun(c, op, m, s1, t, trace, false);
    } else {
      i, m := HeadRun(c, op, s1, t, trace);
    }
    RunInv(c, s1, trace);
    InCallAnswered(c, op, m, s', t, Fails(trace, t));
  }

  lemma RunNone(c: Config, s: State, trace: seq<(nat, Action)>)
    requires trace == []
    ensures Run(c, s, trace) == Some(s)
  {
  }

  lemma AddBegins(s: State, t: nat, op: Op)
    requires op.Add?
    ensures var s1 := To(s, t, BeginOp(op)); InCall(op, s1, s1, t, false)
  {
  }

  lemma SameAnswered(op: Op, m: State, m': State, s: State, s': State, t: nat, failed: bool)
    requires SameButExtra(m, m') && SameButExtra(s, s') && Answered(op, m', s', t, failed)
    ensures Answered(op, m, s, t, failed)
  {
    hide NewestOf;
    assert Newest(m, op.key) == Newest(m', op.key);
  }

  // Every call, in every interleaving, comes back with the answer above, where m
  // is the state at some moment during the call.
  lemma CallTheorem(c: Config, s: State, t: nat, op: Op, trace: seq<(nat, Action)>, s': State)
    returns (i: nat, m: State)
    requires c.prim in c.tids && Reachable(c, s) && !op.Deinit? && Quiet(trace, t)
    requires var r := Next(c, s, t, Begin(op)); r.Some? && Run(c, r.value, trace) == Some(s')
    requires t in s'.threads && AtRest(s'.threads[t])
    ensures s'.threads[t].Live? && i <= |trace| && Run(c, Next(c, s, t, Begin(op)).value, trace[..i]) == Some(m)
    ensures Answered(op, m, s', t, Fails(trace, t))
  {
    hide Reachable, NoAlias, Inv, Next, Run, Answered, SameButExtra, Stored;
    var c', q := Unaliased(c, s);
    ReachableInv(c', q);
    if c' == c {
      i, m := CallAnswers(c, s, t, op, trace, s');
    } else {
      NextStored(c, s, q, t, Begin(op));
      var s1, q1 := Next(c, s, t, Begin(op)).value, Next(c', q, t, Begin(op)).value;
      RunStored(c, s1, q1, trace);
      var q' := Run(c', q1, trace).value;
      assert q'.threads == s'.threads by { Fields(s', q'); }
      var m';
      i, m' := CallAnswers(c', q, t, op, trace, q');
      RunStored(c, s1, q1, trace[..i]);
      m := Run(c, s1, trace[..i]).value;
      SameAnswered(op, m, m', s', q', t, Fails(trace, t));
    }
  }

  // ----- a thread that runs alone comes back -----

  // The block's next is still the head: the compare-and-exchange will succeed.
  ghost predicate UpToDate(v: View, p: nat) {
    p in v.heap && v.heap[p].next == Suf(v.list, |v.list|)
  }

  // At least how many steps a thread is from the end of its call.
  ghost function Rank(v: View, uRefs: nat, pc: PC): nat {
    var n := |v.list|;
    match pc
    case Fresh => 4
    case InitLoad => 2
    case InitCas(cur) => if uRefs == cur then 1 else 3
    case WalkHead(Again(p, _, _, _)) => if UpToDate(v, p) then n + 3 else 2 * n + 8
    case WalkHead(_) => 2 * n + 8
    case Walk(Again(p, _, _, _), _, rest) => if UpToDate(v, p) then rest + 2 else rest + n + 7
    case Walk(_, _, rest) => rest + n + 7
    case Check(_, _, _) => n + 6
    case Load(_, _) => n + 5
    case Cas(p, _, _) => if UpToDate(v, p) then 1 else n + 6
    case DeTest => n + 5
    case DeSub => n + 4
    case DeXchg => n + 3
    case Drain(_) => |v.draining| + 1
    case _ => 0
  }

  ghost predicate Nearer(s: State, s': State, t: nat) {
    && t in s.threads && t in s'.threads
    && Rank(ViewOf(s'), s'.uRefs, s'.threads[t]) < Rank(ViewOf(s), s.uRefs, s.threads[t])
  }

  lemma {:induction false} Unused(used: set<nat>) returns (p: nat)
    ensures p != 0 && forall q :: q in used ==> q < p
    decreases |used|
  {
    if used == {} {
      p := 1;
    } else {
      var x :| x in used;
      p := Unused(used - {x});
      p := if x < p then p else x + 1;
      assert forall q :: q in used ==> q == x || q in used - {x};
    }
  }

  lemma SoloInit(c: Config, s: State, t: nat)
    requires t in s.threads && Starting(s.threads[t])
    ensures var r := Next(c, s, t, Go); r.Some? && Nearer(s, r.value, t)
  {
  }

  lemma Nearing(s: State, t: nat, pc: PC)
    requires t in s.threads && Rank(ViewOf(s), s.uRefs, pc) < Rank(ViewOf(s), s.uRefs, s.threads[t])
    ensures Nearer(s, To(s, t, pc), t)
  {
    hide Rank;
  }

  lemma Arrived(s: State, s': State, t: nat)
    requires t in s.threads && Rank(ViewOf(s), s.uRefs, s.threads[t]) > 0 && t in s'.threads && AtRest(s'.threads[t])
    ensures Nearer(s, s', t)
  {
  }

  lemma BackArrives(s: State, t: nat, p: nat)
    ensures t in Back(s, t, p).threads && Back(s, t, p).threads[t] == Live
  {
  }

  lemma SoloNotFound(s: State, t: nat, use: Use)
    requires t in s.threads && s.threads[t] == Walk(use, 0, 0)
    ensures Nearer(s, NotFound(s, t, use), t)
  {
    hide Nearer, To, Back, UpToDate;
    match use
    case Query(_) =>
      BackArrives(s, t, 0);
      Arrived(s, Back(s, t, 0), t);
    case First(key, dtor) => Nearing(s, t, Check(key, dtor, true));
    case Again(p, _, snap, _) => Nearing(s, t, Cas(p, true, snap));
  }

  lemma SoloWalk(c: Config, s: State, t: nat, use: Use, w: nat, rest: nat)
    requires Inv(c, s) && t in s.threads && s.threads[t] == Walk(use, w, rest)
    ensures Nearer(s, WalkStep(s, t, use, w, rest), t)
  {
    AtWalk(c, s, t, use, w, rest);
    CheckOk(c, ViewOf(s), s.threads, t);
    hide Inv, Suf, Found, NotFound, To, Nearer, Absent, UpToDate;
    if w == 0 {
      SoloNotFound(s, t, use);
    } else if s.heap[w].key == use.key {
      FoundLive(s, t, use, w);
      Arrived(s, Found(s, t, use, w), t);
    } else {
      Nearing(s, t, Walk(use, s.heap[w].next, rest - 1));
    }
  }

  lemma FoundLive(s: State, t: nat, use: Use, w: nat)
    requires use.Again? ==> use.p in s.heap
    ensures t in Found(s, t, use, w).threads && Found(s, t, use, w).threads[t] == Live
  {
  }

  lemma SoloHead(c: Config, s: State, t: nat, use: Use)
    requires Inv(c, s) && t in s.threads && s.threads[t] == WalkHead(use)
    ensures var use' := if use.Again? then use.(seen := |s.list|) else use;
            Nearer(s, To(s, t, Walk(use', s.lst, |s.list|)), t)
  {
    hide Inv, To, Nearer, UpToDate;
    Nearing(s, t, Walk(if use.Again? then use.(seen := |s.list|) else use, s.lst, |s.list|));
  }

  // What a thread about to store next, or to compare with it, finds.
  lemma OwnBlock(c: Config, s: State, t: nat)
    requires Inv(c, s) && t in s.threads && (s.threads[t].Load? || s.threads[t].Cas?)
    ensures s.threads[t].p in s.heap && s.lst == Suf(s.list, |s.list|)
  {
    CheckOk(c, ViewOf(s), s.threads, t);
    ListFacts(s);
    hide ListInv, HeapInv, IdInv, ThreadsInv, RefInv, KeyInv, OrderInv, Suf, Linked, Absent;
  }

  lemma SoloLoad(s: State, t: nat, p: nat, single: bool)
    requires t in s.threads && s.threads[t] == Load(p, single) && p in s.heap && s.lst == Suf(s.list, |s.list|)
    ensures Nearer(s, LoadStep(s, t, p, single), t)
  {
    hide Suf, To;
    var s' := s.(heap := s.heap[p := s.heap[p].(next := s.lst)]);
    var pc := if single then WalkHead(Again(p, s.heap[p].key, |s.list|, 0)) else Cas(p, false, |s.list|);
    ToView(s', t, pc);
    assert UpToDate(ViewOf(s'), p);
  }

  lemma SoloCas(s: State, t: nat, p: nat, single: bool)
    requires t in s.threads && s.threads[t].Cas? && s.threads[t].p == p && p in s.heap && s.lst == Suf(s.list, |s.list|)
    ensures Nearer(s, CasStep(s, t, p, single), t)
  {
    hide Suf, To, Publish, Nearer;
    if s.lst == s.heap[p].next {
      PublishLive(s, t, p, single);
      Arrived(s, Publish(s, t, p, single), t);
    } else {
      Nearing(s, t, Load(p, single));
    }
  }

  lemma PublishLive(s: State, t: nat, p: nat, single: bool)
    requires p in s.heap
    ensures t in Publish(s, t, p, single).threads && Publish(s, t, p, single).threads[t] == Live
  {
  }

  lemma SoloLeave(c: Config, s: State, t: nat)
    requires Inv(c, s) && t in s.threads && (s.threads[t].DeTest? || s.threads[t].DeSub? || Draining(s.threads[t]))
    ensures var r := Next(c, s, t, Go); r.Some? && Nearer(s, r.value, t)
  {
    hide HeapInv, IdInv, RefInv, KeyInv, OrderInv, Linked, WalkStep, LoadStep, CasStep, To;
    CheckOk(c, ViewOf(s), s.threads, t);
    ListFacts(s);
    match s.threads[t]
    case DeSub => SoloSub(s, t);
    case DeXchg => SoloXchg(s, t);
    case Drain(w) => SoloDrain(s, t, w);
    case _ =>
      Nearing(s, t, DeSub);
      Nearing(s, t, Done);
  }

  lemma SoloSub(s: State, t: nat)
    requires t in s.threads && s.threads[t] == DeSub
    ensures Nearer(s, DeSubStep(s, t), t)
  {
  }

  lemma SoloXchg(s: State, t: nat)
    requires t in s.threads && s.threads[t] == DeXchg
    ensures Nearer(s, To(s.(lst := 0, draining := s.list, list := []), t, Drain(s.lst)), t)
  {
  }

  lemma SoloDrain(s: State, t: nat, w: nat)
    requires t in s.threads && s.threads[t] == Drain(w)
    requires Linked(s.heap, s.draining) && w == Suf(s.draining, |s.draining|)
    ensures Nearer(s, DrainStep(s, t, w), t)
  {
    Ended(s, w);
    hide Linked, Suf;
  }

  lemma SoloCheck(c: Config, s: State, t: nat) returns (a: Action)
    requires Inv(c, s) && t in s.threads && s.threads[t].Check?
    ensures a.Allocate? && var r := Next(c, s, t, a); r.Some? && Nearer(s, r.value, t)
  {
    HolderRuns(c, s, t);
    var p := Unused(s.heap.Keys);
    a := Allocate(p);
    assert p !in s.heap;
    hide Inv, WalkStep, LoadStep, CasStep, Back;
  }

  // Inside a call there always is a next step, and it leads nearer to the end.
  lemma SoloStep(c: Config, s: State, t: nat) returns (a: Action)
    requires NoAlias(c) && Inv(c, s) && t in s.threads && !AtRest(s.threads[t])
    ensures !a.Begin? && !a.AllocateFails? && var r := Next(c, s, t, a); r.Some? && Nearer(s, r.value, t)
  {
    CheckOk(c, ViewOf(s), s.threads, t);
    hide Inv, NoAlias, Nearer, To, WalkStep, LoadStep, CasStep, DeSubStep, DrainStep;
    a := Go;
    match s.threads[t]
    case WalkHead(use) => SoloHead(c, s, t, use);
    case Walk(use, w, rest) => SoloWalk(c, s, t, use, w, rest);
    case Check(_, _, _) => a := SoloCheck(c, s, t);
    case Load(p, single) =>
      OwnBlock(c, s, t);
      SoloLoad(s, t, p, single);
    case Cas(p, single, _) =>
      OwnBlock(c, s, t);
      SoloCas(s, t, p, single);
    case Fresh => SoloInit(c, s, t);
    case InitLoad => SoloInit(c, s, t);
    case InitCas(_) => SoloInit(c, s, t);
    case Crash =>
    case _ => SoloLeave(c, s, t);
  }

  lemma {:induction false} SoloRun(c: Config, s: State, t: nat) returns (trace: seq<(nat, Action)>)
    requires NoAlias(c) && Inv(c, s) && t in s.threads
    ensures Quiet(trace, t) && !Fails(trace, t) && forall i :: 0 <= i < |trace| ==> trace[i].0 == t
    ensures var r := Run(c, s, trace); r.Some? && t in r.value.threads && AtRest(r.value.threads[t])
    decreases Rank(ViewOf(s), s.uRefs, s.threads[t])
  {
    hide Inv, NoAlias, Next, Rank, AtRest;
    if AtRest(s.threads[t]) {
      trace := [];
    } else {
      var a := SoloStep(c, s, t);
      var s' := Next(c, s, t, a).value;
      StepInv(c, s, t, a);
      var rest := SoloRun(c, s', t);
      trace := [(t, a)] + rest;
      assert trace[0] == (t, a) && trace[1..] == rest;
      FailsNow(trace, t);
    }
  }

  // From every state of every run, a thread that runs alone comes to the end of
  // its call, if memory is there.
  lemma SoloReturns(c: Config, s: State, t: nat) returns (trace: seq<(nat, Action)>)
    requires c.prim in c.tids && Reachable(c, s) && t in s.threads
    ensures Quiet(trace, t) && !Fails(trace, t) && forall i :: 0 <= i < |trace| ==> trace[i].0 == t
    ensures var r := Run(c, s, trace); r.Some? && t in r.value.threads && AtRest(r.value.threads[t])
  {
    hide Reachable, NoAlias, Inv, Run, Stored, AtRest;
    var c', q := Unaliased(c, s);
    ReachableInv(c', q);
    trace := SoloRun(c', q, t);
    if c' != c {
      RunStored(c, s, q, trace);
      Fields(Run(c, s, trace).value, Run(c', q, trace).value);
    }
  }

  lemma CanBegin(c: Config, s: State, t: nat, op: Op)
    requires t in s.threads && s.threads[t].Live? && (op.Add? ==> op.key in c.plain)
    ensures var r := Next(c, s, t, Begin(op)); r.Some? && t in r.value.threads
  {
  }

  // A call that finds no memory, or whose constructor fails, comes back with 0
  // and leaves everything else as it was.
  lemma FailedCall(c: Config, s: State, t: nat)
    requires t in s.threads && s.threads[t].Check?
    ensures var r := Next(c, s, t, AllocateFails);
            r == Some(s.(threads := s.threads[t := Live], answers := s.answers[t := 0]))
  {
  }

  // So a thread that was let in can begin any call, and one that runs alone comes
  // back from it with the answer.
  lemma SoloCall(c: Config, s: State, t: nat, op: Op) returns (trace: seq<(nat, Action)>, s': State, m: State)
    requires c.prim in c.tids && Reachable(c, s) && t in s.threads && s.threads[t].Live?
    requires !op.Deinit? && (op.Add? ==> op.key in c.plain)
    ensures var r := Next(c, s, t, Begin(op)); r.Some? && Run(c, r.value, trace) == Some(s')
    ensures forall i :: 0 <= i < |trace| ==> trace[i].0 == t
    ensures t in s'.threads && s'.threads[t].Live? && Answered(op, m, s', t, false)
    ensures exists i :: 0 <= i <= |trace| && Run(c, Next(c, s, t, Begin(op)).value, trace[..i]) == Some(m)
  {
    CanBegin(c, s, t, op);
    var r := Next(c, s, t, Begin(op));
    hide Reachable, Next, Run, Answered, AtRest, Quiet, Fails;
    ReachStep(c, s, t, Begin(op), r.value);
    trace := SoloReturns(c, r.value, t);
    s' := Run(c, r.value, trace).value;
    var i;
    i, m := CallTheorem(c, s, t, op, trace, s');
  }
}
