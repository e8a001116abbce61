// Model of inc/pls.h: process-local storage as a lock-free stack shared by any
// number of threads. Every atomic access is a step of its own, and steps of
// different threads interleave in any order (sequential consistency).
module Pls {
  import opened Wrappers
  import opened Ints

  datatype Key = Key(typ: nat, key: nat)

  // Who may still write a block: the thread that allocated it, until its
  // compare-and-exchange publishes it.
  datatype Owner = Private(tid: nat) | Shared

  // struct PLS. The address of a block stands for its data pointer. id is a
  // serial number (addresses can be used again after free).
  datatype Node = Node(next: nat, key: Key, hasDtor: bool, id: nat, own: Owner)

  // The call a walk of pls_lookup belongs to. snap and seen are auxiliary: how
  // long the list was when the caller loaded pls->next, and when the walk began.
  datatype Use =
    | Query(key: Key)
    | First(key: Key, dtor: bool)
    | Again(p: nat, key: Key, snap: nat, seen: nat)

  // Where a thread is. Walk's rest is auxiliary: how many blocks lie ahead.
  datatype PC =
    | Fresh | InitLoad | InitCas(cur: nat) | Refused
    | Live
    | WalkHead(use: Use) | Walk(use: Use, w: nat, rest: nat)
    | Check(key: Key, dtor: bool, single: bool)
    | Load(p: nat, single: bool) | Cas(p: nat, single: bool, snap: nat)
    | DeTest | DeSub | DeXchg | Drain(w: nat) | Done
    | Crash // a block was read or freed after free

  datatype Op = Lookup(key: Key) | Add(key: Key, dtor: bool) | Singleton(key: Key, dtor: bool) | Deinit

  // Go is the next step of the thread's code; the others carry what the code
  // does not determine.
  datatype Action = Go | Begin(op: Op) | Allocate(p: nat) | AllocateFails

  // prim is the argument of pls_ctor; plain are the keys callers use with
  // pls_add, every other key is used with pls_add_lookup_singleton only.
  datatype Config = Config(tids: set<nat>, prim: nat, plain: set<Key>)

  datatype Phase = Running | Emptying(tid: nat) | Drained

  // uRefs, lst, heap and threads are the program's state, the rest records what
  // happened: answers has what the last call of a thread came back with, the
  // address of a block or, when it failed, 0. No step below reads the record.
  datatype State = State(
    uRefs: nat, lst: nat, heap: map<nat, Node>, threads: map<nat, PC>,
    phase: Phase, extra: bool, list: seq<nat>, draining: seq<nat>,
    nextId: nat, kind: map<nat, bool>, live: map<nat, nat>,
    pushed: seq<nat>, drained: seq<nat>, freed: seq<nat>, dtors: seq<nat>,
    handed: set<(Key, nat)>, answers: map<nat, nat>)

  // The uint32_t field that pls_ctor stores its uintptr_t argument in.
  function PrimThread(c: Config): nat {
    c.prim % (UINT_MAX + 1)
  }

  function Init(c: Config): State {
    State(1, 0, map[], map t | t in c.tids :: Fresh,
          Running, false, [], [], 0, map[], map[], [], [], [], [], {}, map[])
  }

  function To(s: State, t: nat, pc: PC): State {
    s.(threads := s.threads[t := pc])
  }

  // The return from a call.
  function Back(s: State, t: nat, p: nat): State {
    To(s.(answers := s.answers[t := p]), t, Live)
  }

  // Run the destructor, if any, and free the block.
  function Free(s: State, p: nat): State
    requires p in s.heap
  {
    var n := s.heap[p];
    s.(heap := s.heap - {p}, live := s.live - {n.id}, freed := s.freed + [n.id],
       dtors := if n.hasDtor then s.dtors + [n.id] else s.dtors)
  }

  function Found(s: State, t: nat, use: Use, w: nat): State {
    match use
    case Query(_) => Back(s, t, w)
    case First(key, _) => Back(s.(handed := s.handed + {(key, w)}), t, w)
    case Again(p, key, _, _) =>
      if p !in s.heap then To(s, t, Crash)
      else Back(Free(s, p).(handed := s.handed + {(key, w)}), t, w)
  }

  function NotFound(s: State, t: nat, use: Use): State {
    match use
    case Query(_) => Back(s, t, 0)
    case First(key, dtor) => To(s, t, Check(key, dtor, true))
    case Again(p, _, snap, _) => To(s, t, Cas(p, true, snap))
  }

  // pls_lookup: the loop condition, then one comparison.
  function WalkStep(s: State, t: nat, use: Use, w: nat, rest: nat): State {
    if s.uRefs == 0 || w == 0 then NotFound(s, t, use)
    else if w !in s.heap then To(s, t, Crash)
    else if s.heap[w].key == use.key then Found(s, t, use, w)
    else To(s, t, Walk(use, s.heap[w].next, if rest > 0 then rest - 1 else 0))
  }

  // pls->next = atomic_load(&me->lst)
  function LoadStep(s: State, t: nat, p: nat, single: bool): State {
    if p !in s.heap then To(s, t, Crash)
    else
      var s' := s.(heap := s.heap[p := s.heap[p].(next := s.lst)]);
      To(s', t, if single then WalkHead(Again(p, s.heap[p].key, |s.list|, 0)) else Cas(p, false, |s.list|))
  }

  // The compare-and-exchange on lst, and the loop condition after it.
  function CasStep(s: State, t: nat, p: nat, single: bool): State {
    if p !in s.heap then To(s, t, Crash)
    else if s.lst != s.heap[p].next then To(s, t, Load(p, single))
    else Publish(s, t, p, single)
  }

  function Publish(s: State, t: nat, p: nat, single: bool): State
    requires p in s.heap
  {
    var n := s.heap[p];
    Back(s.(lst := p, list := [p] + s.list, heap := s.heap[p := n.(own := Shared)], pushed := s.pushed + [n.id],
            handed := if single then s.handed + {(n.key, p)} else s.handed), t, p)
  }

  // atomic_fetch_sub(&me->uRefs, 1)
  function DeSubStep(s: State, t: nat): State {
    var s' := s.(uRefs := if s.uRefs == 0 then UINT_MAX else s.uRefs - 1);
    if s.uRefs == 1 then To(s'.(phase := Emptying(t)), t, DeXchg) else To(s', t, Done)
  }

  // One turn of the loop that runs destructors and frees.
  function DrainStep(s: State, t: nat, w: nat): State {
    if w == 0 then To(s.(phase := Drained), t, Done)
    else if w !in s.heap then To(s, t, Crash)
    else
      var n := s.heap[w];
      To(Free(s, w).(drained := s.drained + [n.id], draining := if s.draining == [] then [] else s.draining[1..]),
         t, Drain(n.next))
  }

  function Go1(c: Config, s: State, t: nat, pc: PC): Option<State> {
    match pc
    case Fresh => Some(To(s, t, if t == PrimThread(c) then Live else InitLoad))
    case InitLoad => Some(To(s, t, if s.uRefs == 0 then Refused else InitCas(s.uRefs)))
    case InitCas(cur) =>
      if s.uRefs == cur then Some(To(s.(uRefs := cur + 1, extra := s.extra || t == c.prim), t, Live))
      else Some(To(s, t, InitLoad))
    case WalkHead(use) =>
      var use' := if use.Again? then use.(seen := |s.list|) else use;
      Some(To(s, t, Walk(use', s.lst, |s.list|)))
    case Walk(use, w, rest) => Some(WalkStep(s, t, use, w, rest))
    case Load(p, single) => Some(LoadStep(s, t, p, single))
    case Cas(p, single, _) => Some(CasStep(s, t, p, single))
    case DeTest => Some(To(s, t, if s.uRefs == 0 then Done else DeSub))
    case DeSub => Some(DeSubStep(s, t))
    case DeXchg => Some(To(s.(lst := 0, draining := s.list, list := []), t, Drain(s.lst)))
    case Drain(w) => Some(DrainStep(s, t, w))
    case _ => None
  }

  function BeginOp(op: Op): PC {
    match op
    case Lookup(key) => WalkHead(Query(key))
    case Add(key, dtor) => Check(key, dtor, false)
    case Singleton(key, dtor) => WalkHead(First(key, dtor))
    case Deinit => DeTest
  }

  function Next(c: Config, s: State, t: nat, a: Action): Option<State> {
    if t !in s.threads then None else
    var pc := s.threads[t];
    match a
    case Go => Go1(c, s, t, pc)
    case Begin(op) =>
      if pc.Live? && (op.Add? ==> op.key in c.plain) then Some(To(s, t, BeginOp(op))) else None
    case Allocate(p) =>
      if pc.Check? && s.uRefs != 0 && p != 0 && p !in s.heap then
        var n := Node(0, pc.key, pc.dtor, s.nextId, Private(t));
        Some(To(s.(heap := s.heap[p := n], nextId := s.nextId + 1, kind := s.kind[n.id := n.hasDtor],
                   live := s.live[n.id := p]), t, Load(p, pc.single)))
      else None
    case AllocateFails =>
      if pc.Check? then Some(Back(s, t, 0)) else None
  }

  // A run: which thread moved, and how, step after step.
  function Run(c: Config, s: State, trace: seq<(nat, Action)>): Option<State>
    decreases |trace|
  {
    if trace == [] then Some(s) else
    match Next(c, s, trace[0].0, trace[0].1)
    case None => None
    case Some(s') => Run(c, s', trace[1..])
  }

  // ----- the invariant -----

  // The r-th block from the end of q; 0, the null pointer, past the end.
  ghost function Suf(q: seq<nat>, r: nat): nat {
    if 0 < r <= |q| then q[|q| - r] else 0
  }

  // The blocks q, linked through next, first to last.
  ghost predicate Linked(heap: map<nat, Node>, q: seq<nat>) {
    && Distinct(q)
    && forall i {:trigger q[i]} :: 0 <= i < |q| ==>
         q[i] != 0 && q[i] in heap && heap[q[i]].own == Shared && heap[q[i]].next == Suf(q, |q| - 1 - i)
  }

  ghost predicate ListInv(heap: map<nat, Node>, lst: nat, list: seq<nat>, draining: seq<nat>, phase: Phase) {
    && Linked(heap, list) && lst == Suf(list, |list|)
    && Linked(heap, draining) && (draining == [] || list == [])
    && (phase.Running? ==> draining == [])
    && (phase.Drained? ==> list == [] && draining == [])
  }

  // The block a thread has allocated and not yet published or freed.
  ghost function PrivateOf(pc: PC): nat {
    match pc
    case Load(p, _) => p
    case Cas(p, _, _) => p
    case WalkHead(Again(p, _, _, _)) => p
    case Walk(Again(p, _, _, _), _, _) => p
    case _ => 0
  }

  // Every allocated block is on one of the lists or with its thread.
  ghost predicate HeapInv(heap: map<nat, Node>, list: seq<nat>, draining: seq<nat>, threads: map<nat, PC>) {
    forall p {:trigger p in heap} :: p in heap ==>
      && p != 0
      && match heap[p].own
         case Shared => p in list || p in draining
         case Private(t) => t in threads && PrivateOf(threads[t]) == p
  }

  // Every block ever constructed is either allocated or freed, never both, and
  // the destructors that ran are those of the freed blocks.
  ghost predicate IdInv(heap: map<nat, Node>, nextId: nat, kind: map<nat, bool>, live: map<nat, nat>,
                        freed: seq<nat>, dtors: seq<nat>) {
    && (forall id: nat {:trigger id in live} :: id in live ==>
          id < nextId && id !in freed && live[id] in heap && heap[live[id]].id == id)
    && (forall p {:trigger p in heap} :: p in heap ==>
          heap[p].id in live && live[heap[p].id] == p && heap[p].id in kind && kind[heap[p].id] == heap[p].hasDtor)
    && (forall id: nat {:trigger id in live} :: id < nextId ==> id in live || id in freed)
    && (forall id {:trigger id in freed} :: id in freed ==> id < nextId && id in kind)
    && (forall id {:trigger id in dtors} :: id in dtors <==> id in freed && id in kind && kind[id])
    && Distinct(freed) && Distinct(dtors)
  }

  // What a thread's own obligations depend on.
  datatype View = View(heap: map<nat, Node>, list: seq<nat>, draining: seq<nat>, drained: seq<nat>, phase: Phase)

  ghost function ViewOf(s: State): View {
    View(s.heap, s.list, s.draining, s.drained, s.phase)
  }

  ghost predicate Mine(v: View, t: nat, p: nat) {
    p != 0 && p in v.heap && v.heap[p].own == Private(t)
  }

  // None of the list's blocks from the hi-th to the lo-th from the end has key.
  ghost predicate Absent(v: View, hi: nat, lo: nat, key: Key) {
    forall i {:trigger v.list[i]} :: 0 <= i && |v.list| - hi <= i < |v.list| - lo ==>
      v.list[i] in v.heap && v.heap[v.list[i]].key != key
  }

  ghost predicate UseOk(v: View, t: nat, use: Use) {
    use.Again? ==>
      && Mine(v, t, use.p) && v.heap[use.p].key == use.key
      && use.snap <= |v.list| && v.heap[use.p].next == Suf(v.list, use.snap)
  }

  ghost predicate ThreadOk(c: Config, v: View, t: nat, pc: PC) {
    match pc
    case WalkHead(use) => UseOk(v, t, use)
    case Walk(use, w, rest) =>
      && UseOk(v, t, use) && rest <= |v.list| && w == Suf(v.list, rest)
      && (use.Again? ==> rest <= use.seen && use.snap <= use.seen <= |v.list| && Absent(v, use.seen, rest, use.key))
    case Check(key, _, single) => single || key in c.plain
    case Load(p, single) => Mine(v, t, p) && (single || v.heap[p].key in c.plain)
    case Cas(p, single, snap) =>
      && Mine(v, t, p) && snap <= |v.list| && v.heap[p].next == Suf(v.list, snap)
      && if single then Absent(v, snap, 0, v.heap[p].key) else v.heap[p].key in c.plain
    case DeXchg => v.phase == Emptying(t) && v.draining == [] && v.drained == []
    case Drain(w) => v.phase == Emptying(t) && w == Suf(v.draining, |v.draining|) && v.list == []
    case Crash => false
    case _ => true
  }

  ghost predicate ThreadsInv(c: Config, v: View, threads: map<nat, PC>) {
    && threads.Keys == c.tids
    && forall t {:trigger threads[t]} :: t in threads ==> ThreadOk(c, v, t, threads[t])
  }

  // A thread holds a reference from its successful init to its deinit; the
  // thread named to pls_ctor holds one from the start.
  ghost predicate Holds(c: Config, t: nat, pc: PC) {
    match pc
    case Fresh => t == c.prim
    case InitLoad => t == c.prim
    case InitCas(_) => t == c.prim
    case Refused => false
    case DeXchg => false
    case Drain(_) => false
    case Done => false
    case _ => true
  }

  ghost function Holders(c: Config, threads: map<nat, PC>): set<nat> {
    set t | t in threads && Holds(c, t, threads[t])
  }

  ghost predicate Starting(pc: PC) {
    pc.Fresh? || pc.InitLoad? || pc.InitCas?
  }

  ghost predicate Draining(pc: PC) {
    pc.DeXchg? || pc.Drain?
  }

  ghost predicate RefInv(c: Config, uRefs: nat, phase: Phase, extra: bool, threads: map<nat, PC>) {
    && uRefs == |Holders(c, threads)| + (if extra then 1 else 0)
    && (phase.Running? <==> uRefs > 0)
    && (extra && c.prim in threads ==> !Starting(threads[c.prim]))
    && (phase.Emptying? ==> phase.tid in threads && Draining(threads[phase.tid]))
    && forall t {:trigger threads[t]} :: t in threads ==>
         (threads[t].InitCas? ==> threads[t].cur > 0) && (threads[t].Refused? ==> uRefs == 0)
  }

  // The singleton property, and what callers were told.
  ghost predicate KeyInv(c: Config, heap: map<nat, Node>, list: seq<nat>, handed: set<(Key, nat)>, phase: Phase) {
    && (forall i, j :: 0 <= i < j < |list| && list[i] in heap && list[j] in heap ==>
          heap[list[i]].key == heap[list[j]].key ==> heap[list[i]].key in c.plain)
    && (forall k, p, q :: (k, p) in handed && (k, q) in handed && k !in c.plain ==> p == q)
    && (phase.Running? ==> forall k, p :: (k, p) in handed ==> p in list && p in heap && heap[p].key == k)
  }

  // The order of insertion, read off the lists.
  ghost predicate OrderInv(heap: map<nat, Node>, list: seq<nat>, draining: seq<nat>, drained: seq<nat>,
                           pushed: seq<nat>, phase: Phase) {
    && |drained| + |draining| + |list| == |pushed|
    && (drained != [] ==> list == []) && (phase.Running? ==> drained == [])
    && (forall i {:trigger drained[i]} :: 0 <= i < |drained| ==> drained[i] == pushed[|pushed| - 1 - i])
    && (forall i {:trigger draining[i]} :: 0 <= i < |draining| ==>
          draining[i] in heap && heap[draining[i]].id == pushed[|draining| - 1 - i])
    && (forall i {:trigger list[i]} :: 0 <= i < |list| ==>
          list[i] in heap && heap[list[i]].id == pushed[|list| - 1 - i])
  }

  ghost predicate Inv(c: Config, s: State) {
    && ListInv(s.heap, s.lst, s.list, s.draining, s.phase)
    && HeapInv(s.heap, s.list, s.draining, s.threads)
    && IdInv(s.heap, s.nextId, s.kind, s.live, s.freed, s.dtors)
    && ThreadsInv(c, ViewOf(s), s.threads)
    && RefInv(c, s.uRefs, s.phase, s.extra, s.threads)
    && KeyInv(c, s.heap, s.list, s.handed, s.phase)
    && OrderInv(s.heap, s.list, s.draining, s.drained, s.pushed, s.phase)
  }

  // No thread but the one named to pls_ctor is taken for it.
  ghost predicate NoAlias(c: Config) {
    c.prim in c.tids && forall t :: t in c.tids && t == PrimThread(c) ==> t == c.prim
  }

  lemma InitInv(c: Config)
    requires c.prim in c.tids
    ensures Inv(c, Init(c))
  {
    assert Holders(c, Init(c).threads) == {c.prim};
  }

  // A thread that holds a reference keeps the table running.
  lemma HolderRuns(c: Config, s: State, t: nat)
    requires Inv(c, s) && t in s.threads && Holds(c, t, s.threads[t])
    ensures s.phase.Running? && s.uRefs > 0
  {
    hide ListInv, HeapInv, IdInv, ThreadsInv, KeyInv, OrderInv;
    assert t in Holders(c, s.threads);
  }

  lemma HeapMove(heap: map<nat, Node>, list: seq<nat>, draining: seq<nat>, threads: map<nat, PC>, t: nat, pc: PC)
    requires HeapInv(heap, list, draining, threads) && t in threads && PrivateOf(threads[t]) == PrivateOf(pc)
    ensures HeapInv(heap, list, draining, threads[t := pc])
  {
  }

  lemma ThreadsMove(c: Config, v: View, threads: map<nat, PC>, t: nat, pc: PC)
    requires ThreadsInv(c, v, threads) && t in threads && ThreadOk(c, v, t, pc)
    ensures ThreadsInv(c, v, threads[t := pc])
  {
    hide ThreadOk;
  }

  lemma RefMove(c: Config, uRefs: nat, phase: Phase, extra: bool, threads: map<nat, PC>, t: nat, pc: PC)
    requires RefInv(c, uRefs, phase, extra, threads) && t in threads && Holds(c, t, threads[t]) == Holds(c, t, pc)
    requires Starting(pc) ==> Starting(threads[t])
    requires Draining(threads[t]) ==> Draining(pc)
    requires (pc.InitCas? ==> pc.cur > 0) && (pc.Refused? ==> uRefs == 0)
    ensures RefInv(c, uRefs, phase, extra, threads[t := pc])
  {
    assert Holders(c, threads[t := pc]) == Holders(c, threads);
  }

  // A step that changes nothing but where thread t is.
  lemma MoveInv(c: Config, s: State, t: nat, pc: PC)
    requires Inv(c, s) && t in s.threads && ThreadOk(c, ViewOf(s), t, pc)
    requires Holds(c, t, s.threads[t]) == Holds(c, t, pc) && PrivateOf(s.threads[t]) == PrivateOf(pc)
    requires Starting(pc) ==> Starting(s.threads[t])
    requires Draining(s.threads[t]) ==> Draining(pc)
    requires (pc.InitCas? ==> pc.cur > 0) && (pc.Refused? ==> s.uRefs == 0)
    ensures Inv(c, To(s, t, pc))
  {
    hide ListInv, HeapInv, IdInv, ThreadsInv, RefInv, KeyInv, OrderInv, ThreadOk, Holds, PrivateOf;
    HeapMove(s.heap, s.list, s.draining, s.threads, t, pc);
    ThreadsMove(c, ViewOf(s), s.threads, t, pc);
    RefMove(c, s.uRefs, s.phase, s.extra, s.threads, t, pc);
  }

  lemma BackInv(c: Config, s: State, t: nat, p: nat)
    requires Inv(c, s) && t in s.threads && Holds(c, t, s.threads[t]) && PrivateOf(s.threads[t]) == 0
    requires !Draining(s.threads[t])
    ensures Inv(c, Back(s, t, p))
  {
    MoveInv(c, s, t, Live);
    hide ListInv, HeapInv, IdInv, ThreadsInv, RefInv, KeyInv, OrderInv, Holds;
  }

  // ----- steps that change the heap while the table runs -----

  // The list only grows at its front, and no step of another thread touches a
  // block that is private to u.
  ghost predicate Grows(v: View, v': View, u: nat) {
    && v.phase.Running? && v'.phase.Running?
    && |v.list| <= |v'.list|
    && (forall r {:trigger Suf(v'.list, r)} {:trigger Suf(v.list, r)} ::
          0 <= r <= |v.list| ==> Suf(v'.list, r) == Suf(v.list, r))
    && (forall i {:trigger v.list[i]} :: 0 <= i < |v.list| && v.list[i] in v.heap ==>
          v.list[i] in v'.heap && v'.heap[v.list[i]] == v.heap[v.list[i]])
    && (forall q {:trigger q in v.heap} :: q in v.heap && v.heap[q].own == Private(u) ==>
          q in v'.heap && v'.heap[q] == v.heap[q])
  }

  lemma AbsentGrows(v: View, v': View, u: nat, hi: nat, lo: nat, key: Key)
    requires Grows(v, v', u) && Absent(v, hi, lo, key) && hi <= |v.list|
    ensures Absent(v', hi, lo, key)
  {
    var d := |v'.list| - |v.list|;
    forall i {:trigger v'.list[i]} | 0 <= i && |v'.list| - hi <= i < |v'.list| - lo
      ensures v'.list[i] in v'.heap && v'.heap[v'.list[i]].key != key
    {
      var r := |v'.list| - i;
      assert Suf(v'.list, r) == Suf(v.list, r);
      assert v'.list[i] == v.list[i - d];
    }
  }

  lemma ThreadGrows(c: Config, v: View, v': View, u: nat, pc: PC)
    requires Grows(v, v', u) && ThreadOk(c, v, u, pc)
    ensures ThreadOk(c, v', u, pc)
  {
    match pc
    case Walk(use, w, rest) =>
      if use.Again? {
        AbsentGrows(v, v', u, use.seen, rest, use.key);
      }
    case Cas(p, single, snap) =>
      if single {
        AbsentGrows(v, v', u, snap, 0, v.heap[p].key);
      }
    case _ =>
  }

  lemma ThreadsGrow(c: Config, v: View, v': View, threads: map<nat, PC>, t: nat, pc: PC)
    requires ThreadsInv(c, v, threads) && t in threads && ThreadOk(c, v', t, pc)
    requires forall u {:trigger Grows(v, v', u)} :: u != t ==> Grows(v, v', u)
    ensures ThreadsInv(c, v', threads[t := pc])
  {
    hide ThreadOk, Grows;
    var threads' := threads[t := pc];
    forall u {:trigger threads'[u]} | u in threads' ensures ThreadOk(c, v', u, threads'[u]) {
      if u != t {
        ThreadGrows(c, v, v', u, threads[u]);
      }
    }
  }

  lemma SufInjective(heap: map<nat, Node>, q: seq<nat>, a: nat, b: nat)
    requires Linked(heap, q) && a <= |q| && b <= |q| && Suf(q, a) == Suf(q, b)
    ensures a == b
  {
    if a > 0 {
      assert q[|q| - a] != 0;
    }
    if b > 0 {
      assert q[|q| - b] != 0;
    }
  }

  // The compare-and-exchange succeeds only if nothing was pushed since the
  // load: blocks on the list are never freed while a reference is held, so
  // there is no ABA.
  lemma NoAba(c: Config, s: State, t: nat, p: nat, single: bool, snap: nat)
    requires Inv(c, s) && t in s.threads && s.threads[t] == Cas(p, single, snap)
    requires p in s.heap && s.lst == s.heap[p].next
    ensures snap == |s.list|
    ensures Mine(ViewOf(s), t, p) && s.phase.Running?
    ensures if single then Absent(ViewOf(s), |s.list|, 0, s.heap[p].key) else s.heap[p].key in c.plain
  {
    HolderRuns(c, s, t);
    ListFacts(s);
    CheckOk(c, ViewOf(s), s.threads, t);
    hide IdInv, HeapInv, RefInv, KeyInv, OrderInv, ListInv, ThreadsInv, Absent, Linked, Suf;
    SufInjective(s.heap, s.list, snap, |s.list|);
  }

  ghost function Shared1(n: Node): Node {
    n.(own := Shared)
  }

  lemma ListPush(heap: map<nat, Node>, lst: nat, list: seq<nat>, p: nat, t: nat)
    requires ListInv(heap, lst, list, [], Running) && p in heap && p != 0
    requires heap[p].own == Private(t) && heap[p].next == lst
    ensures ListInv(heap[p := Shared1(heap[p])], p, [p] + list, [], Running)
  {
    var heap', q := heap[p := Shared1(heap[p])], [p] + list;
    forall i {:trigger q[i]} | 0 <= i < |q|
      ensures q[i] != 0 && q[i] in heap' && heap'[q[i]].own == Shared && heap'[q[i]].next == Suf(q, |q| - 1 - i)
    {
      if i > 0 {
        assert q[i] == list[i - 1] && list[i - 1] != p;
      }
      assert Suf(q, |q| - 1 - i) == Suf(list, |q| - 1 - i);
    }
    assert forall i :: 0 <= i < |list| ==> list[i] != p;
  }

  lemma HeapPush(heap: map<nat, Node>, list: seq<nat>, draining: seq<nat>, threads: map<nat, PC>, p: nat, t: nat)
    requires HeapInv(heap, list, draining, threads) && t in threads && p in heap && PrivateOf(threads[t]) == p
    ensures HeapInv(heap[p := Shared1(heap[p])], [p] + list, draining, threads[t := Live])
  {
    var list' := [p] + list;
    assert p == list'[0];
    forall q | q in heap && q in list ensures q in list' {
    }
  }

  lemma IdPush(heap: map<nat, Node>, nextId: nat, kind: map<nat, bool>, live: map<nat, nat>,
               freed: seq<nat>, dtors: seq<nat>, p: nat, n: Node)
    requires IdInv(heap, nextId, kind, live, freed, dtors) && p in heap
    requires n.id == heap[p].id && n.hasDtor == heap[p].hasDtor
    ensures IdInv(heap[p := n], nextId, kind, live, freed, dtors)
  {
    hide Distinct;
  }

  lemma KeyPush(c: Config, heap: map<nat, Node>, list: seq<nat>, handed: set<(Key, nat)>, p: nat, single: bool)
    requires KeyInv(c, heap, list, handed, Running) && Linked(heap, list) && p in heap && heap[p].own != Shared
    requires if single then forall i :: 0 <= i < |list| ==> heap[list[i]].key != heap[p].key else heap[p].key in c.plain
    ensures KeyInv(c, heap[p := Shared1(heap[p])], [p] + list,
                   if single then handed + {(heap[p].key, p)} else handed, Running)
  {
    var heap', q := heap[p := Shared1(heap[p])], [p] + list;
    var handed' := if single then handed + {(heap[p].key, p)} else handed;
    assert forall i :: 0 <= i < |list| ==> list[i] != p && list[i] in heap;
    assert forall i :: 0 < i < |q| ==> q[i] == list[i - 1];
    forall k, r | (k, r) in handed' ensures r in q && r in heap' && heap'[r].key == k {
      assert q[0] == p;
    }
    assert forall k, r :: (k, r) in handed ==> r in list && heap[r].key == k;
  }

  lemma OrderPush(heap: map<nat, Node>, list: seq<nat>, pushed: seq<nat>, p: nat)
    requires OrderInv(heap, list, [], [], pushed, Running) && p in heap
    ensures OrderInv(heap[p := Shared1(heap[p])], [p] + list, [], [], pushed + [heap[p].id], Running)
  {
    var q := [p] + list;
    assert forall i :: 0 < i < |q| ==> q[i] == list[i - 1];
  }

  lemma GrowsPush(s: State, t: nat, p: nat, u: nat, single: bool)
    requires ListInv(s.heap, s.lst, s.list, s.draining, s.phase) && s.phase.Running?
    requires p in s.heap && s.heap[p].own == Private(t) && u != t
    ensures Grows(ViewOf(s), ViewOf(Publish(s, t, p, single)), u)
  {
    var q := [p] + s.list;
    forall r | 0 <= r <= |s.list|
      ensures Suf(q, r) == Suf(s.list, r)
    {
      SufTail(p, s.list, r);
    }
    hide Suf, ListInv;
  }

  lemma PublishInv(c: Config, s: State, t: nat, p: nat, single: bool, snap: nat)
    requires Inv(c, s) && t in s.threads && s.threads[t] == Cas(p, single, snap)
    requires p in s.heap && s.lst == s.heap[p].next
    ensures Inv(c, Publish(s, t, p, single))
  {
    hide ListInv, HeapInv, IdInv, ThreadsInv, RefInv, KeyInv, OrderInv, Grows, Linked, Absent;
    NoAba(c, s, t, p, single, snap);
    var s' := Publish(s, t, p, single);
    forall u {:trigger Grows(ViewOf(s), ViewOf(s'), u)} | u != t ensures Grows(ViewOf(s), ViewOf(s'), u) {
      GrowsPush(s, t, p, u, single);
    }
    ListFacts(s);
    AbsentAll(s, s.heap[p].key);
    ListPush(s.heap, s.lst, s.list, p, t);
    HeapPush(s.heap, s.list, s.draining, s.threads, p, t);
    IdPush(s.heap, s.nextId, s.kind, s.live, s.freed, s.dtors, p, Shared1(s.heap[p]));
    ThreadsGrow(c, ViewOf(s), ViewOf(s'), s.threads, t, Live);
    RefMove(c, s.uRefs, s.phase, s.extra, s.threads, t, Live);
    KeyPush(c, s.heap, s.list, s.handed, p, single);
    OrderPush(s.heap, s.list, s.pushed, p);
  }

  lemma ListFacts(s: State)
    requires ListInv(s.heap, s.lst, s.list, s.draining, s.phase)
    requires OrderInv(s.heap, s.list, s.draining, s.drained, s.pushed, s.phase)
    ensures s.phase.Running? ==> s.draining == []
    ensures Linked(s.heap, s.list) && Linked(s.heap, s.draining) && s.lst == Suf(s.list, |s.list|)
    ensures s.phase.Running? ==> s.drained == []
  {
  }

  lemma AbsentAll(s: State, key: Key)
    requires Linked(s.heap, s.list)
    ensures Absent(ViewOf(s), |s.list|, 0, key) <==> forall i :: 0 <= i < |s.list| ==> s.heap[s.list[i]].key != key
  {
    assert ViewOf(s).list == s.list;
  }

  // Blocks on a list are shared, so a change to private blocks leaves the lists
  // as they are.
  lemma ListsKeep(c: Config, s: State, heap': map<nat, Node>)
    requires Inv(c, s)
    requires forall q {:trigger q in s.heap} :: q in s.heap && s.heap[q].own == Shared ==>
               q in heap' && heap'[q] == s.heap[q]
    ensures ListInv(heap', s.lst, s.list, s.draining, s.phase) && Linked(heap', s.list)
    ensures KeyInv(c, heap', s.list, s.handed, s.phase)
    ensures OrderInv(heap', s.list, s.draining, s.drained, s.pushed, s.phase)
  {
    ListFacts(s);
    StillLinked(s.heap, heap', s.list);
    StillLinked(s.heap, heap', s.draining);
    KeysKeep(c, s.heap, heap', s.list, s.handed, s.phase);
    OrderKeep(s.heap, heap', s);
    hide HeapInv, IdInv, ThreadsInv, RefInv, KeyInv, OrderInv, Linked, Suf;
  }

  lemma StillLinked(heap: map<nat, Node>, heap': map<nat, Node>, list: seq<nat>)
    requires Linked(heap, list)
    requires forall q {:trigger q in heap} :: q in heap && heap[q].own == Shared ==> q in heap' && heap'[q] == heap[q]
    ensures Linked(heap', list) && forall q :: q in list ==> q in heap && q in heap' && heap'[q] == heap[q]
  {
    hide Suf, Distinct;
  }

  lemma KeysKeep(c: Config, heap: map<nat, Node>, heap': map<nat, Node>, list: seq<nat>, handed: set<(Key, nat)>,
                 phase: Phase)
    requires KeyInv(c, heap, list, handed, phase)
    requires forall q :: q in list ==> q in heap && q in heap' && heap'[q] == heap[q]
    ensures KeyInv(c, heap', list, handed, phase)
  {
    assert forall i :: 0 <= i < |list| ==> list[i] in list;
  }

  lemma OrderKeep(heap: map<nat, Node>, heap': map<nat, Node>, s: State)
    requires OrderInv(heap, s.list, s.draining, s.drained, s.pushed, s.phase)
    requires forall q :: q in s.list || q in s.draining ==> q in heap && q in heap' && heap'[q] == heap[q]
    ensures OrderInv(heap', s.list, s.draining, s.drained, s.pushed, s.phase)
  {
  }

  lemma GrowsKeep(s: State, s': State, t: nat, p: nat)
    requires ListInv(s.heap, s.lst, s.list, s.draining, s.phase)
    requires s.phase.Running? && s'.phase.Running? && s'.list == s.list
    requires forall q {:trigger q in s.heap} :: q in s.heap && q != p ==> q in s'.heap && s'.heap[q] == s.heap[q]
    requires p in s.heap ==> s.heap[p].own == Private(t)
    ensures forall u {:trigger Grows(ViewOf(s), ViewOf(s'), u)} :: u != t ==> Grows(ViewOf(s), ViewOf(s'), u)
  {
  }

  lemma AllocInv(c: Config, s: State, t: nat, p: nat)
    requires Inv(c, s) && t in s.threads && s.threads[t].Check? && p != 0 && p !in s.heap
    ensures var r := Next(c, s, t, Allocate(p)); r.Some? ==> Inv(c, r.value)
  {
    hide ListInv, HeapInv, IdInv, ThreadsInv, RefInv, KeyInv, OrderInv, Grows;
    if s.uRefs != 0 {
      HolderRuns(c, s, t);
      var pc := s.threads[t];
      var s' := Next(c, s, t, Allocate(p)).value;
      CheckOk(c, ViewOf(s), s.threads, t);
      ListsKeep(c, s, s'.heap);
      GrowsKeep(s, s', t, p);
      ThreadsGrow(c, ViewOf(s), ViewOf(s'), s.threads, t, Load(p, pc.single));
      RefMove(c, s.uRefs, s.phase, s.extra, s.threads, t, Load(p, pc.single));
      AllocHeap(s, t, p, s'.heap[p]);
    }
  }

  lemma CheckOk(c: Config, v: View, threads: map<nat, PC>, t: nat)
    requires ThreadsInv(c, v, threads) && t in threads
    ensures ThreadOk(c, v, t, threads[t])
  {
  }

  lemma AllocHeap(s: State, t: nat, p: nat, n: Node)
    requires HeapInv(s.heap, s.list, s.draining, s.threads)
    requires IdInv(s.heap, s.nextId, s.kind, s.live, s.freed, s.dtors)
    requires t in s.threads && s.threads[t].Check? && p != 0 && p !in s.heap
    requires n.own == Private(t) && n.id == s.nextId
    ensures HeapInv(s.heap[p := n], s.list, s.draining, s.threads[t := Load(p, s.threads[t].single)])
    ensures IdInv(s.heap[p := n], s.nextId + 1, s.kind[n.id := n.hasDtor], s.live[n.id := p], s.freed, s.dtors)
  {
  }

  lemma LoadInv(c: Config, s: State, t: nat, p: nat, single: bool)
    requires Inv(c, s) && t in s.threads && s.threads[t] == Load(p, single)
    ensures Inv(c, LoadStep(s, t, p, single))
  {
    hide ListInv, HeapInv, IdInv, ThreadsInv, RefInv, KeyInv, OrderInv, Grows, Linked;
    HolderRuns(c, s, t);
    CheckOk(c, ViewOf(s), s.threads, t);
    ListFacts(s);
    var s' := LoadStep(s, t, p, single);
    ListsKeep(c, s, s'.heap);
    GrowsKeep(s, s', t, p);
    ThreadsGrow(c, ViewOf(s), ViewOf(s'), s.threads, t, s'.threads[t]);
    RefMove(c, s.uRefs, s.phase, s.extra, s.threads, t, s'.threads[t]);
    IdPush(s.heap, s.nextId, s.kind, s.live, s.freed, s.dtors, p, s'.heap[p]);
    LoadHeap(s, t, p, s'.heap[p], s'.threads[t]);
  }

  lemma LoadHeap(s: State, t: nat, p: nat, n: Node, pc: PC)
    requires HeapInv(s.heap, s.list, s.draining, s.threads) && t in s.threads && p in s.heap
    requires s.heap[p].own == Private(t) == n.own && PrivateOf(s.threads[t]) == PrivateOf(pc) == p
    ensures HeapInv(s.heap[p := n], s.list, s.draining, s.threads[t := pc])
  {
  }

  // The losing side of a singleton race: its block is destroyed on the spot.
  lemma DiscardInv(c: Config, s: State, t: nat, use: Use, w: nat, rest: nat)
    requires Inv(c, s) && t in s.threads && s.threads[t] == Walk(use, w, rest) && use.Again?
    requires w in s.heap && w != 0 && s.heap[w].key == use.key
    ensures Inv(c, Found(s, t, use, w))
  {
    hide ListInv, HeapInv, IdInv, ThreadsInv, RefInv, KeyInv, OrderInv, Grows, Linked;
    HolderRuns(c, s, t);
    CheckOk(c, ViewOf(s), s.threads, t);
    WalkedIsListed(s, t, w, rest, c);
    var s' := Found(s, t, use, w);
    ListsKeep(c, s, s'.heap);
    GrowsKeep(s, s', t, use.p);
    ThreadsGrow(c, ViewOf(s), ViewOf(s'), s.threads, t, Live);
    RefMove(c, s.uRefs, s.phase, s.extra, s.threads, t, Live);
    FreeIds(s, use.p);
    DiscardHeap(s, t, use.p);
    HandOut(c, s'.heap, s.list, s.handed, use.key, w);
  }

  lemma WalkedIsListed(s: State, t: nat, w: nat, rest: nat, c: Config)
    requires Inv(c, s) && t in s.threads && s.threads[t].Walk? && s.threads[t].w == w && w != 0
    ensures w in s.list && w in s.heap && s.heap[w].own == Shared
  {
    hide HeapInv, IdInv, RefInv, KeyInv, OrderInv;
    assert ThreadOk(c, ViewOf(s), t, s.threads[t]);
    assert w == s.list[|s.list| - s.threads[t].rest];
  }

  lemma FreeIds(s: State, p: nat)
    requires IdInv(s.heap, s.nextId, s.kind, s.live, s.freed, s.dtors) && p in s.heap
    ensures var s' := Free(s, p); IdInv(s'.heap, s'.nextId, s'.kind, s'.live, s'.freed, s'.dtors)
  {
    var n, s' := s.heap[p], Free(s, p);
    assert n.id in s.live && n.id !in s.freed && n.id !in s.dtors;
    assert forall id :: id in s'.freed <==> id in s.freed || id == n.id;
    assert forall id :: id in s'.dtors <==> id in s.dtors || (id == n.id && n.hasDtor);
  }

  lemma DiscardHeap(s: State, t: nat, p: nat)
    requires HeapInv(s.heap, s.list, s.draining, s.threads) && t in s.threads && p in s.heap
    requires PrivateOf(s.threads[t]) == p
    ensures HeapInv(s.heap - {p}, s.list, s.draining, s.threads[t := Live])
  {
  }

  lemma HandOut(c: Config, heap: map<nat, Node>, list: seq<nat>, handed: set<(Key, nat)>, key: Key, w: nat)
    requires KeyInv(c, heap, list, handed, Running) && Linked(heap, list)
    requires w in list && w in heap && heap[w].key == key
    ensures KeyInv(c, heap, list, handed + {(key, w)}, Running)
  {
    assert forall i :: 0 <= i < |list| ==> list[i] in heap;
    var handed' := handed + {(key, w)};
    forall k, p, q | (k, p) in handed' && (k, q) in handed' && k !in c.plain ensures p == q {
      assert p in list && q in list && heap[p].key == k && heap[q].key == k;
    }
  }

  // ----- reference counting and the final drain -----

  lemma HoldersSize(c: Config, threads: map<nat, PC>, t: nat, pc: PC)
    requires t in threads
    ensures var before, after := |Holders(c, threads)|, |Holders(c, threads[t := pc])|;
            after == before + (if Holds(c, t, pc) then 1 else 0) - (if Holds(c, t, threads[t]) then 1 else 0)
  {
    var h, h' := Holders(c, threads), Holders(c, threads[t := pc]);
    assert h' - {t} == h - {t};
    assert |h - {t}| == |h| - if t in h then 1 else 0;
    assert |h' - {t}| == |h'| - if t in h' then 1 else 0;
  }

  // A successful increment: the thread named to pls_ctor gets a second
  // reference, any other its first.
  lemma IncInv(c: Config, s: State, t: nat)
    requires Inv(c, s) && t in s.threads && s.threads[t] == InitCas(s.uRefs)
    ensures Inv(c, To(s.(uRefs := s.uRefs + 1, extra := s.extra || t == c.prim), t, Live))
  {
    hide ListInv, HeapInv, IdInv, ThreadsInv, KeyInv, OrderInv, ThreadOk;
    HoldersSize(c, s.threads, t, Live);
    HeapMove(s.heap, s.list, s.draining, s.threads, t, Live);
    LiveOk(c, s, t);
  }

  lemma LiveOk(c: Config, s: State, t: nat)
    requires ThreadsInv(c, ViewOf(s), s.threads) && t in s.threads
    ensures ThreadsInv(c, ViewOf(s), s.threads[t := Live]) && ThreadsInv(c, ViewOf(s), s.threads[t := Done])
  {
    ThreadsMove(c, ViewOf(s), s.threads, t, Live);
    ThreadsMove(c, ViewOf(s), s.threads, t, Done);
  }

  lemma DecInv(c: Config, s: State, t: nat)
    requires Inv(c, s) && t in s.threads && s.threads[t] == DeSub
    ensures Inv(c, DeSubStep(s, t))
  {
    hide ListInv, HeapInv, IdInv, ThreadsInv, KeyInv, OrderInv, ThreadOk;
    HolderRuns(c, s, t);
    var pc := if s.uRefs == 1 then DeXchg else Done;
    HoldersSize(c, s.threads, t, pc);
    HeapMove(s.heap, s.list, s.draining, s.threads, t, pc);
    if s.uRefs == 1 {
      LastDrop(c, s, t);
    } else {
      LiveOk(c, s, t);
    }
  }

  // The drop to zero: nobody else holds a reference, so nobody else depends on
  // the table running.
  lemma LastDrop(c: Config, s: State, t: nat)
    requires Inv(c, s) && t in s.threads && s.threads[t] == DeSub && s.uRefs == 1
    ensures var s' := DeSubStep(s, t);
            && ListInv(s'.heap, s'.lst, s'.list, s'.draining, s'.phase)
            && ThreadsInv(c, ViewOf(s'), s'.threads)
            && KeyInv(c, s'.heap, s'.list, s'.handed, s'.phase)
            && OrderInv(s'.heap, s'.list, s'.draining, s'.drained, s'.pushed, s'.phase)
  {
    hide HeapInv, IdInv, ThreadOk, Linked, Holds;
    HoldsNow(c, t);
    HolderRuns(c, s, t);
    var s' := DeSubStep(s, t);
    OnlyHolder(c, s.threads, t);
    forall u {:trigger s'.threads[u]} | u in s'.threads ensures ThreadOk(c, ViewOf(s'), u, s'.threads[u]) {
      if u != t {
        IdleOk(c, ViewOf(s), ViewOf(s'), u, s.threads[u]);
      } else {
        XchgOk(c, ViewOf(s'), t);
      }
    }
  }

  lemma HoldsNow(c: Config, t: nat)
    ensures Holds(c, t, DeSub)
  {
  }

  lemma XchgOk(c: Config, v: View, t: nat)
    requires v.phase == Emptying(t) && v.draining == [] && v.drained == []
    ensures ThreadOk(c, v, t, DeXchg)
  {
  }

  // A thread without a reference has no obligations while the table runs.
  lemma IdleOk(c: Config, v: View, v': View, u: nat, pc: PC)
    requires ThreadOk(c, v, u, pc) && v.phase.Running? && !Holds(c, u, pc)
    ensures ThreadOk(c, v', u, pc)
  {
  }

  lemma OnlyHolder(c: Config, threads: map<nat, PC>, t: nat)
    requires t in threads && Holds(c, t, threads[t]) && |Holders(c, threads)| <= 1
    ensures forall u :: u in threads && u != t ==> !Holds(c, u, threads[u])
  {
    forall u | u in threads && u != t ensures !Holds(c, u, threads[u]) {
      if Holds(c, u, threads[u]) {
        assert {t, u} <= Holders(c, threads);
        SubsetSize({t, u}, Holders(c, threads));
      }
    }
  }

  lemma SubsetSize(a: set<nat>, b: set<nat>)
    requires a <= b
    ensures |a| <= |b|
  {
    assert b == a + (b - a);
  }

  // While the table is being emptied no thread other than the one doing it is
  // inside an operation.
  lemma Alone(c: Config, s: State, t: nat, u: nat)
    requires Inv(c, s) && s.phase == Emptying(t) && u in s.threads && u != t
    ensures !Holds(c, u, s.threads[u]) && PrivateOf(s.threads[u]) == 0
    ensures !s.threads[u].DeXchg? && !s.threads[u].Drain? && !s.threads[u].Crash?
  {
    if Holds(c, u, s.threads[u]) {
      HolderRuns(c, s, u);
    }
    assert ThreadOk(c, ViewOf(s), u, s.threads[u]);
  }

  lemma XchgInv(c: Config, s: State, t: nat)
    requires Inv(c, s) && t in s.threads && s.threads[t] == DeXchg
    ensures Inv(c, To(s.(lst := 0, draining := s.list, list := []), t, Drain(s.lst)))
  {
    hide IdInv, RefInv, ListInv, HeapInv, KeyInv, OrderInv;
    var s' := To(s.(lst := 0, draining := s.list, list := []), t, Drain(s.lst));
    CheckOk(c, ViewOf(s), s.threads, t);
    XchgLists(c, s, t);
    forall u {:trigger s'.threads[u]} | u in s'.threads ensures ThreadOk(c, ViewOf(s'), u, s'.threads[u]) {
      if u != t {
        Alone(c, s, t, u);
      }
    }
    HeapMove(s.heap, s.list, s.draining, s.threads, t, Drain(s.lst));
    HeapSwap(s.heap, s.list, s'.threads);
    RefMove(c, s.uRefs, s.phase, s.extra, s.threads, t, Drain(s.lst));
  }

  lemma HeapSwap(heap: map<nat, Node>, list: seq<nat>, threads: map<nat, PC>)
    requires HeapInv(heap, list, [], threads)
    ensures HeapInv(heap, [], list, threads)
  {
  }

  lemma XchgLists(c: Config, s: State, t: nat)
    requires Inv(c, s) && s.phase == Emptying(t) && s.draining == [] && s.drained == []
    ensures ListInv(s.heap, 0, [], s.list, s.phase) && s.lst == Suf(s.list, |s.list|)
    ensures KeyInv(c, s.heap, [], s.handed, s.phase)
    ensures OrderInv(s.heap, [], s.list, [], s.pushed, s.phase)
  {
    hide IdInv, RefInv, HeapInv, ThreadsInv;
  }

  lemma DrainInv(c: Config, s: State, t: nat, w: nat)
    requires Inv(c, s) && t in s.threads && s.threads[t] == Drain(w)
    ensures Inv(c, DrainStep(s, t, w))
  {
    hide ListInv, HeapInv, IdInv, RefInv, KeyInv, OrderInv, Linked;
    CheckOk(c, ViewOf(s), s.threads, t);
    ListFacts(s);
    Ended(s, w);
    var s' := DrainStep(s, t, w);
    DrainThreads(c, s, t, w);
    hide ThreadsInv, ThreadOk, Suf;
    if w == 0 {
      HeapMove(s.heap, s.list, s.draining, s.threads, t, Done);
      DrainEnd(c, s, t);
    } else {
      RefMove(c, s.uRefs, s.phase, s.extra, s.threads, t, s'.threads[t]);
      FreeIds(s, w);
      DrainLists(c, s, t, w);
    }
  }

  lemma DrainThreads(c: Config, s: State, t: nat, w: nat)
    requires Inv(c, s) && t in s.threads && s.threads[t] == Drain(w)
    ensures var s' := DrainStep(s, t, w); ThreadsInv(c, ViewOf(s'), s'.threads)
  {
    hide ListInv, HeapInv, IdInv, RefInv, KeyInv, OrderInv, Linked;
    CheckOk(c, ViewOf(s), s.threads, t);
    ListFacts(s);
    Ended(s, w);
    var s' := DrainStep(s, t, w);
    forall u {:trigger s'.threads[u]} | u in s'.threads ensures ThreadOk(c, ViewOf(s'), u, s'.threads[u]) {
      if u != t {
        Alone(c, s, t, u);
      }
    }
  }

  // The walk of the drain loop is at the front of what remains of the list.
  lemma Ended(s: State, w: nat)
    requires Linked(s.heap, s.draining) && w == Suf(s.draining, |s.draining|)
    ensures w == 0 <==> s.draining == []
    ensures w != 0 ==> w == s.draining[0] && w in s.heap && s.heap[w].next == Suf(s.draining[1..], |s.draining| - 1)
  {
    if s.draining != [] {
      assert s.draining[0] != 0;
    }
  }

  lemma DrainEnd(c: Config, s: State, t: nat)
    requires s.phase == Emptying(t) && s.draining == [] && s.list == []
    requires ListInv(s.heap, s.lst, s.list, s.draining, s.phase)
    requires RefInv(c, s.uRefs, s.phase, s.extra, s.threads) && t in s.threads && s.threads[t].Drain?
    requires KeyInv(c, s.heap, s.list, s.handed, s.phase)
    requires OrderInv(s.heap, s.list, s.draining, s.drained, s.pushed, s.phase)
    ensures ListInv(s.heap, s.lst, s.list, s.draining, Drained)
    ensures RefInv(c, s.uRefs, Drained, s.extra, s.threads[t := Done])
    ensures KeyInv(c, s.heap, s.list, s.handed, Drained)
    ensures OrderInv(s.heap, s.list, s.draining, s.drained, s.pushed, Drained)
  {
    RefMove(c, s.uRefs, s.phase, s.extra, s.threads, t, Drain(0));
    HoldersSize(c, s.threads, t, Done);
  }

  lemma DrainLists(c: Config, s: State, t: nat, w: nat)
    requires Inv(c, s) && s.phase == Emptying(t) && s.list == [] && s.draining != [] && w == s.draining[0]
    requires t in s.threads && s.threads[t] == Drain(w)
    ensures var q, heap' := s.draining[1..], s.heap - {w};
            && w in s.heap
            && ListInv(heap', s.lst, [], q, s.phase)
            && HeapInv(heap', [], q, s.threads[t := Drain(s.heap[w].next)])
            && KeyInv(c, heap', [], s.handed, s.phase)
            && OrderInv(heap', [], q, s.drained + [s.heap[w].id], s.pushed, s.phase)
  {
    hide IdInv, RefInv, ThreadsInv, HeapInv, OrderInv, Linked;
    assert s.draining == [w] + s.draining[1..];
    PopLinked(s.heap, w, s.draining[1..]);
    PopHeap(s.heap, w, s.draining[1..], s.threads, t, Drain(s.heap[w].next));
    PopOrder(s.heap, w, s.draining[1..], s.drained, s.pushed, s.phase);
  }

  lemma PopLinked(heap: map<nat, Node>, w: nat, q: seq<nat>)
    requires Linked(heap, [w] + q)
    ensures w in heap && w !in q && Linked(heap - {w}, q) && Linked(heap - {w}, [])
  {
    var r := [w] + q;
    assert r[0] == w;
    forall i {:trigger q[i]} | 0 <= i < |q|
      ensures q[i] == r[i + 1] && q[i] != w && Suf(r, |r| - 1 - (i + 1)) == Suf(q, |q| - 1 - i)
    {
      SufTail(w, q, |q| - 1 - i);
      assert r[0] != r[i + 1];
    }
    hide Suf;
  }

  lemma SufTail(w: nat, q: seq<nat>, r: nat)
    requires r <= |q|
    ensures Suf([w] + q, r) == Suf(q, r)
  {
  }

  lemma PopHeap(heap: map<nat, Node>, w: nat, q: seq<nat>, threads: map<nat, PC>, t: nat, pc: PC)
    requires HeapInv(heap, [], [w] + q, threads) && t in threads && PrivateOf(threads[t]) == PrivateOf(pc)
    ensures HeapInv(heap - {w}, [], q, threads[t := pc])
  {
  }

  lemma PopOrder(heap: map<nat, Node>, w: nat, q: seq<nat>, drained: seq<nat>, pushed: seq<nat>, phase: Phase)
    requires OrderInv(heap, [], [w] + q, drained, pushed, phase) && w in heap && w !in q && !phase.Running?
    ensures OrderInv(heap - {w}, [], q, drained + [heap[w].id], pushed, phase)
  {
    var r := [w] + q;
    assert r[0] == w;
    forall i {:trigger q[i]} | 0 <= i < |q| ensures q[i] == r[i + 1] && q[i] != w {
    }
  }

  // ----- every step, every run -----

  lemma FirstInv(c: Config, s: State, t: nat, use: Use, w: nat, rest: nat)
    requires Inv(c, s) && t in s.threads && s.threads[t] == Walk(use, w, rest) && !use.Again?
    requires w in s.heap && w != 0 && s.heap[w].key == use.key
    ensures Inv(c, Found(s, t, use, w))
  {
    BackInv(c, s, t, w);
    if use.First? {
      HolderRuns(c, s, t);
      WalkedIsListed(s, t, w, rest, c);
      ListFacts(s);
      hide ListInv, HeapInv, IdInv, RefInv, KeyInv, OrderInv, Linked, ThreadsInv;
      HandOut(c, s.heap, s.list, s.handed, use.key, w);
    }
  }

  lemma WalkInv(c: Config, s: State, t: nat, use: Use, w: nat, rest: nat)
    requires Inv(c, s) && t in s.threads && s.threads[t] == Walk(use, w, rest)
    ensures Inv(c, WalkStep(s, t, use, w, rest))
  {
    hide HeapInv, IdInv, RefInv, KeyInv, OrderInv, ListInv, ThreadsInv;
    HolderRuns(c, s, t);
    CheckOk(c, ViewOf(s), s.threads, t);
    ListFacts(s);
    if w == 0 {
      RestIsZero(s, rest);
      assert use.Again? ==> AbsentAt(ViewOf(s), use);
      match use
      case Query(_) => BackInv(c, s, t, 0);
      case First(key, dtor) => MoveInv(c, s, t, Check(key, dtor, true));
      case Again(p, key, snap, seen) =>
        AbsentShorter(ViewOf(s), seen, snap, key);
        MoveInv(c, s, t, Cas(p, true, snap));
    } else {
      WalkedIsListed(s, t, w, rest, c);
      if s.heap[w].key == use.key {
        if use.Again? {
          DiscardInv(c, s, t, use, w, rest);
        } else {
          FirstInv(c, s, t, use, w, rest);
        }
      } else {
        Further(s, use, w, rest);
        MoveInv(c, s, t, Walk(use, s.heap[w].next, rest - 1));
      }
    }
  }

  ghost predicate AbsentAt(v: View, use: Use)
    requires use.Again?
  {
    Absent(v, use.seen, 0, use.key)
  }

  lemma RestIsZero(s: State, rest: nat)
    requires Linked(s.heap, s.list) && rest <= |s.list| && Suf(s.list, rest) == 0
    ensures rest == 0
  {
    SufInjective(s.heap, s.list, rest, 0);
  }

  lemma AbsentShorter(v: View, hi: nat, hi': nat, key: Key)
    requires Absent(v, hi, 0, key) && hi' <= hi
    ensures Absent(v, hi', 0, key)
  {
  }

  lemma Further(s: State, use: Use, w: nat, rest: nat)
    requires Linked(s.heap, s.list) && rest <= |s.list| && w == Suf(s.list, rest) != 0 && w in s.heap
    requires s.heap[w].key != use.key
    ensures rest > 0 && s.heap[w].next == Suf(s.list, rest - 1)
    ensures use.Again? && Absent(ViewOf(s), use.seen, rest, use.key) ==> Absent(ViewOf(s), use.seen, rest - 1, use.key)
  {
    assert w == s.list[|s.list| - rest];
  }

  lemma HeadInv(c: Config, s: State, t: nat, use: Use)
    requires Inv(c, s) && t in s.threads && s.threads[t] == WalkHead(use)
    ensures var use' := if use.Again? then use.(seen := |s.list|) else use;
            Inv(c, To(s, t, Walk(use', s.lst, |s.list|)))
  {
    hide HeapInv, IdInv, RefInv, KeyInv, OrderInv, ListInv, ThreadsInv;
    CheckOk(c, ViewOf(s), s.threads, t);
    ListFacts(s);
    var use' := if use.Again? then use.(seen := |s.list|) else use;
    MoveInv(c, s, t, Walk(use', s.lst, |s.list|));
  }

  lemma GoInv(c: Config, s: State, t: nat)
    requires NoAlias(c) && Inv(c, s) && t in s.threads
    ensures var r := Go1(c, s, t, s.threads[t]); r.Some? ==> Inv(c, r.value)
  {
    hide HeapInv, IdInv, RefInv, KeyInv, OrderInv, ListInv, ThreadsInv, Inv;
    match s.threads[t]
    case Fresh => FreshInv(c, s, t);
    case InitLoad => InitLoadInv(c, s, t);
    case InitCas(cur) =>
      if s.uRefs == cur {
        IncInv(c, s, t);
      } else {
        MoveInv(c, s, t, InitLoad);
      }
    case WalkHead(use) => HeadInv(c, s, t, use);
    case Walk(use, w, rest) => WalkInv(c, s, t, use, w, rest);
    case Load(p, single) => LoadInv(c, s, t, p, single);
    case Cas(p, single, snap) => CasInv(c, s, t, p, single, snap);
    case DeTest =>
      HolderRuns(c, s, t);
      MoveInv(c, s, t, DeSub);
    case DeSub => DecInv(c, s, t);
    case DeXchg => XchgInv(c, s, t);
    case Drain(w) => DrainInv(c, s, t, w);
    case _ =>
  }

  lemma FreshInv(c: Config, s: State, t: nat)
    requires NoAlias(c) && Inv(c, s) && t in s.threads && s.threads[t].Fresh?
    ensures Inv(c, To(s, t, if t == PrimThread(c) then Live else InitLoad))
  {
    assert t in c.tids;
    MoveInv(c, s, t, if t == PrimThread(c) then Live else InitLoad);
  }

  lemma InitLoadInv(c: Config, s: State, t: nat)
    requires Inv(c, s) && t in s.threads && s.threads[t].InitLoad?
    ensures Inv(c, To(s, t, if s.uRefs == 0 then Refused else InitCas(s.uRefs)))
  {
    if t == c.prim {
      HolderRuns(c, s, t);
    }
    MoveInv(c, s, t, if s.uRefs == 0 then Refused else InitCas(s.uRefs));
  }

  lemma CasInv(c: Config, s: State, t: nat, p: nat, single: bool, snap: nat)
    requires Inv(c, s) && t in s.threads && s.threads[t] == Cas(p, single, snap)
    ensures Inv(c, CasStep(s, t, p, single))
  {
    hide HeapInv, IdInv, RefInv, KeyInv, OrderInv, ListInv, ThreadsInv;
    CheckOk(c, ViewOf(s), s.threads, t);
    if s.lst == s.heap[p].next {
      PublishInv(c, s, t, p, single, snap);
    } else {
      MoveInv(c, s, t, Load(p, single));
    }
  }

  lemma StepInv(c: Config, s: State, t: nat, a: Action)
    requires NoAlias(c) && Inv(c, s)
    ensures var r := Next(c, s, t, a); r.Some? ==> Inv(c, r.value)
  {
    hide HeapInv, IdInv, RefInv, KeyInv, OrderInv, ListInv, ThreadsInv, Inv;
    if t in s.threads {
      match a
      case Go => GoInv(c, s, t);
      case Begin(op) => BeginInv(c, s, t, op);
      case Allocate(p) =>
        if s.threads[t].Check? && p != 0 && p !in s.heap {
          AllocInv(c, s, t, p);
        }
      case AllocateFails =>
        if s.threads[t].Check? {
          BackInv(c, s, t, 0);
        }
    }
  }

  lemma BeginInv(c: Config, s: State, t: nat, op: Op)
    requires Inv(c, s) && t in s.threads
    ensures var r := Next(c, s, t, Begin(op)); r.Some? ==> Inv(c, r.value)
  {
    hide IdInv, HeapInv, RefInv, KeyInv, OrderInv, ListInv, ThreadsInv, Absent, Linked;
    if s.threads[t].Live? && (op.Add? ==> op.key in c.plain) {
      MoveInv(c, s, t, BeginOp(op));
    }
  }

  lemma {:induction false} RunInv(c: Config, s: State, trace: seq<(nat, Action)>)
    requires NoAlias(c) && Inv(c, s)
    ensures var r := Run(c, s, trace); r.Some? ==> Inv(c, r.value)
    decreases |trace|
  {
    hide Inv;
    if trace != [] {
      var r := Next(c, s, trace[0].0, trace[0].1);
      if r.Some? {
        StepInv(c, s, trace[0].0, trace[0].1);
        RunInv(c, r.value, trace[1..]);
      }
    }
  }

  // ----- what holds of every run -----

  ghost predicate Reachable(c: Config, s: State) {
    exists trace :: Run(c, Init(c), trace) == Some(s)
  }

  lemma ReachableInv(c: Config, s: State)
    requires NoAlias(c) && Reachable(c, s)
    ensures Inv(c, s)
  {
    hide Inv, Run;
    var trace :| Run(c, Init(c), trace) == Some(s);
    InitInv(c);
    RunInv(c, Init(c), trace);
  }

  // q is what following next from head visits, down to the null pointer.
  ghost predicate IsList(heap: map<nat, Node>, head: nat, q: seq<nat>)
    decreases |q|
  {
    if q == [] then head == 0
    else head == q[0] && head != 0 && head in heap && IsList(heap, heap[head].next, q[1..])
  }

  lemma {:induction false} LinkedIsList(heap: map<nat, Node>, q: seq<nat>)
    requires Linked(heap, q)
    ensures IsList(heap, Suf(q, |q|), q)
    decreases |q|
  {
    if q != [] {
      assert [q[0]] + q[1..] == q;
      var t := q[1..];
      forall i {:trigger t[i]} | 0 <= i < |t| ensures t[i] == q[i + 1] && Suf(t, |t| - 1 - i) == Suf(q, |t| - 1 - i) {
      }
      assert q[0] in heap && heap[q[0]].next == Suf(q, |q| - 1) == Suf(t, |t|);
      LinkedIsList(heap, t);
    }
  }

  // ----- whatever the stored id -----

  // The thread whose id is stored, truncated, plays the part of the one that was
  // named to pls_ctor.
  function Stored(c: Config): Config {
    c.(prim := PrimThread(c))
  }

  // No step reads extra.
  ghost predicate SameButExtra(s: State, s': State) {
    s' == s.(extra := s'.extra)
  }

  lemma Fields(s: State, s': State)
    requires SameButExtra(s, s')
    ensures s'.uRefs == s.uRefs && s'.lst == s.lst && s'.heap == s.heap && s'.list == s.list
    ensures s'.draining == s.draining && s'.threads == s.threads && s'.nextId == s.nextId
  {
  }

  lemma ToSame(s: State, s': State, t: nat, pc: PC)
    requires SameButExtra(s, s')
    ensures SameButExtra(To(s, t, pc), To(s', t, pc))
  {
  }

  lemma BackSame(s: State, s': State, t: nat, p: nat)
    requires SameButExtra(s, s')
    ensures SameButExtra(Back(s, t, p), Back(s', t, p))
  {
  }

  lemma FreeSame(s: State, s': State, p: nat)
    requires SameButExtra(s, s') && p in s.heap && p in s'.heap
    ensures SameButExtra(Free(s, p), Free(s', p))
  {
  }

  lemma HandSame(s: State, s': State, more: set<(Key, nat)>)
    requires SameButExtra(s, s')
    ensures SameButExtra(s.(handed := s.handed + more), s'.(handed := s'.handed + more))
  {
  }

  lemma FoundSame(s: State, s': State, t: nat, use: Use, w: nat)
    requires SameButExtra(s, s')
    ensures SameButExtra(Found(s, t, use, w), Found(s', t, use, w))
  {
    hide SameButExtra, To, Back, Free;
    Fields(s, s');
    match use {
      case Query(_) => BackSame(s, s', t, w);
      case First(key, _) =>
        HandSame(s, s', {(key, w)});
        BackSame(s.(handed := s.handed + {(key, w)}), s'.(handed := s'.handed + {(key, w)}), t, w);
      case Again(p, key, _, _) =>
        if p !in s.heap {
          ToSame(s, s', t, Crash);
        } else {
          FreeSame(s, s', p);
          var u, u' := Free(s, p), Free(s', p);
          FreeHanded(s, p);
          FreeHanded(s', p);
          HandSame(u, u', {(key, w)});
          BackSame(u.(handed := u.handed + {(key, w)}), u'.(handed := u'.handed + {(key, w)}), t, w);
        }
    }
  }

  lemma FreeHanded(s: State, p: nat)
    requires p in s.heap
    ensures Free(s, p).handed == s.handed
  {
  }

  lemma WalkSame(s: State, s': State, t: nat, use: Use, w: nat, rest: nat)
    requires SameButExtra(s, s')
    ensures SameButExtra(WalkStep(s, t, use, w, rest), WalkStep(s', t, use, w, rest))
  {
    hide SameButExtra, To, Back, Found;
    Fields(s, s');
    FoundSame(s, s', t, use, w);
    BackSame(s, s', t, 0);
    ToSame(s, s', t, Crash);
    match use {
      case Query(_) =>
      case First(key, dtor) => ToSame(s, s', t, Check(key, dtor, true));
      case Again(p, _, snap, _) => ToSame(s, s', t, Cas(p, true, snap));
    }
    if w in s.heap {
      ToSame(s, s', t, Walk(use, s.heap[w].next, if rest > 0 then rest - 1 else 0));
    }
  }

  lemma LoadSame(s: State, s': State, t: nat, p: nat, single: bool)
    requires SameButExtra(s, s')
    ensures SameButExtra(LoadStep(s, t, p, single), LoadStep(s', t, p, single))
  {
    hide SameButExtra, To;
    Fields(s, s');
    ToSame(s, s', t, Crash);
    if p in s.heap {
      var heap := s.heap[p := s.heap[p].(next := s.lst)];
      HeapSame(s, s', heap);
      MoveSame(s.(heap := heap), s'.(heap := heap), t);
    }
  }

  lemma HeapSame(s: State, s': State, heap: map<nat, Node>)
    requires SameButExtra(s, s')
    ensures SameButExtra(s.(heap := heap), s'.(heap := heap))
  {
  }

  lemma CasSame(s: State, s': State, t: nat, p: nat, single: bool)
    requires SameButExtra(s, s')
    ensures SameButExtra(CasStep(s, t, p, single), CasStep(s', t, p, single))
  {
    hide SameButExtra, To, Publish;
    Fields(s, s');
    ToSame(s, s', t, Crash);
    ToSame(s, s', t, Load(p, single));
    if p in s.heap {
      PublishSame(s, s', t, p, single);
    }
  }

  lemma PublishSame(s: State, s': State, t: nat, p: nat, single: bool)
    requires SameButExtra(s, s') && p in s.heap && p in s'.heap
    ensures SameButExtra(Publish(s, t, p, single), Publish(s', t, p, single))
  {
  }

  lemma DeSubSame(s: State, s': State, t: nat)
    requires SameButExtra(s, s')
    ensures SameButExtra(DeSubStep(s, t), DeSubStep(s', t))
  {
    hide SameButExtra, To;
    Fields(s, s');
    var u, u' := s.(uRefs := if s.uRefs == 0 then UINT_MAX else s.uRefs - 1),
                 s'.(uRefs := if s'.uRefs == 0 then UINT_MAX else s'.uRefs - 1);
    CountSame(s, s', u.uRefs, s.extra, s'.extra);
    if s.uRefs == 1 {
      PhaseSame(u, u', Emptying(t));
      ToSame(u.(phase := Emptying(t)), u'.(phase := Emptying(t)), t, DeXchg);
    } else {
      ToSame(u, u', t, Done);
    }
  }

  lemma CountSame(s: State, s': State, uRefs: nat, extra: bool, extra': bool)
    requires SameButExtra(s, s')
    ensures SameButExtra(s.(uRefs := uRefs), s'.(uRefs := uRefs))
    ensures SameButExtra(s.(uRefs := uRefs, extra := extra), s'.(uRefs := uRefs, extra := extra'))
  {
  }

  lemma PhaseSame(s: State, s': State, phase: Phase)
    requires SameButExtra(s, s')
    ensures SameButExtra(s.(phase := phase), s'.(phase := phase))
  {
  }

  lemma XchgSame(s: State, s': State)
    requires SameButExtra(s, s')
    ensures SameButExtra(s.(lst := 0, draining := s.list, list := []), s'.(lst := 0, draining := s'.list, list := []))
  {
  }

  lemma MoveSame(s: State, s': State, t: nat)
    requires SameButExtra(s, s')
    ensures forall pc :: SameButExtra(To(s, t, pc), To(s', t, pc))
  {
    hide SameButExtra, To;
    forall pc ensures SameButExtra(To(s, t, pc), To(s', t, pc)) {
      ToSame(s, s', t, pc);
    }
  }

  lemma DrainSame(s: State, s': State, t: nat, w: nat)
    requires SameButExtra(s, s')
    ensures SameButExtra(DrainStep(s, t, w), DrainStep(s', t, w))
  {
    hide Free;
    if w in s.heap {
      FreeSame(s, s', w);
      FreeDrain(s, w);
      FreeDrain(s', w);
    }
  }

  lemma FreeDrain(s: State, p: nat)
    requires p in s.heap
    ensures Free(s, p).drained == s.drained && Free(s, p).draining == s.draining && Free(s, p).threads == s.threads
  {
  }

  lemma GoStored(c: Config, s: State, s': State, t: nat, pc: PC)
    requires SameButExtra(s, s')
    ensures var r, r' := Go1(c, s, t, pc), Go1(Stored(c), s', t, pc);
            if r.None? then r'.None? else r'.Some? && SameButExtra(r.value, r'.value)
  {
    hide SameButExtra, To, WalkStep, LoadStep, CasStep, DeSubStep, DrainStep, PrimThread, Stored;
    StoredTwice(c);
    Fields(s, s');
    MoveSame(s, s', t);
    match pc {
      case InitCas(cur) =>
        var extra, extra' := s.extra || t == c.prim, s'.extra || t == Stored(c).prim;
        CountSame(s, s', cur + 1, extra, extra');
        ToSame(s.(uRefs := cur + 1, extra := extra), s'.(uRefs := cur + 1, extra := extra'), t, Live);
      case Walk(use, w, rest) => WalkSame(s, s', t, use, w, rest);
      case Load(p, single) => LoadSame(s, s', t, p, single);
      case Cas(p, single, _) => CasSame(s, s', t, p, single);
      case DeSub => DeSubSame(s, s', t);
      case DeXchg =>
        XchgSame(s, s');
        MoveSame(s.(lst := 0, draining := s.list, list := []), s'.(lst := 0, draining := s'.list, list := []), t);
      case Drain(w) => DrainSame(s, s', t, w);
      case _ =>
    }
  }

  lemma StoredTwice(c: Config)
    ensures PrimThread(Stored(c)) == PrimThread(c)
  {
  }

  lemma NextStored(c: Config, s: State, s': State, t: nat, a: Action)
    requires SameButExtra(s, s')
    ensures var r, r' := Next(c, s, t, a), Next(Stored(c), s', t, a);
            if r.None? then r'.None? else r'.Some? && SameButExtra(r.value, r'.value)
  {
    hide Go1, BeginOp;
    if t in s.threads {
      GoStored(c, s, s', t, s.threads[t]);
    }
  }

  lemma {:induction false} RunStored(c: Config, s: State, s': State, trace: seq<(nat, Action)>)
    requires SameButExtra(s, s')
    ensures var r, r' := Run(c, s, trace), Run(Stored(c), s', trace);
            if r.None? then r'.None? else r'.Some? && SameButExtra(r.value, r'.value)
    decreases |trace|
  {
    hide Next, SameButExtra;
    if trace != [] {
      NextStored(c, s, s', trace[0].0, trace[0].1);
      var r := Next(c, s, trace[0].0, trace[0].1);
      if r.Some? {
        RunStored(c, r.value, Next(Stored(c), s', trace[0].0, trace[0].1).value, trace[1..]);
      }
    }
  }

  // So every run is, but for extra, one without a colliding id.
  lemma Unaliased(c: Config, s: State) returns (c': Config, s': State)
    requires c.prim in c.tids && Reachable(c, s)
    ensures NoAlias(c') && Reachable(c', s') && SameButExtra(s, s') && c' == c.(prim := c'.prim)
    ensures if c' == c then s' == s else c' == Stored(c)
  {
    if NoAlias(c) {
      c', s' := c, s;
    } else {
      hide Run;
      c' := Stored(c);
      var trace :| Run(c, Init(c), trace) == Some(s);
      RunStored(c, Init(c), Init(c'), trace);
      s' := Run(c', Init(c'), trace).value;
      assert Run(c', Init(c'), trace) == Some(s');
    }
  }

  // In every interleaving: the list never holds two blocks for a key that is
  // only added as a singleton, and all callers get the same data pointer.
  lemma SingletonTheorem(c: Config, s: State)
    requires c.prim in c.tids && Reachable(c, s)
    ensures IsList(s.heap, s.lst, s.list)
    ensures forall i, j :: 0 <= i < j < |s.list| ==>
              s.list[i] in s.heap && s.list[j] in s.heap
              && (s.heap[s.list[i]].key == s.heap[s.list[j]].key ==> s.heap[s.list[i]].key in c.plain)
    ensures forall k, p, q :: (k, p) in s.handed && (k, q) in s.handed && k !in c.plain ==> p == q
  {
    hide Reachable, NoAlias, Stored;
    var c', s' := Unaliased(c, s);
    ReachableInv(c', s');
    LinkedIsList(s'.heap, s'.list);
    hide IsList, HeapInv, IdInv, ThreadsInv, RefInv, OrderInv;
    assert forall i :: 0 <= i < |s.list| ==> s.list[i] in s.heap;
  }

  // No thread ever reads or frees a block that has been freed.
  lemma NoUseAfterFree(c: Config, s: State, t: nat)
    requires c.prim in c.tids && Reachable(c, s) && t in s.threads
    ensures !s.threads[t].Crash?
  {
    hide Reachable, NoAlias, Stored;
    var c', s' := Unaliased(c, s);
    ReachableInv(c', s');
    CheckOk(c', ViewOf(s'), s'.threads, t);
  }

  // Once the count is zero it stays zero.
  lemma ZeroStays(c: Config, s: State, trace: seq<(nat, Action)>)
    requires c.prim in c.tids && Reachable(c, s) && s.uRefs == 0
    ensures var r := Run(c, s, trace); r.Some? ==> r.value.uRefs == 0
  {
    hide Reachable, NoAlias, Stored, Run, Inv;
    var c', s' := Unaliased(c, s);
    ReachableInv(c', s');
    ZeroRun(c', s', trace);
    if c' != c {
      RunStored(c, s, s', trace);
    }
  }

  lemma {:induction false} ZeroRun(c: Config, s: State, trace: seq<(nat, Action)>)
    requires NoAlias(c) && Inv(c, s) && s.uRefs == 0
    ensures var r := Run(c, s, trace); r.Some? ==> r.value.uRefs == 0
    decreases |trace|
  {
    hide Inv, Next;
    if trace != [] {
      var r := Next(c, s, trace[0].0, trace[0].1);
      if r.Some? {
        ZeroStep(c, s, trace[0].0, trace[0].1);
        StepInv(c, s, trace[0].0, trace[0].1);
        ZeroRun(c, r.value, trace[1..]);
      }
    }
  }

  lemma WalkRefs(s: State, t: nat, use: Use, w: nat, rest: nat)
    ensures WalkStep(s, t, use, w, rest).uRefs == s.uRefs
  {
    hide Found;
    FoundRefs(s, t, use, w);
  }

  lemma FoundRefs(s: State, t: nat, use: Use, w: nat)
    ensures Found(s, t, use, w).uRefs == s.uRefs
  {
    hide Free;
    match use {
      case Again(p, _, _, _) =>
        if p in s.heap {
          FreeRefs(s, p);
        }
      case _ =>
    }
  }

  lemma FreeRefs(s: State, p: nat)
    requires p in s.heap
    ensures Free(s, p).uRefs == s.uRefs
  {
  }

  lemma LoadRefs(s: State, t: nat, p: nat, single: bool)
    ensures LoadStep(s, t, p, single).uRefs == s.uRefs && CasStep(s, t, p, single).uRefs == s.uRefs
  {
  }

  lemma DrainRefs(s: State, t: nat, w: nat)
    ensures DrainStep(s, t, w).uRefs == s.uRefs
  {
    hide Free;
    if w in s.heap {
      FreeRefs(s, w);
    }
  }

  lemma ZeroStep(c: Config, s: State, t: nat, a: Action)
    requires Inv(c, s) && s.uRefs == 0
    ensures var r := Next(c, s, t, a); r.Some? ==> r.value.uRefs == 0
  {
    if t in s.threads {
      if Holds(c, t, s.threads[t]) {
        HolderRuns(c, s, t);
      }
      hide ListInv, HeapInv, IdInv, ThreadsInv, KeyInv, OrderInv, Holders;
      assert !s.threads[t].DeSub?;
      assert s.threads[t].InitCas? ==> s.threads[t].cur > 0;
      hide Inv, RefInv, WalkStep, LoadStep, CasStep, DrainStep;
      match s.threads[t] {
        case Walk(use, w, rest) => WalkRefs(s, t, use, w, rest);
        case Load(p, single) => LoadRefs(s, t, p, single);
        case Cas(p, single, _) => LoadRefs(s, t, p, single);
        case Drain(w) => DrainRefs(s, t, w);
        case _ =>
      }
    }
  }

  // A thread is refused only when the count has come down to zero, and one that
  // is let in finds it above zero until it leaves.
  lemma LetIn(c: Config, s: State, t: nat)
    requires c.prim in c.tids && Reachable(c, s) && t in s.threads
    ensures s.threads[t].Refused? ==> s.uRefs == 0
    ensures s.threads[t].Live? ==> s.uRefs > 0
  {
    hide Reachable, NoAlias, Stored;
    var c', s' := Unaliased(c, s);
    ReachableInv(c', s');
    if s.threads[t].Live? {
      HolderRuns(c', s', t);
    }
    hide ListInv, HeapInv, IdInv, ThreadsInv, KeyInv, OrderInv, Holders;
  }

  // ----- when the uint32_t field is wide enough -----

  ghost predicate NoEarlyDrain(c: Config, s: State) {
    s.phase.Running? || forall t :: t in s.threads ==> !Holds(c, t, s.threads[t])
  }

  lemma {:induction false} RunSnoc(c: Config, s: State, trace: seq<(nat, Action)>, m: (nat, Action))
    ensures Run(c, s, trace + [m]) ==
            match Run(c, s, trace) { case None => None case Some(s') => Next(c, s', m.0, m.1) }
    decreases |trace|
  {
    hide Next;
    if trace == [] {
      assert trace + [m] == [m];
    } else {
      assert (trace + [m])[0] == trace[0] && (trace + [m])[1..] == trace[1..] + [m];
      var r := Next(c, s, trace[0].0, trace[0].1);
      if r.Some? {
        RunSnoc(c, r.value, trace[1..], m);
      }
    }
  }

  lemma ReachInit(c: Config)
    ensures Reachable(c, Init(c))
  {
    assert Run(c, Init(c), []) == Some(Init(c));
  }

  lemma ReachStep(c: Config, s: State, t: nat, a: Action, s': State)
    requires Reachable(c, s) && Next(c, s, t, a) == Some(s')
    ensures Reachable(c, s')
  {
    hide Next, Run;
    var trace :| Run(c, Init(c), trace) == Some(s);
    RunSnoc(c, Init(c), trace, (t, a));
    assert Run(c, Init(c), trace + [(t, a)]) == Some(s');
  }

  // A thread whose id equals the truncated one is taken for the thread named
  // to pls_ctor: its init takes no reference, its deinit drops the other's.
  lemma AliasRun(c: Config, t: nat)
    requires c.prim in c.tids && t in c.tids && t == PrimThread(c) && t != c.prim
    ensures exists s :: Reachable(c, s) && !NoEarlyDrain(c, s)
  {
    var s0 := Init(c);
    var s1 := To(s0, t, Live);
    var s2 := To(s1, t, DeTest);
    var s3 := To(s2, t, DeSub);
    var s4 := DeSubStep(s3, t);
    assert Next(c, s0, t, Go) == Some(s1) && Next(c, s1, t, Begin(Deinit)) == Some(s2);
    assert Next(c, s2, t, Go) == Some(s3) && Next(c, s3, t, Go) == Some(s4);
    hide Next, PrimThread, Reachable;
    ReachInit(c);
    ReachStep(c, s0, t, Go, s1);
    ReachStep(c, s1, t, Begin(Deinit), s2);
    ReachStep(c, s2, t, Go, s3);
    ReachStep(c, s3, t, Go, s4);
    assert c.prim in s4.threads && s4.threads[c.prim] == Fresh && Holds(c, c.prim, Fresh);
    assert Reachable(c, s4) && !NoEarlyDrain(c, s4);
  }

  // The list is drained only after the last reference is gone, in every run,
  // exactly when no other thread id collides with the stored one.
  lemma NoEarlyDrainIff(c: Config)
    requires c.prim in c.tids
    ensures NoAlias(c) <==> forall s :: Reachable(c, s) ==> NoEarlyDrain(c, s)
  {
    hide Reachable, Inv;
    if NoAlias(c) {
      forall s | Reachable(c, s) ensures NoEarlyDrain(c, s) {
        ReachableInv(c, s);
        forall t | t in s.threads && Holds(c, t, s.threads[t]) ensures s.phase.Running? {
          HolderRuns(c, s, t);
        }
      }
    } else {
      var t :| t in c.tids && t == PrimThread(c) && t != c.prim;
      AliasRun(c, t);
    }
  }

  // ----- balanced runs -----

  // Every thread that was let in has left; the thread named to pls_ctor has.
  ghost predicate Finished(c: Config, s: State) {
    forall t {:trigger s.threads[t]} :: t in s.threads ==>
      s.threads[t].Done? || s.threads[t].Refused? || (s.threads[t].Fresh? && t != c.prim)
  }

  // Every block that was constructed is freed, and destroyed if it has a
  // destructor, exactly once; the drain went through the list in reverse order
  // of insertion.
  ghost predicate AllDestroyed(s: State) {
    && s.phase.Drained? && s.heap == map[] && s.lst == 0
    && (forall id: nat :: id < s.nextId <==> id in s.freed) && Distinct(s.freed)
    && (forall id: nat :: id in s.dtors <==> id < s.nextId && id in s.kind && s.kind[id]) && Distinct(s.dtors)
    && |s.drained| == |s.pushed|
    && forall i :: 0 <= i < |s.drained| ==> s.drained[i] == s.pushed[|s.pushed| - 1 - i]
  }

  // The thread named to pls_ctor never takes a second reference.
  ghost predicate PrimOnce(c: Config, s: State) {
    !s.extra && (c.prim in s.threads ==> !s.threads[c.prim].InitLoad? && !s.threads[c.prim].InitCas?)
  }

  // Past init, a step moves its own thread only and never back to init.
  ghost predicate Ahead(s: State, s': State, t: nat, u: nat) {
    && s'.extra == s.extra && t in s'.threads && !Starting(s'.threads[t])
    && (u != t && u in s'.threads ==> u in s.threads && s'.threads[u] == s.threads[u])
  }

  lemma WalkAhead(s: State, t: nat, use: Use, w: nat, rest: nat, u: nat)
    ensures Ahead(s, WalkStep(s, t, use, w, rest), t, u)
  {
    hide Free, Found, NotFound;
    FoundAhead(s, t, use, w, u);
    NotFoundAhead(s, t, use, u);
  }

  lemma FoundAhead(s: State, t: nat, use: Use, w: nat, u: nat)
    ensures Ahead(s, Found(s, t, use, w), t, u)
  {
  }

  lemma NotFoundAhead(s: State, t: nat, use: Use, u: nat)
    ensures Ahead(s, NotFound(s, t, use), t, u)
  {
  }

  lemma LoadAhead(s: State, t: nat, p: nat, single: bool, u: nat)
    ensures Ahead(s, LoadStep(s, t, p, single), t, u)
  {
    hide Ahead, To;
    ToAhead(s, t, Crash, u);
    if p in s.heap {
      var heap := s.heap[p := s.heap[p].(next := s.lst)];
      HeapAhead(s, heap, t, WalkHead(Again(p, s.heap[p].key, |s.list|, 0)), u);
      HeapAhead(s, heap, t, Cas(p, false, |s.list|), u);
    }
  }

  lemma HeapAhead(s: State, heap: map<nat, Node>, t: nat, pc: PC, u: nat)
    requires !Starting(pc)
    ensures Ahead(s, To(s.(heap := heap), t, pc), t, u)
  {
  }

  lemma CasAhead(s: State, t: nat, p: nat, single: bool, u: nat)
    ensures Ahead(s, CasStep(s, t, p, single), t, u)
  {
    hide Publish, Ahead;
    ToAhead(s, t, Crash, u);
    ToAhead(s, t, Load(p, single), u);
    if p in s.heap {
      PublishAhead(s, t, p, single, u);
    }
  }

  lemma ToAhead(s: State, t: nat, pc: PC, u: nat)
    requires !Starting(pc)
    ensures Ahead(s, To(s, t, pc), t, u)
  {
  }

  lemma PublishAhead(s: State, t: nat, p: nat, single: bool, u: nat)
    requires p in s.heap
    ensures Ahead(s, Publish(s, t, p, single), t, u)
  {
  }

  lemma DeSubAhead(s: State, t: nat, u: nat)
    ensures Ahead(s, DeSubStep(s, t), t, u)
  {
    hide Ahead, To;
    var s' := s.(uRefs := if s.uRefs == 0 then UINT_MAX else s.uRefs - 1);
    SubAhead(s, s'.uRefs, s.phase, t, Done, u);
    SubAhead(s, s'.uRefs, Emptying(t), t, DeXchg, u);
    assert s'.(phase := s.phase) == s';
  }

  lemma SubAhead(s: State, uRefs: nat, phase: Phase, t: nat, pc: PC, u: nat)
    requires !Starting(pc)
    ensures Ahead(s, To(s.(uRefs := uRefs).(phase := phase), t, pc), t, u)
  {
  }

  lemma DrainAhead(s: State, t: nat, w: nat, u: nat)
    ensures Ahead(s, DrainStep(s, t, w), t, u)
  {
    hide Ahead, To, Free;
    ToAhead(s, t, Crash, u);
    SubAhead(s, s.uRefs, Drained, t, Done, u);
    assert s.(uRefs := s.uRefs) == s;
    if w in s.heap {
      FreeAhead(s, t, w, u);
    }
  }

  lemma FreeAhead(s: State, t: nat, w: nat, u: nat)
    requires w in s.heap
    ensures var s' := Free(s, w);
            Ahead(s, To(s'.(drained := s.drained + [s.heap[w].id],
                            draining := if s.draining == [] then [] else s.draining[1..]),
                        t, Drain(s.heap[w].next)), t, u)
  {
  }

  lemma BackAhead(s: State, t: nat, p: nat, u: nat)
    ensures Ahead(s, Back(s, t, p), t, u)
  {
  }

  lemma PrimStep(c: Config, s: State, t: nat, a: Action)
    requires c.prim <= UINT_MAX && PrimOnce(c, s)
    ensures var r := Next(c, s, t, a); r.Some? ==> PrimOnce(c, r.value)
  {
    hide WalkStep, LoadStep, CasStep, DeSubStep, DrainStep, Back;
    assert PrimThread(c) == c.prim;
    BackAhead(s, t, 0, c.prim);
    if t in s.threads {
      match s.threads[t] {
        case Walk(use, w, rest) => WalkAhead(s, t, use, w, rest, c.prim);
        case Load(p, single) => LoadAhead(s, t, p, single, c.prim);
        case Cas(p, single, _) => CasAhead(s, t, p, single, c.prim);
        case DeSub => DeSubAhead(s, t, c.prim);
        case Drain(w) => DrainAhead(s, t, w, c.prim);
        case _ =>
      }
    }
  }

  lemma {:induction false} PrimRun(c: Config, s: State, trace: seq<(nat, Action)>)
    requires c.prim <= UINT_MAX && PrimOnce(c, s)
    ensures var r := Run(c, s, trace); r.Some? ==> PrimOnce(c, r.value)
    decreases |trace|
  {
    hide PrimOnce, Next;
    if trace != [] {
      var r := Next(c, s, trace[0].0, trace[0].1);
      if r.Some? {
        PrimStep(c, s, trace[0].0, trace[0].1);
        PrimRun(c, r.value, trace[1..]);
      }
    }
  }

  lemma FinishedDrained(c: Config, s: State)
    requires Inv(c, s) && Finished(c, s) && !s.extra
    ensures s.phase.Drained?
  {
    hide ListInv, HeapInv, IdInv, KeyInv, OrderInv;
    assert Holders(c, s.threads) == {};
  }

  lemma DrainedAll(c: Config, s: State)
    requires Inv(c, s) && Finished(c, s) && s.phase.Drained?
    ensures AllDestroyed(s)
  {
    hide RefInv, KeyInv, ThreadsInv;
    HeapEmpty(c, s);
    LiveEmpty(s);
  }

  lemma HeapEmpty(c: Config, s: State)
    requires HeapInv(s.heap, s.list, s.draining, s.threads) && Finished(c, s) && s.list == [] && s.draining == []
    ensures s.heap == map[]
  {
    assert forall u :: u in s.threads ==> PrivateOf(s.threads[u]) == 0;
    forall p ensures p !in s.heap {
    }
  }

  lemma LiveEmpty(s: State)
    requires IdInv(s.heap, s.nextId, s.kind, s.live, s.freed, s.dtors) && s.heap == map[]
    ensures forall id: nat :: id < s.nextId <==> id in s.freed
    ensures forall id: nat :: id in s.dtors <==> id < s.nextId && id in s.kind && s.kind[id]
  {
    forall id: nat | id < s.nextId ensures id in s.freed {
      assert id !in s.live;
    }
  }

  // The thread named to pls_ctor, its id too wide for the field: init gives it
  // a second reference, so its one deinit leaves the count at one.
  lemma LeakRun(c: Config, key: Key)
    requires c.prim in c.tids && c.prim > UINT_MAX
    ensures exists s :: Reachable(c, s) && Finished(c, s) && 1 in s.heap && 0 !in s.freed
  {
    var t := c.prim;
    ReachInit(c);
    var s3 := LeakInit(c);
    var s6 := LeakLookup(c, s3, key);
    var s7 := LeakPush(c, s6, key);
    LeakLeave(c, s7);
  }

  ghost predicate Idle(c: Config, s: State) {
    s.threads.Keys == c.tids && forall u {:trigger s.threads[u]} :: u in c.tids && u != c.prim ==> s.threads[u] == Fresh
  }

  lemma LeakInit(c: Config) returns (s: State)
    requires c.prim in c.tids && c.prim > UINT_MAX
    ensures Reachable(c, s) && Idle(c, s) && s.threads[c.prim] == Live && s.uRefs == 2
    ensures s.heap == map[] && s.lst == 0 && s.freed == [] && s.nextId == 0
  {
    hide Reachable, Run;
    var t, s0 := c.prim, Init(c);
    var s1, s2 := To(s0, t, InitLoad), To(s0, t, InitCas(1));
    s := To(s0.(uRefs := 2, extra := true), t, Live);
    ReachInit(c);
    ReachStep(c, s0, t, Go, s1);
    assert To(s1, t, InitCas(1)) == s2 && To(s2.(uRefs := 2, extra := true), t, Live) == s;
    ReachStep(c, s1, t, Go, s2);
    ReachStep(c, s2, t, Go, s);
  }

  lemma LeakLookup(c: Config, s0: State, key: Key) returns (s: State)
    requires Reachable(c, s0) && Idle(c, s0) && c.prim in c.tids && s0.threads[c.prim] == Live && s0.uRefs == 2
    requires s0.heap == map[] && s0.lst == 0 && s0.freed == [] && s0.nextId == 0
    ensures Reachable(c, s) && Idle(c, s) && s.threads[c.prim] == Load(1, true) && s.uRefs == 2
    ensures s.heap == map[1 := Node(0, key, true, 0, Private(c.prim))] && s.lst == 0 && s.freed == []
  {
    hide Reachable, Run, Found, LoadStep, CasStep, DrainStep, DeSubStep;
    var t := c.prim;
    var s1 := To(s0, t, WalkHead(First(key, true)));
    var s2 := To(s1, t, Walk(First(key, true), 0, |s0.list|));
    var s3 := To(s2, t, Check(key, true, true));
    ReachStep(c, s0, t, Begin(Singleton(key, true)), s1);
    ReachStep(c, s1, t, Go, s2);
    ReachStep(c, s2, t, Go, s3);
    hide WalkStep, NotFound, BeginOp;
    s := Next(c, s3, t, Allocate(1)).value;
    ReachStep(c, s3, t, Allocate(1), s);
  }

  lemma LeakPush(c: Config, s0: State, key: Key) returns (s: State)
    requires Reachable(c, s0) && Idle(c, s0) && c.prim in c.tids && s0.threads[c.prim] == Load(1, true) && s0.uRefs == 2
    requires s0.heap == map[1 := Node(0, key, true, 0, Private(c.prim))] && s0.lst == 0 && s0.freed == []
    ensures Reachable(c, s) && Idle(c, s) && s.threads[c.prim] == Live && s.uRefs == 2
    ensures 1 in s.heap && s.freed == []
  {
    hide Reachable, Run;
    var t := c.prim;
    var s1 := LoadStep(s0, t, 1, true);
    ReachStep(c, s0, t, Go, s1);
    var use := s1.threads[t].use.(seen := |s1.list|);
    var s2 := To(s1, t, Walk(use, 0, |s1.list|));
    ReachStep(c, s1, t, Go, s2);
    var s3 := To(s2, t, Cas(1, true, use.snap));
    ReachStep(c, s2, t, Go, s3);
    s := Publish(s3, t, 1, true);
    ReachStep(c, s3, t, Go, s);
  }

  lemma LeakLeave(c: Config, s0: State)
    requires Reachable(c, s0) && Idle(c, s0) && c.prim in c.tids && s0.threads[c.prim] == Live && s0.uRefs == 2
    requires 1 in s0.heap && s0.freed == []
    ensures exists s :: Reachable(c, s) && Finished(c, s) && 1 in s.heap && 0 !in s.freed
  {
    hide Reachable, Run;
    var t := c.prim;
    var s1 := To(s0, t, DeTest);
    var s2 := To(s1, t, DeSub);
    var s := DeSubStep(s2, t);
    ReachStep(c, s0, t, Begin(Deinit), s1);
    ReachStep(c, s1, t, Go, s2);
    ReachStep(c, s2, t, Go, s);
    assert Reachable(c, s) && Finished(c, s) && 1 in s.heap && 0 !in s.freed;
  }

  // Every balanced run destroys every block exactly once, in reverse order of
  // insertion, exactly when the id given to pls_ctor fits the field.
  lemma AllDestroyedIff(c: Config)
    requires c.prim in c.tids
    ensures c.prim <= UINT_MAX <==> forall s :: Reachable(c, s) && Finished(c, s) ==> AllDestroyed(s)
  {
    if c.prim <= UINT_MAX {
      forall s | Reachable(c, s) && Finished(c, s) ensures AllDestroyed(s) {
        FinishedDestroyed(c, s);
      }
    } else {
      LeakRun(c, Key(0, 0));
      hide Reachable, Finished;
      var s :| Reachable(c, s) && Finished(c, s) && 1 in s.heap && 0 !in s.freed;
      assert !AllDestroyed(s);
    }
  }

  lemma FinishedDestroyed(c: Config, s: State)
    requires c.prim in c.tids && c.prim <= UINT_MAX && Reachable(c, s) && Finished(c, s)
    ensures AllDestroyed(s)
  {
    ReachableInv(c, s);
    var trace :| Run(c, Init(c), trace) == Some(s);
    hide Inv, Finished, Next, AllDestroyed;
    PrimRun(c, Init(c), trace);
    FinishedDrained(c, s);
    DrainedAll(c, s);
  }
}
