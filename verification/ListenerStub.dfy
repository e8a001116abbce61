// Model of src/adsp_listener_stub.c: the allocator and the marshalling of
// adsp_listener_next_invoke.
module ListenerStubs {
  import opened RemoteScalars
  import opened Sbufs
  import opened Bits
  import opened Ints

  const AEE_EUNSUPPORTED := 0x14

  // ----- memory -----

  // A block of the heap, seen as words or as arguments, behind its header.
  class Block {
    var pPrev: Block?
    const words: array<u32>
    const args: array<Arg>

    constructor (pPrev: Block?, size: nat)
      ensures fresh(words) && fresh(args) && this.pPrev == pPrev
      ensures words.Length == size / 4 && args.Length == size / 16
    {
      this.pPrev := pPrev;
      words := new u32[size / 4];
      args := new Arg[size / 16](_ => Arg(Null, 0));
    }
  }

  datatype Ptr = Null | PrimIn | PrimROut | Caller(address: nat) | Stack(at: int) | Heap(block: Block)

  predicate Taken(pv: Ptr, size: nat) {
    pv.Heap? && pv.block.words.Length == size / 4 && pv.block.args.Length == size / 16
  }

  datatype Arg = Arg(pv: Ptr, nLen: nat)

  // malloc and free: works says which calls to malloc find memory.
  class Memory {
    const works: nat -> bool
    var calls: nat
    ghost var live: set<Block>

    constructor (works: nat -> bool)
      ensures live == {} && calls == 0 && this.works == works
    {
      this.works := works;
      calls, live := 0, {};
    }

    method Malloc(pPrev: Block?, size: nat) returns (b: Block?)
      modifies this
      ensures b != null <==> works(old(calls))
      ensures b == null ==> live == old(live)
      ensures b != null ==> live == old(live) + {b} && fresh(b) && fresh(b.words) && fresh(b.args)
      ensures b != null ==> b.pPrev == pPrev && b.words.Length == size / 4 && b.args.Length == size / 16
    {
      b := null;
      if works(calls) {
        b := new Block(pPrev, size);
        live := live + {b};
      }
      calls := calls + 1;
    }

    // A block can be freed once.
    method Free(b: Block)
      requires b in live
      modifies `live
      ensures live == old(live) - {b}
    {
      live := live - {b};
    }
  }

  // ----- the allocator -----

  function At(chain: seq<Block>, i: nat): Block? {
    if i < |chain| then chain[i] else null
  }

  class Allocator {
    var pheap: Block?
    var stack: nat
    var stackEnd: nat
    var nSize: nat
    ghost var chain: seq<Block>

    ghost predicate Linked()
      reads this, chain
    {
      && pheap == At(chain, 0)
      && (forall i :: 0 <= i < |chain| ==>
            chain[i].pPrev == At(chain, i + 1))
      && (forall i, j :: 0 <= i < j < |chain| ==> chain[i] != chain[j])
    }

    // The blocks of the list are exactly those taken since base.
    ghost predicate Owns(mem: Memory, base: set<Block>)
      reads this, chain, mem
    {
      Linked() && mem.live == base + (set b | b in chain) && forall b :: b in chain ==> b !in base
    }

    // _allocator_init
    constructor (stack: nat, stackSize: nat, ghost mem: Memory)
      ensures Owns(mem, mem.live) && chain == []
      ensures this.stack == stack && nSize == stackSize && stackEnd == stack + stackSize
    {
      this.stack := stack;
      stackEnd := stack + stackSize;
      nSize := stackSize;
      pheap := null;
      chain := [];
    }

    // _allocator_alloc, _heap_alloc
    method Alloc(mem: Memory, size: int, log2: nat, ghost base: set<Block>) returns (nErr: int, pv: Ptr)
      requires Owns(mem, base)
      modifies mem, this
      ensures Owns(mem, base) && stack == old(stack) && nSize == old(nSize)
      ensures size < 0 ==> nErr == -1 && mem.live == old(mem.live) && stackEnd == old(stackEnd)
      ensures size == 0 ==> nErr == 0 && pv == Null && mem.live == old(mem.live) && stackEnd == old(stackEnd)
      ensures size > 0 ==>
                var fits := AlignUp(old(stackEnd), log2) + size < stack + nSize;
                && stackEnd == (if fits then AlignUp(old(stackEnd), log2) + size else old(stackEnd))
                && nErr == (if fits || mem.works(old(mem.calls)) then 0 else -1)
                && (fits ==> pv == Stack(AlignUp(old(stackEnd), log2)))
                && (!fits && nErr == 0 ==> Taken(pv, size) && fresh(pv.block)
                                           && fresh(pv.block.words) && fresh(pv.block.args))
    {
      nErr, pv := 0, Null;
      if size < 0 {
        nErr := -1;
      } else if size > 0 {
        AlignUpAtLeast(stackEnd, log2);
        var at := AlignUp(stackEnd, log2);
        if at + size < stack + nSize {
          pv := Stack(at);
          stackEnd := at + size;
        } else {
          var pn := mem.Malloc(pheap, size);
          if pn != null {
            pheap := pn;
            ghost var was := chain;
            chain := [pn] + was;
            forall i | 0 <= i < |chain|
              ensures chain[i].pPrev == At(chain, i + 1)
            {
              if i > 0 {
                assert chain[i] == was[i - 1];
              }
            }
            pv := Heap(pn);
          } else {
            nErr := -1;
          }
        }
      }
    }

    // _allocator_deinit
    method Deinit(mem: Memory, ghost base: set<Block>)
      requires Owns(mem, base)
      modifies mem`live
      ensures mem.live == base
    {
      var pa := pheap;
      ghost var k := 0;
      while pa != null
        invariant 0 <= k <= |chain| && Linked()
        invariant pa == At(chain, k)
        invariant mem.live == base + (set b | b in chain[k..])
        decreases |chain| - k
      {
        var pn := pa;
        pa := pn.pPrev;
        mem.Free(pn);
        k := k + 1;
      }
    }
  }

  lemma AlignUpAtLeast(x: nat, log2: nat)
    ensures AlignUp(x, log2) >= x
  {
    AndMask(x + Pow2(log2) - 1, log2);
    var m: int := Pow2(log2);
    assert (x + m - 1) % m < m;
  }

  // ----- one call -----

  // adsp_listener_buffer
  datatype Buffer = Buffer(data: nat, dataLen: u32)

  // The arguments of _stub_method: in2 and rout6 are the buffers its loops
  // visit, the rest are words, addresses and lengths as passed.
  datatype Call = Call(
    in0: u32, in1: u32, in2: seq<Buffer>, in2Len: u32,
    rout6: seq<Buffer>, rout6Len: u32, rout7: nat, rout7Len: u32, rout8: nat, rout8Len: u32)

  // The loops run to (int)len; their counters are ints.
  predicate Visits(bufs: seq<Buffer>, len: u32) {
    |bufs| == (if ToInt32(len) < 0 then 0 else ToInt32(len)) && |bufs| + 2 < 0x8000_0000
  }

  predicate Supplied(c: Call) {
    Visits(c.in2, c.in2Len) && Visits(c.rout6, c.rout6Len)
  }

  predicate Supported(c: Call) {
    |c.in2| + 2 < 255 && |c.rout6| + 2 < 255
  }

  // A product of unsigned words.
  function Times4(len: u32): u32 {
    ToUint32(4 * len)
  }

  // What remote_handle_invoke is given: the scalar word, the argument array,
  // and the words behind its first, second and third private input.
  datatype Sent = Sent(sc: bv32, args: seq<Arg>, primIn: seq<u32>, lens2: seq<u32>, lens6: seq<u32>)

  // What it gives back: its result and the three output words.
  datatype Reply = Reply(nErr: int, rout3: u32, rout4: u32, rout5: u32)

  function Lens(bufs: seq<Buffer>): seq<u32> {
    seq(|bufs|, i requires 0 <= i < |bufs| => bufs[i].dataLen)
  }

  function Args(bufs: seq<Buffer>): seq<Arg> {
    seq(|bufs|, i requires 0 <= i < |bufs| => Arg(Caller(bufs[i].data), bufs[i].dataLen))
  }

  function Inputs(c: Call, p2: Ptr, p6: Ptr): seq<Arg> {
    [Arg(PrimIn, 24), Arg(p2, Times4(c.in2Len))] + Args(c.in2) + [Arg(p6, Times4(c.rout6Len))]
  }

  function Outputs(c: Call): seq<Arg> {
    [Arg(PrimROut, 12)] + Args(c.rout6)
    + [Arg(Caller(c.rout7), Times4(c.rout7Len)), Arg(Caller(c.rout8), Times4(c.rout8Len))]
  }

  function Prims(c: Call): seq<u32> {
    [c.in0, c.in1, c.in2Len, c.rout6Len, c.rout7Len, c.rout8Len]
  }

  // s marshals c: inputs before outputs, each in its declared order.
  predicate Marshals(s: Sent, mid: bv32, c: Call) {
    && Supported(c)
    && s.sc == Make(mid, |c.in2| + 3, |c.rout6| + 3)
    && |s.args| == |c.in2| + |c.rout6| + 6
    && s.args == Inputs(c, s.args[1].pv, s.args[|c.in2| + 2].pv) + Outputs(c)
    && s.primIn == Prims(c)
    && Lens(c.in2) <= s.lens2 && Lens(c.rout6) <= s.lens6
  }

  // The argument array being filled: no slot is written twice.
  class ArgArray {
    const slots: array<Arg>
    ghost var filled: set<nat>

    constructor (slots: array<Arg>)
      ensures this.slots == slots && filled == {}
    {
      this.slots := slots;
      filled := {};
    }

    method Store(i: nat, a: Arg)
      requires i < slots.Length && i !in filled
      modifies `filled, slots
      ensures filled == old(filled) + {i} && slots[..] == old(slots[..])[i := a]
    {
      slots[i] := a;
      filled := filled + {i};
    }

    // _stub_pack and _stub_pack_1: one length word and one slot.
    method Pack(slot: nat, prim: array<u32>, k: nat, b: Buffer)
      requires slot < slots.Length && slot !in filled && k < prim.Length
      modifies `filled, slots, prim
      ensures filled == old(filled) + {slot} && prim[..] == old(prim[..])[k := b.dataLen]
      ensures slots[..] == old(slots[..])[slot := Arg(Caller(b.data), b.dataLen)]
    {
      prim[k] := b.dataLen;
      Store(slot, Arg(Caller(b.data), b.dataLen));
    }

    // The loop around it: the slot after the moving pointer, or the one at it.
    method PackAll(pra: nat, ahead: nat, prim: array<u32>, bufs: seq<Buffer>) returns (end: nat)
      requires pra + ahead + |bufs| <= slots.Length && |bufs| <= prim.Length
      requires forall i :: pra + ahead <= i < pra + ahead + |bufs| ==> i !in filled
      modifies `filled, slots, prim
      ensures end == pra + |bufs|
      ensures forall i: nat :: i in filled <==> i in old(filled) || pra + ahead <= i < end + ahead
      ensures forall i {:trigger slots[i]} :: 0 <= i < slots.Length ==>
                slots[i] == if pra + ahead <= i < end + ahead then Args(bufs)[i - pra - ahead] else old(slots[i])
      ensures Lens(bufs) <= prim[..]
    {
      end := pra;
      for ii := 0 to |bufs|
        invariant end == pra + ii
        invariant forall i: nat :: i in filled <==> i in old(filled) || pra + ahead <= i < end + ahead
        invariant forall i {:trigger slots[i]} :: 0 <= i < slots.Length ==>
                    slots[i] == if pra + ahead <= i < end + ahead then Args(bufs)[i - pra - ahead] else old(slots[i])
        invariant forall i :: 0 <= i < ii ==> prim[i] == Lens(bufs)[i]
      {
        Pack(end + ahead, prim, ii, bufs[ii]);
        end := end + 1;
      }
    }
  }

  datatype Outcome = NotSent | WasSent(sent: Sent)

  function Words(pv: Ptr): seq<u32>
    reads if pv.Heap? then {pv.block.words} else {}
  {
    if pv.Heap? then pv.block.words[..] else []
  }

  // lens goes to slot k, and xs to the slots from at on.
  function Packed(args: seq<Arg>, k: nat, lens: Arg, at: nat, xs: seq<Arg>): (r: seq<Arg>)
    requires k < |args| && at + |xs| <= |args|
    ensures |r| == |args|
  {
    var stored := args[k := lens];
    stored[..at] + xs + stored[at + |xs|..]
  }

  // A sequence of buffers: its array of lengths, the slot of that array, and a
  // slot for each buffer. Gives the moved pointer back.
  method PackSequence(mem: Memory, al: Allocator, ghost base: set<Block>, a: ArgArray,
                      lensSlot: nat, pra: nat, ahead: nat, bufs: seq<Buffer>, len: u32)
    returns (nErr: int, pv: Ptr, end: nat)
    requires al.Owns(mem, base) && al.stack + al.nSize <= al.stackEnd
    requires Visits(bufs, len) && |bufs| < 255
    requires pra + ahead + |bufs| <= a.slots.Length && lensSlot < a.slots.Length && lensSlot !in a.filled
    requires !(pra + ahead <= lensSlot < pra + ahead + |bufs|)
    requires forall i :: pra + ahead <= i < pra + ahead + |bufs| ==> i !in a.filled
    modifies mem, al, a`filled, a.slots
    ensures al.Owns(mem, base)
    ensures al.stack == old(al.stack) && al.nSize == old(al.nSize) && al.stackEnd == old(al.stackEnd)
    ensures (forall k :: mem.works(k)) && ToInt32(len) >= 0 ==> nErr == 0
    ensures nErr == 0 || nErr == -1
    ensures nErr == 0 ==>
              && end == pra + |bufs|
              && (pv.Heap? ==> fresh(pv.block) && fresh(pv.block.words)) && Lens(bufs) <= Words(pv)
              && (forall i: nat :: i in a.filled <==>
                    i in old(a.filled) || i == lensSlot || pra + ahead <= i < end + ahead)
              && a.slots[..] == Packed(old(a.slots[..]), lensSlot, Arg(pv, Times4(len)), pra + ahead, Args(bufs))
  {
    end := pra;
    AlignUpAtLeast(al.stackEnd, 2);
    SmallLen(bufs, len);
    hide AlignUp, ToInt32, Times4;
    nErr, pv := al.Alloc(mem, ToInt32(Times4(len)), 2, base);
    if nErr == 0 {
      a.Store(lensSlot, Arg(pv, Times4(len)));
      if |bufs| > 0 {
        end := a.PackAll(pra, ahead, pv.block.words, bufs);
      }
    }
  }

  lemma SmallLen(bufs: seq<Buffer>, len: u32)
    requires Visits(bufs, len) && |bufs| < 255
    ensures ToInt32(len) >= 0 ==> ToInt32(Times4(len)) == 4 * |bufs| && len == |bufs|
    ensures |bufs| > 0 ==> ToInt32(len) >= 0
  {
  }

  // All the stores, in their order, into any array of the right length.
  lemma Laid(args: seq<Arg>, c: Call, p2: Ptr, p6: Ptr)
    requires |args| == |c.in2| + |c.rout6| + 6
    ensures var numIn := |c.in2| + 2;
            var s0 := args[0 := Arg(PrimIn, 24)][numIn + 1 := Arg(PrimROut, 12)];
            var s1 := Packed(s0, 1, Arg(p2, Times4(c.in2Len)), 2, Args(c.in2));
            var s2 := Packed(s1, numIn, Arg(p6, Times4(c.rout6Len)), numIn + 2, Args(c.rout6));
            s2[|args| - 2 := Arg(Caller(c.rout7), Times4(c.rout7Len))]
              [|args| - 1 := Arg(Caller(c.rout8), Times4(c.rout8Len))] == Inputs(c, p2, p6) + Outputs(c)
  {
    hide Times4;
    assert |Args(c.in2)| == |c.in2| && |Args(c.rout6)| == |c.rout6|;
    hide Args;
  }

  // The stores into the allocated array.
  method FillArgs(mem: Memory, al: Allocator, ghost base: set<Block>, a: ArgArray, c: Call)
    returns (nErr: int, p2: Ptr, p6: Ptr)
    requires Supplied(c) && Supported(c)
    requires al.Owns(mem, base) && al.stack + al.nSize <= al.stackEnd
    requires a.filled == {} && a.slots.Length == |c.in2| + |c.rout6| + 6
    modifies mem, al, a`filled, a.slots
    ensures al.Owns(mem, base)
    ensures (forall k :: mem.works(k)) && ToInt32(c.in2Len) >= 0 && ToInt32(c.rout6Len) >= 0 ==> nErr == 0
    ensures nErr == 0 || nErr == -1
    ensures nErr == 0 ==>
              && a.slots[..] == Inputs(c, p2, p6) + Outputs(c)
              && Lens(c.in2) <= Words(p2) && Lens(c.rout6) <= Words(p6)
              && forall i: nat :: i in a.filled <==> i < a.slots.Length
  {
    hide ToInt32, Times4, AlignUp, Args, Inputs, Outputs, Lens, Packed, Words, Allocator.Owns, Allocator.Linked;
    var numIn := |c.in2| + 2;
    p6 := Null;
    ghost var args := a.slots[..];
    a.Store(0, Arg(PrimIn, 24));
    a.Store(numIn + 1, Arg(PrimROut, 12));
    var praIn := 1;
    var praROut := praIn + numIn + 1;
    nErr, p2, praIn := PackSequence(mem, al, base, a, praIn, praIn, 1, c.in2, c.in2Len);
    if nErr == 0 {
      nErr, p6, praROut := PackSequence(mem, al, base, a, praIn + 1, praROut, 0, c.rout6, c.rout6Len);
      if nErr == 0 {
        a.Store(praROut, Arg(Caller(c.rout7), Times4(c.rout7Len)));
        a.Store(praROut + 1, Arg(Caller(c.rout8), Times4(c.rout8Len)));
        Laid(args, c, p2, p6);
      }
    }
  }

  lemma InputSlots(c: Call, p2: Ptr, p6: Ptr)
    ensures var args := Inputs(c, p2, p6) + Outputs(c);
            && |Inputs(c, p2, p6)| == |c.in2| + 3 && |args| == |c.in2| + |c.rout6| + 6
            && args[1].pv == p2 && args[|c.in2| + 2].pv == p6
  {
  }

  // From the first allocation of _stub_method to its invocation.
  method Marshal(mem: Memory, al: Allocator, mid: bv32, c: Call, ghost base: set<Block>)
    returns (nErr: int, outcome: Outcome, ghost filled: set<nat>)
    requires Supplied(c) && Supported(c)
    requires al.Owns(mem, base) && al.stack + al.nSize <= al.stackEnd
    modifies mem, al
    ensures al.Owns(mem, base)
    ensures nErr == if outcome.WasSent? then 0 else -1
    ensures outcome.WasSent? ==> Marshals(outcome.sent, mid, c)
    ensures outcome.WasSent? ==> forall i: nat :: i in filled <==> i < |outcome.sent.args|
    ensures (forall k :: mem.works(k)) && ToInt32(c.in2Len) >= 0 && ToInt32(c.rout6Len) >= 0 ==> nErr == 0
  {
    hide ToInt32, Times4, Make, AlignUp, Args, Lens, Inputs, Outputs, Prims;
    var numIn, numROut := |c.in2| + 2, |c.rout6| + 2;
    outcome, filled := NotSent, {};
    AlignUpAtLeast(al.stackEnd, 2);
    var pra: Ptr;
    nErr, pra := al.Alloc(mem, (numIn + numROut + 2) * 16, 2, base);
    if nErr == 0 {
      var a := new ArgArray(pra.block.args);
      var p2, p6: Ptr;
      nErr, p2, p6 := FillArgs(mem, al, base, a, c);
      if nErr == 0 {
        outcome := WasSent(Sent(Make(mid, numIn + 1, numROut + 1), a.slots[..], Prims(c), Words(p2), Words(p6)));
        filled := a.filled;
        InputSlots(c, p2, p6);
      }
    }
  }

  // _stub_method. answer is what the remote side returns when it is called;
  // outs are rout3, rout4 and rout5 when they are written.
  method StubMethod(mem: Memory, mid: bv32, c: Call, answer: Reply)
    returns (nErr: int, outcome: Outcome, outs: seq<u32>, ghost filled: set<nat>)
    requires Supplied(c)
    modifies mem
    ensures mem.live == old(mem.live)
    ensures !Supported(c) ==> nErr == AEE_EUNSUPPORTED && outcome == NotSent
    ensures outcome.WasSent? ==> Marshals(outcome.sent, mid, c) && nErr == answer.nErr
    ensures outcome.WasSent? ==> forall i: nat :: i in filled <==> i < |outcome.sent.args|
    ensures Supported(c) && outcome == NotSent ==> nErr == -1
    ensures outs == if nErr == 0 then [answer.rout3, answer.rout4, answer.rout5] else []
    ensures Supported(c) && (forall k :: mem.works(k)) && ToInt32(c.in2Len) >= 0 && ToInt32(c.rout6Len) >= 0
            ==> outcome.WasSent?
  {
    hide ToInt32, Marshals;
    outcome, outs, filled := NotSent, [], {};
    var numIn := Count(2, c.in2);
    var numROut := Count(2, c.rout6);
    if numIn >= 255 || numROut >= 255 {
      return AEE_EUNSUPPORTED, outcome, outs, filled;
    }
    ghost var base := mem.live;
    var al := new Allocator(0, 0, mem);
    nErr, outcome, filled := Marshal(mem, al, mid, c, base);
    if nErr == 0 {
      nErr := answer.nErr;
      if nErr == 0 {
        outs := [answer.rout3, answer.rout4, answer.rout5];
      }
    }
    al.Deinit(mem, base);
  }

  // The counting loops around _count and _count_1.
  method Count(start: nat, bufs: seq<Buffer>) returns (n: nat)
    ensures n == start + |bufs|
  {
    n := start;
    for ii := 0 to |bufs|
      invariant n == start + ii
    {
      n := n + 1;
    }
  }

  // ----- what the remote side can tell -----

  // Every word and every slot, by its place. Lengths of arrays of words count
  // bytes, in 32 bits.
  lemma PlaceByPlace(s: Sent, mid: bv32, c: Call)
    requires Marshals(s, mid, c)
    ensures |s.primIn| == 6 && s.primIn[0] == c.in0 && s.primIn[1] == c.in1 && s.primIn[2] == c.in2Len
    ensures s.primIn[3] == c.rout6Len && s.primIn[4] == c.rout7Len && s.primIn[5] == c.rout8Len
    ensures var n2, n6 := |c.in2|, |c.rout6|;
            && |s.args| == n2 + n6 + 6
            && s.args[0] == Arg(PrimIn, 24) && s.args[n2 + 3] == Arg(PrimROut, 12)
            && s.args[1].nLen == 4 * c.in2Len % 0x1_0000_0000
            && s.args[n2 + 2].nLen == 4 * c.rout6Len % 0x1_0000_0000
            && s.args[n2 + n6 + 4] == Arg(Caller(c.rout7), 4 * c.rout7Len % 0x1_0000_0000)
            && s.args[n2 + n6 + 5] == Arg(Caller(c.rout8), 4 * c.rout8Len % 0x1_0000_0000)
    ensures forall i {:trigger c.in2[i]} :: 0 <= i < |c.in2| ==>
              && s.args[i + 2] == Arg(Caller(c.in2[i].data), c.in2[i].dataLen)
              && |s.lens2| >= |c.in2| && s.lens2[i] == c.in2[i].dataLen
    ensures forall i {:trigger c.rout6[i]} :: 0 <= i < |c.rout6| ==>
              && s.args[|c.in2| + 4 + i] == Arg(Caller(c.rout6[i].data), c.rout6[i].dataLen)
              && |s.lens6| >= |c.rout6| && s.lens6[i] == c.rout6[i].dataLen
  {
    hide Make;
  }

  // The word announces exactly the slots of the array: the inputs, which come
  // first, and then the outputs.
  lemma Announced(s: Sent, mid: bv32, c: Call)
    requires Marshals(s, mid, c)
    ensures Length(s.sc) == |s.args|
    ensures s.args[..Ins(s.sc)] == Inputs(c, s.args[1].pv, s.args[|c.in2| + 2].pv)
    ensures s.args[Ins(s.sc)..] == Outputs(c) && |Outputs(c)| == Outs(s.sc)
    ensures InHandles(s.sc) == 0 && OutHandles(s.sc) == 0 && (Method(s.sc) == mid <==> mid < 32)
  {
    Counts(mid, |c.in2| + 3, |c.rout6| + 3);
    InputSlots(c, s.args[1].pv, s.args[|c.in2| + 2].pv);
    hide Make, Ins, Outs, Length, InHandles, OutHandles, Method, Inputs;
  }

  function Address(p: Ptr): nat {
    if p.Caller? then p.address else 0
  }

  // The buffers in n slots from at on, with their lengths.
  function Gather(args: seq<Arg>, at: nat, lens: seq<u32>, n: nat): seq<Buffer>
    requires at + n <= |args| && n <= |lens|
  {
    seq(n, i requires 0 <= i < n => Buffer(Address(args[at + i].pv), lens[i]))
  }

  lemma GatherArgs(args: seq<Arg>, at: nat, lens: seq<u32>, bufs: seq<Buffer>)
    requires at + |bufs| <= |args| && args[at..at + |bufs|] == Args(bufs) && Lens(bufs) <= lens
    ensures Gather(args, at, lens, |bufs|) == bufs
  {
    forall i | 0 <= i < |bufs|
      ensures Gather(args, at, lens, |bufs|)[i] == bufs[i]
    {
      assert lens[i] == Lens(bufs)[i];
      assert args[at..at + |bufs|][i] == args[at + i];
    }
  }

  lemma Slots(c: Call, p2: Ptr, p6: Ptr)
    ensures var args, n2, n6 := Inputs(c, p2, p6) + Outputs(c), |c.in2|, |c.rout6|;
            && |args| == n2 + n6 + 6
            && args[2..n2 + 2] == Args(c.in2) && args[n2 + 4..n2 + 4 + n6] == Args(c.rout6)
            && args[n2 + n6 + 4].pv == Caller(c.rout7) && args[n2 + n6 + 5].pv == Caller(c.rout8)
  {
    assert |Args(c.in2)| == |c.in2| && |Args(c.rout6)| == |c.rout6|;
    hide Times4, Args;
  }

  // The words and the array are as long as the scalar word says.
  predicate Readable(s: Sent) {
    && |s.primIn| == 6 && |s.args| == Ins(s.sc) + Outs(s.sc)
    && s.primIn[2] == Ins(s.sc) - 3 && s.primIn[3] == Outs(s.sc) - 3
    && s.primIn[2] <= |s.lens2| && s.primIn[3] <= |s.lens6|
  }

  // The call, read back from the scalar word, the array and the private inputs.
  function Unmarshal(s: Sent): Call
    requires Readable(s)
  {
    hide Ins, Outs;
    var p, nIn, n := s.primIn, Ins(s.sc), |s.args|;
    Call(p[0], p[1], Gather(s.args, 2, s.lens2, p[2]), p[2],
         Gather(s.args, nIn + 1, s.lens6, p[3]), p[3],
         Address(s.args[n - 2].pv), p[4], Address(s.args[n - 1].pv), p[5])
  }

  // Nothing is lost: what is sent determines every argument.
  lemma UnmarshalMarshal(s: Sent, mid: bv32, c: Call)
    requires Marshals(s, mid, c) && Supplied(c) && ToInt32(c.in2Len) >= 0 && ToInt32(c.rout6Len) >= 0
    ensures Readable(s) && Unmarshal(s) == c
  {
    hide Make, Ins, Outs, Length, InHandles, OutHandles, Method, ToInt32, Times4, Args, Gather;
    Counts(mid, |c.in2| + 3, |c.rout6| + 3);
    SmallLen(c.in2, c.in2Len);
    SmallLen(c.rout6, c.rout6Len);
    Slots(c, s.args[1].pv, s.args[|c.in2| + 2].pv);
    hide Inputs, Outputs;
    assert |Lens(c.in2)| == |c.in2| && |Lens(c.rout6)| == |c.rout6|;
    hide Lens;
    GatherArgs(s.args, 2, s.lens2, c.in2);
    GatherArgs(s.args, |c.in2| + 4, s.lens6, c.rout6);
  }
}
