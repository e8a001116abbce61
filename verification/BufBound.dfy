// Model of src/BufBound.c: a bounded buffer that keeps counting past its end.
// It is shown to be a window on an unbounded tape whose head stops at 0 and at
// INT_MAX.
module BufBounds {
  import opened Ints

  // ----- the tape -----

  // cells are the positions written so far, pos is the head.
  datatype Tape = Tape(cells: map<nat, byte>, pos: nat)

  function Clamp(x: int): (r: nat)
    ensures r <= INT_MAX
  {
    if x < 0 then 0 else if x > INT_MAX then INT_MAX else x
  }

  predicate Within(i: nat, from: nat, n: nat) {
    from <= i < from + n
  }

  function Span(from: nat, n: nat): (r: set<nat>)
    ensures forall i: nat :: i in r <==> Within(i, from, n)
  {
    set i: nat | from <= i < from + n && Within(i, from, n)
  }

  // s is written from the head on, and the head moves past it.
  function Put(t: Tape, s: seq<byte>): Tape {
    Tape(t.cells + (map i: nat | i in Span(t.pos, |s|) :: s[i - t.pos]), Clamp(t.pos + |s|))
  }

  datatype Op =
    | Write(pc: seq<byte>, nLen: int)
    | Putnc(c: byte, nLen: int)
    | Putc(c: byte)
    | Puts(cpsz: seq<byte>)
    | Advance(nLen: int)
    | ForceNullTerm

  // A call that the C function can be given: the memory behind pc is there.
  predicate Callable(op: Op) {
    match op
    case Write(pc, n) => n <= |pc| && -INT_MAX - 1 <= n <= INT_MAX
    case Putnc(_, n) => -INT_MAX - 1 <= n <= INT_MAX
    case Advance(n) => -INT_MAX - 1 <= n <= INT_MAX
    case _ => true
  }

  function First(s: seq<byte>, n: int): seq<byte>
    requires n <= |s|
  {
    if n <= 0 then [] else s[..n]
  }

  function Copies(c: byte, n: int): seq<byte> {
    if n <= 0 then [] else seq(n, _ => c)
  }

  lemma ToInt32Below(n: nat)
    ensures ToInt32(n) <= n
  {
  }

  // What an operation does to the tape. Only ForceNullTerm looks at the size of
  // the buffer, and never to move the head.
  function Apply(t: Tape, op: Op, size: int): Tape
    requires Callable(op)
  {
    match op
    case Write(pc, n) => Put(t, First(pc, n))
    case Putnc(c, n) => Put(t, Copies(c, n))
    case Putc(c) => Put(t, [c])
    case Puts(s) => ToInt32Below(|s|); Put(t, First(s, ToInt32(|s|)))
    case Advance(n) => t.(pos := Clamp(t.pos + n))
    case ForceNullTerm =>
      if t.pos < size then Put(t, [0])
      else Tape(if size > 0 then t.cells[size - 1 := 0] else t.cells, Clamp(t.pos + 1))
  }

  function ApplyAll(t: Tape, ops: seq<Op>, size: int): Tape
    requires forall i :: 0 <= i < |ops| ==> Callable(ops[i])
    decreases |ops|
  {
    if ops == [] then t else Apply(ApplyAll(t, ops[..|ops| - 1], size), ops[|ops| - 1], size)
  }

  class BufBound {
    var mem: array<byte>
    var pcBuf: int
    var pcWrite: int
    var pcEnd: int

    ghost predicate Valid()
      reads this
    {
      && pcBuf <= pcEnd <= pcBuf + mem.Length && pcEnd <= pcBuf + INT_MAX
      && pcBuf <= pcWrite <= pcBuf + INT_MAX
    }

    ghost function Size(): int
      reads this
    {
      pcEnd - pcBuf
    }

    // Where the next byte goes.
    ghost function Head(): int
      reads this
    {
      pcWrite - pcBuf
    }

    // The head went from head on by n, up to INT_MAX and down to 0.
    ghost predicate Went(head: int, n: int)
      reads this
    {
      Head() == if head + n > INT_MAX then INT_MAX else if head + n < 0 then 0 else head + n
    }

    // Of n bytes s from head on, those inside the buffer are there; every other
    // byte is as it was.
    ghost predicate Holds(was: seq<byte>, head: int, s: seq<byte>, n: int)
      requires n <= |s|
      reads this, mem
    {
      && |was| == mem.Length
      && forall i {:trigger mem[i]} :: 0 <= i < mem.Length ==>
           mem[i] == if head <= i < head + n && i < Size() then s[i - head] else was[i]
    }

    // The buffer shows the tape's cells below its size, orig elsewhere.
    ghost predicate Shows(t: Tape, orig: seq<byte>)
      reads this, mem
    {
      && Valid() && |orig| == mem.Length && pcWrite == pcBuf + t.pos
      && forall i {:trigger mem[i]} :: 0 <= i < mem.Length ==>
           mem[i] == if i < Size() && i in t.cells then t.cells[i] else orig[i]
    }

    // BufBound_Init
    constructor (mem: array<byte>, address: int, nLen: int)
      requires nLen <= mem.Length && nLen <= INT_MAX
      ensures Shows(Tape(map[], 0), mem[..]) && this.mem == mem
      ensures Size() == if nLen < 0 then 0 else nLen
    {
      this.mem := mem;
      pcWrite, pcBuf := address, address;
      pcEnd := address + if nLen < 0 then 0 else nLen;
    }

    // BufBound_ValidateWrite: where to write, and how much of it fits.
    method ValidateWrite(nLen: int) returns (pcDest: int, fits: nat)
      requires Valid() && 0 < nLen <= INT_MAX
      modifies `pcWrite
      ensures Valid() && pcDest == old(pcWrite) && pcWrite == pcBuf + Clamp(old(pcWrite) - pcBuf + nLen)
      ensures fits == if pcDest >= pcEnd then 0 else if nLen <= pcEnd - pcDest then nLen else pcEnd - pcDest
    {
      hide ToInt32;
      var n := nLen;
      pcDest := pcWrite;
      ToInt32Exact(pcEnd - pcWrite);
      ToInt32Exact(pcBuf + INT_MAX - pcWrite);
      var nMaxCopy := ToInt32(pcEnd - pcWrite);
      if nMaxCopy < n {
        var nMaxAdvance := ToInt32(pcBuf + INT_MAX - pcWrite);
        if n > nMaxAdvance {
          n := nMaxAdvance;
        }
        if nMaxCopy < 0 {
          nMaxCopy := 0;
        }
      } else {
        nMaxCopy := n;
      }
      fits := nMaxCopy;
      pcWrite := pcDest + n;
    }

    // The copy loop, from the back.
    method Fill(at: int, s: seq<byte>, n: nat)
      requires Valid() && n <= |s| && 0 <= at && (n > 0 ==> at + n <= mem.Length)
      modifies mem
      ensures forall i {:trigger mem[i]} :: 0 <= i < mem.Length ==>
                mem[i] == if at <= i < at + n then s[i - at] else old(mem[i])
    {
      var nLen := n - 1;
      while nLen >= 0
        invariant -1 <= nLen < n
        invariant forall i {:trigger mem[i]} :: 0 <= i < mem.Length ==>
                    mem[i] == if at + nLen < i < at + n then s[i - at] else old(mem[i])
      {
        mem[at + nLen] := s[nLen];
        nLen := nLen - 1;
      }
    }

    // The common part of BufBound_Write and BufBound_Putnc.
    method Append(s: seq<byte>, nLen: int, ghost t: Tape, ghost orig: seq<byte>)
      requires Shows(t, orig) && 0 < nLen == |s| <= INT_MAX
      modifies `pcWrite, mem
      ensures Shows(Put(t, s), orig) && Size() == old(Size())
      ensures Holds(old(mem[..]), old(Head()), s, nLen) && Went(old(Head()), nLen)
    {
      var pcDest, fits := ValidateWrite(nLen);
      Fill(pcDest - pcBuf, s, fits);
    }

    // BufBound_Write
    method Write(pc: seq<byte>, nLen: int, ghost t: Tape, ghost orig: seq<byte>)
      requires Shows(t, orig) && Callable(Op.Write(pc, nLen))
      modifies `pcWrite, mem
      ensures Shows(Apply(t, Op.Write(pc, nLen), Size()), orig) && Size() == old(Size())
      ensures Holds(old(mem[..]), old(Head()), pc, nLen) && Went(old(Head()), if nLen > 0 then nLen else 0)
    {
      if nLen > 0 {
        Append(pc[..nLen], nLen, t, orig);
      } else {
        PutNothing(t);
      }
    }

    // BufBound_Putnc
    method Putnc(c: byte, nLen: int, ghost t: Tape, ghost orig: seq<byte>)
      requires Shows(t, orig) && Callable(Op.Putnc(c, nLen))
      modifies `pcWrite, mem
      ensures Shows(Apply(t, Op.Putnc(c, nLen), Size()), orig) && Size() == old(Size())
      ensures forall i {:trigger mem[i]} :: 0 <= i < mem.Length ==>
                mem[i] == if old(Head()) <= i < old(Head()) + nLen && i < Size() then c else old(mem[i])
      ensures Went(old(Head()), if nLen > 0 then nLen else 0)
    {
      if nLen > 0 {
        Append(Copies(c, nLen), nLen, t, orig);
      } else {
        PutNothing(t);
      }
    }

    // BufBound_Putc
    method Putc(c: byte, ghost t: Tape, ghost orig: seq<byte>)
      requires Shows(t, orig)
      modifies `pcWrite, mem
      ensures Shows(Apply(t, Op.Putc(c), Size()), orig) && Size() == old(Size())
      ensures forall i {:trigger mem[i]} :: 0 <= i < mem.Length ==>
                mem[i] == if i == old(Head()) < Size() then c else old(mem[i])
      ensures Went(old(Head()), 1)
    {
      if pcEnd - pcWrite > 0 {
        mem[pcWrite - pcBuf] := c;
        pcWrite := pcWrite + 1;
      } else if pcWrite != pcBuf + INT_MAX {
        pcWrite := pcWrite + 1;
      }
    }

    // BufBound_Puts
    method Puts(cpsz: seq<byte>, ghost t: Tape, ghost orig: seq<byte>)
      requires Shows(t, orig)
      modifies `pcWrite, mem
      ensures Shows(Apply(t, Op.Puts(cpsz), Size()), orig) && Size() == old(Size())
      ensures ToInt32(|cpsz|) <= |cpsz|
      ensures var n := ToInt32(|cpsz|);
              Holds(old(mem[..]), old(Head()), cpsz, n) && Went(old(Head()), if n > 0 then n else 0)
    {
      ToInt32Below(|cpsz|);
      Write(cpsz, ToInt32(|cpsz|), t, orig);
    }

    // BufBound_Advance: the wrapped 32-bit offset tells both overflows apart.
    method Advance(nLen: int, ghost t: Tape, ghost orig: seq<byte>)
      requires Shows(t, orig) && Callable(Op.Advance(nLen))
      modifies `pcWrite
      ensures Shows(Apply(t, Op.Advance(nLen), Size()), orig) && Size() == old(Size())
      ensures Went(old(Head()), nLen)
    {
      var uOffset := ToUint32(pcWrite - pcBuf + nLen);
      if uOffset > INT_MAX {
        uOffset := INT_MAX;
        if nLen < 0 {
          uOffset := 0;
        }
      }
      pcWrite := pcBuf + uOffset;
    }

    // BufBound_ForceNullTerm
    method ForceNullTerm(ghost t: Tape, ghost orig: seq<byte>)
      requires Shows(t, orig)
      modifies `pcWrite, mem
      ensures Shows(Apply(t, Op.ForceNullTerm, Size()), orig) && Size() == old(Size())
      ensures Size() > 0 ==>
                var at := if old(Head()) < Size() then old(Head()) else Size() - 1;
                mem[at] == 0 && forall i {:trigger mem[i]} :: 0 <= i < mem.Length && i != at ==> mem[i] == old(mem[i])
      ensures Size() == 0 ==> forall i {:trigger mem[i]} :: 0 <= i < mem.Length ==> mem[i] == old(mem[i])
      ensures Went(old(Head()), 1)
    {
      if pcEnd - pcWrite > 0 {
        mem[pcWrite - pcBuf] := 0;
        pcWrite := pcWrite + 1;
      } else {
        if pcWrite != pcBuf + INT_MAX {
          pcWrite := pcWrite + 1;
        }
        if pcEnd != pcBuf {
          mem[pcEnd - 1 - pcBuf] := 0;
        }
      }
    }

    // BufBound_Left, BufBound_ReallyWrote, BufBound_Wrote
    method Left() returns (n: int)
      requires Valid()
      ensures n == Size() - (pcWrite - pcBuf)
    {
      n := ToInt32(pcEnd - pcWrite);
    }

    method ReallyWrote() returns (n: int)
      requires Valid()
      ensures n == if Size() < pcWrite - pcBuf then Size() else pcWrite - pcBuf
    {
      n := if pcEnd - pcBuf < pcWrite - pcBuf then ToInt32(pcEnd - pcBuf) else ToInt32(pcWrite - pcBuf);
    }

    method Wrote(ghost t: Tape, ghost orig: seq<byte>) returns (n: int)
      requires Shows(t, orig)
      ensures n == t.pos
    {
      n := ToInt32(pcWrite - pcBuf);
    }
  }

  lemma PutNothing(t: Tape)
    requires t.pos <= INT_MAX
    ensures Put(t, []) == t
  {
    assert Span(t.pos, 0) == {};
  }

  // Any sequence of calls.
  method Perform(b: BufBound, ops: seq<Op>, ghost t: Tape, ghost orig: seq<byte>)
    requires b.Shows(t, orig) && forall i :: 0 <= i < |ops| ==> Callable(ops[i])
    modifies b`pcWrite, b.mem
    ensures b.Shows(ApplyAll(t, ops, b.Size()), orig) && b.Size() == old(b.Size())
  {
    ghost var u := t;
    assert ops[..0] == [] && ops[..|ops|] == ops;
    for k := 0 to |ops|
      invariant b.Shows(u, orig) && b.Size() == old(b.Size())
      invariant u == ApplyAll(t, ops[..k], b.Size())
    {
      var op := ops[k];
      assert ops[..k + 1][..k] == ops[..k];
      match op {
        case Write(pc, n) => b.Write(pc, n, u, orig);
        case Putnc(c, n) => b.Putnc(c, n, u, orig);
        case Putc(c) => b.Putc(c, u, orig);
        case Puts(s) => b.Puts(s, u, orig);
        case Advance(n) => b.Advance(n, u, orig);
        case ForceNullTerm => b.ForceNullTerm(u, orig);
      }
      u := Apply(u, op, b.Size());
    }
  }

  // ----- what the tape says about a run -----

  predicate AllCallable(ops: seq<Op>) {
    forall i :: 0 <= i < |ops| ==> Callable(ops[i])
  }

  // How far a call asks the head to move.
  function Move(op: Op): int
    requires Callable(op)
  {
    match op
    case Write(pc, n) => |First(pc, n)|
    case Putnc(c, n) => |Copies(c, n)|
    case Putc(_) => 1
    case Puts(s) => ToInt32Below(|s|); |First(s, ToInt32(|s|))|
    case Advance(n) => n
    case ForceNullTerm => 1
  }

  function Total(ops: seq<Op>): int
    requires AllCallable(ops)
  {
    if ops == [] then 0 else Total(ops[..|ops| - 1]) + Move(ops[|ops| - 1])
  }

  // Every call moves the head by what it asks for, clamped.
  lemma StepPos(t: Tape, op: Op, size: int)
    requires Callable(op) && t.pos <= INT_MAX
    ensures Apply(t, op, size).pos == Clamp(t.pos + Move(op))
  {
    hide ToInt32;
  }

  // A pass that only counts, with an empty buffer, reports the same length as
  // a pass that writes into a buffer of any size.
  lemma {:induction false} CountingPass(t: Tape, u: Tape, ops: seq<Op>, a: int, b: int)
    requires t.pos == u.pos <= INT_MAX && AllCallable(ops)
    ensures ApplyAll(t, ops, a).pos == ApplyAll(u, ops, b).pos <= INT_MAX
  {
    hide Apply, Move, Callable;
    if ops != [] {
      var k := |ops| - 1;
      CountingPass(t, u, ops[..k], a, b);
      StepPos(ApplyAll(t, ops[..k], a), ops[k], a);
      StepPos(ApplyAll(u, ops[..k], b), ops[k], b);
    }
  }

  // A move of m that leads back from beyond an end: total is where the moves so
  // far add up to, and the head, which stopped at the end, now moves away.
  predicate TurnsBack(total: int, m: int) {
    || (total < 0 && m > 0 && total + m < INT_MAX)
    || (total > INT_MAX && m < 0 && total + m > 0)
  }

  lemma ClampTwice(total: int, m: int)
    ensures Clamp(Clamp(total) + m) == Clamp(total + m) <==> !TurnsBack(total, m)
  {
  }

  // After each of the first calls, the head is where they add up to, saturated.
  ghost predicate ReportsTotal(t: Tape, ops: seq<Op>, size: int)
    requires AllCallable(ops)
  {
    forall k {:trigger ops[..k]} :: 0 <= k <= |ops| ==>
      ApplyAll(t, ops[..k], size).pos == Clamp(t.pos + Total(ops[..k]))
  }

  ghost predicate NeverTurnsBack(from: int, ops: seq<Op>)
    requires AllCallable(ops)
  {
    forall k {:trigger ops[..k]} :: 0 <= k < |ops| ==> !TurnsBack(from + Total(ops[..k]), Move(ops[k]))
  }

  // What is reported throughout a run is the total, saturated once, exactly when
  // no move turns back from beyond an end.
  lemma {:induction false} ReportsTotalIff(t: Tape, ops: seq<Op>, size: int)
    requires t.pos <= INT_MAX && AllCallable(ops)
    ensures ReportsTotal(t, ops, size) <==> NeverTurnsBack(t.pos, ops)
  {
    hide Apply, Move, Callable, TurnsBack, Clamp, ReportsTotal, NeverTurnsBack;
    if ops == [] {
      None(t, size);
    } else {
      var before, op := ops[..|ops| - 1], ops[|ops| - 1];
      ReportsTotalIff(t, before, size);
      OneMore(t, ops, size);
      CountingPass(t, t, before, size, size);
      StepPos(ApplyAll(t, before, size), op, size);
      ClampTwice(t.pos + Total(before), Move(op));
      ReportsAtEnd(t, before, size);
    }
  }

  lemma None(t: Tape, size: int)
    requires t.pos <= INT_MAX
    ensures ReportsTotal(t, [], size) && NeverTurnsBack(t.pos, [])
  {
    assert ApplyAll(t, [], size) == t && Total([]) == 0;
    hide ApplyAll, Total;
    var none: seq<Op> := [];
    assert none[..0] == [];
  }

  // Both sides for all calls are both sides for all but the last, and the last.
  lemma OneMore(t: Tape, ops: seq<Op>, size: int)
    requires AllCallable(ops) && ops != []
    ensures var before := ops[..|ops| - 1];
            && AllCallable(before)
            && (ReportsTotal(t, ops, size) <==>
                  ReportsTotal(t, before, size) && ApplyAll(t, ops, size).pos == Clamp(t.pos + Total(ops)))
            && (NeverTurnsBack(t.pos, ops) <==>
                  NeverTurnsBack(t.pos, before) && !TurnsBack(t.pos + Total(before), Move(ops[|ops| - 1])))
  {
    hide ApplyAll, Total, Move, Callable, TurnsBack, Clamp;
    var before := ops[..|ops| - 1];
    assert ops[..|ops|] == ops && forall j :: 0 <= j < |ops| ==> before[..j] == ops[..j];
  }

  lemma ReportsAtEnd(t: Tape, ops: seq<Op>, size: int)
    requires AllCallable(ops)
    ensures ReportsTotal(t, ops, size) ==> ApplyAll(t, ops, size).pos == Clamp(t.pos + Total(ops))
  {
    hide ApplyAll, Total;
    assert ops[..|ops|] == ops;
  }

  // Calls that only move forwards never turn back.
  lemma {:induction false} Forwards(ops: seq<Op>)
    requires AllCallable(ops) && forall i :: 0 <= i < |ops| ==> Move(ops[i]) >= 0
    ensures Total(ops) >= 0
  {
    if ops != [] {
      Forwards(ops[..|ops| - 1]);
    }
  }

  lemma WroteIsTotal(t: Tape, ops: seq<Op>, size: int)
    requires t.pos <= INT_MAX && AllCallable(ops)
    requires forall i :: 0 <= i < |ops| ==> Move(ops[i]) >= 0
    ensures ApplyAll(t, ops, size).pos == Clamp(t.pos + Total(ops))
  {
    hide Apply, Move, Callable;
    forall k | 0 <= k < |ops|
      ensures !TurnsBack(t.pos + Total(ops[..k]), Move(ops[k]))
    {
      Forwards(ops[..k]);
    }
    ReportsTotalIff(t, ops, size);
    assert ops[..|ops|] == ops;
  }

  // Stepping back at the start is lost.
  lemma TurnsBackAtStart(c: byte)
    ensures var ops := [Op.Advance(-5), Op.Putnc(c, 10)];
            ApplyAll(Tape(map[], 0), ops, 0).pos == 10 && Clamp(Total(ops)) == 5
  {
    var ops := [Op.Advance(-5), Op.Putnc(c, 10)];
    assert Total(ops[..1][..0]) == 0 && Total(ops[..1]) == -5;
    assert ops[..1] == [Op.Advance(-5)] && ops[..1][..0] == [];
    var t := Tape(map[], 0);
    assert ApplyAll(t, ops[..1], 0) == Apply(ApplyAll(t, [], 0), Op.Advance(-5), 0);
  }

  // Stepping forward at INT_MAX is lost.
  lemma TurnsBackAtEnd(c: byte)
    ensures var ops := [Op.Advance(INT_MAX), Op.Putc(c), Op.Advance(-1)];
            ApplyAll(Tape(map[], 0), ops, 0).pos == INT_MAX - 1 && Clamp(Total(ops)) == INT_MAX
  {
    var ops := [Op.Advance(INT_MAX), Op.Putc(c), Op.Advance(-1)];
    var t := Tape(map[], 0);
    assert ops[..2][..1] == ops[..1] && ops[..1][..0] == [];
    assert Total(ops[..1]) == Total([]) + Move(ops[0]) == INT_MAX;
    assert Total(ops[..2]) == Total(ops[..1]) + Move(ops[1]) == INT_MAX + 1;
    assert Total(ops) == Total(ops[..2]) + Move(ops[2]) == INT_MAX;
    hide Total, Move;
    assert ApplyAll(t, ops[..1], 0) == Apply(ApplyAll(t, [], 0), ops[0], 0);
    assert ApplyAll(t, ops[..2], 0) == Apply(ApplyAll(t, ops[..1], 0), ops[1], 0);
    assert ApplyAll(t, ops, 0) == Apply(ApplyAll(t, ops[..2], 0), ops[2], 0);
  }

  lemma PutCell(t: Tape, s: seq<byte>, i: nat)
    ensures i in Put(t, s).cells <==> i in t.cells || Within(i, t.pos, |s|)
    ensures i in Put(t, s).cells ==> Put(t, s).cells[i] == if Within(i, t.pos, |s|) then s[i - t.pos] else t.cells[i]
  {
  }

  // Writing in pieces is writing once, as far as a buffer can show.
  lemma PutConcat(t: Tape, a: seq<byte>, b: seq<byte>)
    requires t.pos <= INT_MAX
    ensures var once, twice := Put(t, a + b), Put(Put(t, a), b);
            && once.pos == twice.pos
            && forall i: nat :: i < INT_MAX ==>
                 (i in once.cells <==> i in twice.cells) && (i in once.cells ==> once.cells[i] == twice.cells[i])
  {
    var once, first := Put(t, a + b), Put(t, a);
    var twice := Put(first, b);
    assert first.pos == Clamp(t.pos + |a|) && once.pos == twice.pos;
    forall i: nat | i < INT_MAX
      ensures i in once.cells <==> i in twice.cells
      ensures i in once.cells ==> once.cells[i] == twice.cells[i]
    {
      hide Put;
      PutCell(t, a + b, i);
      PutCell(t, a, i);
      PutCell(first, b, i);
    }
  }
}
