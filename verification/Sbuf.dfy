// Model of inc/sbuf.h: a cursor on a virtual stream, of which only a window is
// real memory. The cursor may be before, inside or past the window.
module Sbufs {
  import opened Bits
  import opened Ints

  // One position of a stream: a byte, or padding that is skipped.
  datatype Cell = Byte(value: byte) | Gap

  function Bytes(s: seq<byte>): (r: seq<Cell>) {
    seq(|s|, i requires 0 <= i < |s| => Byte(s[i]))
  }

  function Gaps(n: nat): (r: seq<Cell>) {
    seq(n, _ => Gap)
  }

  // Memory m after cells are written with m[0] standing k cells into them.
  function Overlay(cells: seq<Cell>, k: int, m: seq<byte>): (r: seq<byte>)
    ensures |r| == |m|
  {
    seq(|m|, i requires 0 <= i < |m| =>
      if 0 <= i + k < |cells| && cells[i + k].Byte? then cells[i + k].value else m[i])
  }

  lemma OverlayIs(src: seq<byte>, k: int, m: seq<byte>, m': seq<byte>)
    requires |m'| == |m|
    requires forall i {:trigger m'[i]} :: 0 <= i < |m| ==> m'[i] == if 0 <= i + k < |src| then src[i + k] else m[i]
    ensures m' == Overlay(Bytes(src), k, m)
  {
  }

  // Writing in two steps is writing once.
  lemma OverlayConcat(a: seq<Cell>, b: seq<Cell>, k: int, m: seq<byte>)
    ensures Overlay(b, k - |a|, Overlay(a, k, m)) == Overlay(a + b, k, m)
  {
  }

  lemma OverlayGaps(n: nat, k: int, m: seq<byte>)
    ensures Overlay(Gaps(n), k, m) == m && Overlay([], k, m) == m
  {
  }

  // dst after reading |dst| bytes from position p, with m[0] at position off:
  // positions outside the window leave dst as it was.
  function Fetch(m: seq<byte>, off: int, p: int, dst: seq<byte>): (r: seq<byte>)
    ensures |r| == |dst|
  {
    seq(|dst|, j requires 0 <= j < |dst| => if off <= p + j < off + |m| then m[p + j - off] else dst[j])
  }

  // The part of dst from to on that a copy of n bytes starting at mem[at] hits.
  lemma FetchPart(m: seq<byte>, off: int, p: int, dst: seq<byte>, to: nat, at: nat, n: nat)
    requires to + n <= |dst| && at + n <= |m| && off + at == p + to
    requires to > 0 ==> at == 0
    requires to + n < |dst| ==> at + n == |m|
    ensures dst[..to] + m[at..at + n] + dst[to + n..] == Fetch(m, off, p, dst)
  {
  }

  // The distance to the next multiple of eight.
  function Pad8(p: int): (r: nat)
    ensures r < 8 && (p + r) % 8 == 0
  {
    (8 - p % 8) % 8
  }

  // _SBUF_ALIGN(x, y) for y a power of two: a & ~m is a - (a & m).
  function AlignUp(x: nat, log2: nat): int {
    var m := Pow2(log2) - 1;
    x + m - And(x + m, m)
  }

  lemma AlignUp8(x: nat)
    ensures AlignUp(x, 3) == x + Pad8(x)
  {
    assert Pow2(3) == 8;
    hide And, Pow2, Pad8;
    AndMask(x + 7, 3);
    PadMod(x);
  }

  lemma PadMod(x: nat)
    ensures x + 7 - (x + 7) % 8 == x + Pad8(x)
  {
  }

  class Sbuf {
    var mem: array<byte>
    var buf: int
    var bufEnd: int
    var bufStart: int
    var bufCur: int

    // Distances fit an int, as the total of a message does.
    ghost predicate Valid()
      reads this, mem
    {
      && bufEnd == buf + mem.Length
      && 0 <= bufCur - bufStart <= INT_MAX
      && -1 <= bufEnd - bufStart <= INT_MAX
    }

    // The position of the cursor and of mem[0] on the stream.
    ghost function Pos(): int
      reads this
    {
      bufCur - bufStart
    }

    ghost function Off(): int
      reads this
    {
      buf - bufStart
    }

    // sbuf_init; address is the pointer value of mem.
    constructor (offset: int, mem: array<byte>, address: int)
      requires -1 <= offset + mem.Length <= INT_MAX
      ensures Valid() && Pos() == 0 && Off() == offset && this.mem == mem && buf == address
    {
      this.mem := mem;
      buf := address;
      bufStart, bufCur := address - offset, address - offset;
      bufEnd := address + mem.Length;
    }

    // sbuf_advance
    method Advance(len: int)
      requires Valid() && 0 <= Pos() + len <= INT_MAX
      modifies this`bufCur
      ensures Valid() && Pos() == old(Pos()) + len
    {
      bufCur := bufCur + len;
    }

    // sbuf_needed
    method Needed() returns (n: int)
      requires Valid()
      ensures n == Pos()
    {
      n := ToInt32(bufCur - bufStart);
    }

    // sbuf_left
    method Left() returns (n: int)
      requires Valid()
      ensures n == Off() + mem.Length - Pos()
    {
      n := ToInt32(bufEnd - bufCur);
    }

    // sbuf_align(buf, 8)
    method Align8()
      requires Valid() && Pos() + Pad8(Pos()) <= INT_MAX
      modifies this`bufCur
      ensures Valid() && Pos() == old(Pos()) + Pad8(old(Pos()))
    {
      var needed := Needed();
      AlignUp8(needed);
      Advance(AlignUp(needed, 3) - needed);
    }

    // sbuf_write
    method Write(src: seq<byte>)
      requires Valid() && Pos() + |src| <= INT_MAX
      modifies this`bufCur, mem
      ensures Valid() && Pos() == old(Pos()) + |src|
      ensures mem[..] == Overlay(Bytes(src), Off() - old(Pos()), old(mem[..]))
    {
      hide ToInt32, Overlay;
      ghost var k, before := Off() - Pos(), mem[..];
      var from, srcLen := 0, |src|;
      if bufCur + srcLen > buf {
        if bufCur < buf {
          var len := ToInt32(buf - bufCur);
          ToInt32Exact(buf - bufCur);
          srcLen := srcLen - len;
          from := from + len;
          Advance(len);
        }
        var left := Left();
        var writeLen := if srcLen < left then srcLen else left;
        if writeLen > 0 {
          var at := bufCur - buf;
          forall i | 0 <= i < writeLen {
            mem[at + i] := src[from + i];
          }
        }
      }
      Advance(srcLen);
      OverlayIs(src, k, before, mem[..]);
    }

    // sbuf_read; dst is what the destination held, r what it holds after.
    method Read(dst: seq<byte>) returns (r: seq<byte>)
      requires Valid() && Pos() + |dst| <= INT_MAX
      modifies this`bufCur
      ensures Valid() && Pos() == old(Pos()) + |dst|
      ensures r == Fetch(mem[..], Off(), old(Pos()), dst)
    {
      hide ToInt32;
      r := dst;
      var to, dstLen := 0, |dst|;
      if bufCur + dstLen > buf {
        if bufCur < buf {
          var len := ToInt32(buf - bufCur);
          ToInt32Exact(buf - bufCur);
          dstLen := dstLen - len;
          to := to + len;
          Advance(len);
        }
        var left := Left();
        var readLen := if dstLen < left then dstLen else left;
        if readLen > 0 {
          var at := bufCur - buf;
          r := dst[..to] + mem[at..at + readLen] + dst[to + readLen..];
          FetchPart(mem[..], Off(), old(Pos()), dst, to, at, readLen);
        }
      }
      Advance(dstLen);
    }
  }
}
