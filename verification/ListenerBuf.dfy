// Model of inc/listener_buf.h: how a reverse call's buffers are laid out on a
// stream. Each buffer is a 32-bit length word and, unless empty, its bytes at
// the next multiple of eight.
module ListenerBufs {
  import opened Sbufs
  import opened Ints
  import opened Wrappers

  // The four bytes of a uint32_t on a little-endian machine, and back.
  function LenBytes(n: nat): (b: seq<byte>)
    ensures |b| == 4
  {
    [n % 0x100, n / 0x100 % 0x100, n / 0x1_0000 % 0x100, n / 0x100_0000 % 0x100]
  }

  function FromBytes(b: seq<byte>): (n: nat)
    requires |b| == 4
    ensures n < 0x1_0000_0000
  {
    b[0] as nat + 0x100 * (b[1] as nat) + 0x1_0000 * (b[2] as nat) + 0x100_0000 * (b[3] as nat)
  }

  // The least significant byte comes first.
  lemma LenWeights(n: nat)
    requires n < 0x1_0000_0000
    ensures var b := LenBytes(n);
            b[0] as nat + 0x100 * (b[1] as nat) + 0x1_0000 * (b[2] as nat) + 0x100_0000 * (b[3] as nat) == n
  {
    hide LenBytes;
    LenRoundTrip(n);
  }

  lemma LenRoundTrip(n: nat)
    requires n < 0x1_0000_0000
    ensures FromBytes(LenBytes(n)) == n
  {
  }

  // ----- layout -----

  // One buffer at position p; body is its bytes, or gaps for a buffer whose
  // bytes are not written.
  function Item(p: int, body: seq<Cell>): seq<Cell> {
    Bytes(LenBytes(|body|)) + if body == [] then [] else Gaps(Pad8(p + 4)) + body
  }

  function Items(p: int, bodies: seq<seq<Cell>>): seq<Cell> {
    if bodies == [] then []
    else
      var before := Items(p, bodies[..|bodies| - 1]);
      before + Item(p + |before|, bodies[|bodies| - 1])
  }

  // Where the k-th length word is, and where the k-th body is.
  function Start(p: int, bodies: seq<seq<Cell>>, k: nat): int
    requires k <= |bodies|
  {
    p + |Items(p, bodies[..k])|
  }

  function BodyAt(p: int, bodies: seq<seq<Cell>>, k: nat): int
    requires k < |bodies|
  {
    var s := Start(p, bodies, k) + 4;
    s + Pad8(s)
  }

  function InBodies(args: seq<seq<byte>>): (r: seq<seq<Cell>>) {
    seq(|args|, i requires 0 <= i < |args| => Bytes(args[i]))
  }

  function OutBodies(lens: seq<nat>): (r: seq<seq<Cell>>)
    ensures |r| == |lens|
  {
    seq(|lens|, i requires 0 <= i < |lens| => Gaps(lens[i]))
  }

  function LenCells(lens: seq<nat>): seq<Cell> {
    if lens == [] then [] else LenCells(lens[..|lens| - 1]) + Bytes(LenBytes(lens[|lens| - 1]))
  }

  lemma StartStep(p: int, bodies: seq<seq<Cell>>, k: nat)
    requires k < |bodies|
    ensures Items(p, bodies[..k + 1]) == Items(p, bodies[..k]) + Item(Start(p, bodies, k), bodies[k])
    ensures Start(p, bodies, k + 1) ==
            if bodies[k] == [] then Start(p, bodies, k) + 4 else BodyAt(p, bodies, k) + |bodies[k]|
  {
    assert bodies[..k + 1][..k] == bodies[..k];
  }

  lemma {:induction false} StartMonotone(p: int, bodies: seq<seq<Cell>>, j: nat, k: nat)
    requires j <= k <= |bodies|
    ensures Start(p, bodies, j) <= Start(p, bodies, k)
    ensures j < k ==> Start(p, bodies, j) + 4 <= Start(p, bodies, k)
    ensures Items(p, bodies[..j]) <= Items(p, bodies[..k])
  {
    hide Items, Item, Pad8, BodyAt, Start;
    if j < k {
      StartUnfolds(p, bodies, k - 1);
      StartStep(p, bodies, k - 1);
      StartMonotone(p, bodies, j, k - 1);
    }
  }

  lemma StartUnfolds(p: int, bodies: seq<seq<Cell>>, k: nat)
    requires k < |bodies|
    ensures Start(p, bodies, k) == p + |Items(p, bodies[..k])|
    ensures var s := Start(p, bodies, k); BodyAt(p, bodies, k) == s + 4 + Pad8(s + 4)
  {
  }

  // What the stream holds at the k-th buffer.
  lemma ItemAt(p: int, bodies: seq<seq<Cell>>, k: nat)
    requires k < |bodies|
    ensures var cells, s := Items(p, bodies), Start(p, bodies, k) - p;
            && 0 <= s && s + 4 <= |cells|
            && cells[s..s + 4] == Bytes(LenBytes(|bodies[k]|))
            && (bodies[k] != [] ==> var b := BodyAt(p, bodies, k) - p;
                  s + 4 <= b && b + |bodies[k]| <= |cells| && cells[b..b + |bodies[k]|] == bodies[k])
  {
    hide Items, Item, Start, BodyAt, Pad8, Bytes, LenBytes;
    StartStep(p, bodies, k);
    StartMonotone(p, bodies, k + 1, |bodies|);
    StartUnfolds(p, bodies, k);
    assert bodies[..|bodies|] == bodies;
    var cells, pre := Items(p, bodies), Items(p, bodies[..k]);
    var item, body := Item(Start(p, bodies, k), bodies[k]), bodies[k];
    assert pre + item <= cells;
    ItemParts(Start(p, bodies, k), body);
    Within(cells, pre, item, 0, 4);
    if body != [] {
      Within(cells, pre, item, |item| - |body|, |item|);
      assert BodyAt(p, bodies, k) - p == |pre| + |item| - |body|;
    }
  }

  lemma ItemParts(p: int, body: seq<Cell>)
    ensures var item := Item(p, body);
            |item| >= 4 && item[..4] == Bytes(LenBytes(|body|))
            && if body == [] then |item| == 4
               else |item| == 4 + Pad8(p + 4) + |body| && item[|item| - |body|..|item|] == body
  {
  }

  lemma Within<T>(all: seq<T>, pre: seq<T>, s: seq<T>, i: nat, j: nat)
    requires pre + s <= all && i <= j <= |s|
    ensures |pre| + |s| <= |all| && all[|pre| + i..|pre| + j] == s[i..j]
  {
    assert forall k :: 0 <= k < |s| ==> all[|pre| + k] == (pre + s)[|pre| + k] == s[k];
  }

  // Bodies are 8-aligned relative to the stream start, inside the message, and
  // apart from each other and from every length word.
  lemma BodiesApart(p: int, bodies: seq<seq<Cell>>, j: nat, k: nat)
    requires j < |bodies| && k < |bodies|
    ensures BodyAt(p, bodies, k) % 8 == 0
    ensures bodies[k] != [] ==> Start(p, bodies, k) + 4 <= BodyAt(p, bodies, k)
                                && BodyAt(p, bodies, k) + |bodies[k]| <= p + |Items(p, bodies)|
    ensures j < k && bodies[j] != [] ==> BodyAt(p, bodies, j) + |bodies[j]| <= Start(p, bodies, k)
    ensures k < j ==> Start(p, bodies, k) + 4 <= Start(p, bodies, j)
  {
    StartUnfolds(p, bodies, k);
    StartAll(p, bodies);
    BodyAligned(p, bodies, k);
    hide Items, Item, Start, BodyAt, Pad8;
    StartStep(p, bodies, k);
    StartMonotone(p, bodies, k + 1, |bodies|);
    if j < k {
      StartStep(p, bodies, j);
      StartMonotone(p, bodies, j + 1, k);
    } else if k < j {
      StartMonotone(p, bodies, k, j);
    }
  }

  lemma BodyAligned(p: int, bodies: seq<seq<Cell>>, k: nat)
    requires k < |bodies|
    ensures BodyAt(p, bodies, k) % 8 == 0
  {
    hide Items, Item, Start;
  }

  lemma StartAll(p: int, bodies: seq<seq<Cell>>)
    ensures Start(p, bodies, |bodies|) == p + |Items(p, bodies)|
  {
    assert bodies[..|bodies|] == bodies;
  }

  // ----- packing -----

  lemma ItemOverlay(p: int, body: seq<Cell>, k: int, m: seq<byte>)
    ensures var len := Bytes(LenBytes(|body|));
            Overlay(Item(p, body), k, m) ==
            if body == [] then Overlay(len, k, m)
            else Overlay(body, k - 4 - Pad8(p + 4), Overlay(len, k, m))
  {
    var len, pad := Bytes(LenBytes(|body|)), Gaps(Pad8(p + 4));
    if body == [] {
      assert Item(p, body) == len;
    } else {
      OverlayConcat(len, pad + body, k, m);
      OverlayConcat(pad, body, k - 4, Overlay(len, k, m));
      OverlayGaps(|pad|, k - 4, Overlay(len, k, m));
      assert Item(p, body) == len + (pad + body);
    }
  }

  // One turn of pack_in_bufs.
  method PackInBuf(buf: Sbuf, arg: seq<byte>)
    requires buf.Valid() && buf.Pos() + |Item(buf.Pos(), Bytes(arg))| <= INT_MAX
    modifies buf`bufCur, buf.mem
    ensures buf.Valid() && buf.Pos() == old(buf.Pos()) + |Item(old(buf.Pos()), Bytes(arg))|
    ensures buf.mem[..] == Overlay(Item(old(buf.Pos()), Bytes(arg)), buf.Off() - old(buf.Pos()), old(buf.mem[..]))
  {
    hide Overlay, Pad8, LenBytes;
    ItemOverlay(buf.Pos(), Bytes(arg), buf.Off() - buf.Pos(), buf.mem[..]);
    var len := |arg|;
    buf.Write(LenBytes(len));
    if len != 0 {
      buf.Align8();
      buf.Write(arg);
    }
  }

  // pack_in_bufs: memory becomes the overlay of the laid out buffers, whatever
  // part of the stream it is a window on.
  method PackInBufs(buf: Sbuf, args: seq<seq<byte>>)
    requires buf.Valid() && buf.Pos() + |Items(buf.Pos(), InBodies(args))| <= INT_MAX
    modifies buf`bufCur, buf.mem
    ensures buf.Valid() && buf.Pos() == old(buf.Pos()) + |Items(old(buf.Pos()), InBodies(args))|
    ensures buf.mem[..] == Overlay(Items(old(buf.Pos()), InBodies(args)), buf.Off() - old(buf.Pos()), old(buf.mem[..]))
  {
    hide Overlay, Item, Items, Start, InBodies;
    ghost var p, m, bodies := buf.Pos(), buf.mem[..], InBodies(args);
    ItemsNone(p, buf.Off() - p, m, bodies);
    InBodiesLength(args);
    StartAll(p, bodies);
    for ii := 0 to |args|
      invariant buf.Valid() && buf.Pos() == p + |Items(p, bodies[..ii])|
      invariant buf.mem[..] == Overlay(Items(p, bodies[..ii]), buf.Off() - p, m)
    {
      StartIs(p, bodies, ii);
      StartStep(p, bodies, ii);
      StartMonotone(p, bodies, ii + 1, |bodies|);
      BodyFacts(args, ii);
      OverlayConcat(Items(p, bodies[..ii]), Item(Start(p, bodies, ii), bodies[ii]), buf.Off() - p, m);
      PackInBuf(buf, args[ii]);
    }
    assert bodies[..|bodies|] == bodies;
  }

  lemma StartIs(p: int, bodies: seq<seq<Cell>>, k: nat)
    requires k < |bodies|
    ensures Start(p, bodies, k) == p + |Items(p, bodies[..k])|
    ensures Start(p, bodies, k + 1) == p + |Items(p, bodies[..k + 1])|
  {
  }

  // pack_out_lens
  method PackOutLens(buf: Sbuf, lens: seq<nat>)
    requires buf.Valid() && buf.Pos() + 4 * |lens| <= INT_MAX
    modifies buf`bufCur, buf.mem
    ensures buf.Valid() && buf.Pos() == old(buf.Pos()) + 4 * |lens|
    ensures buf.mem[..] == Overlay(LenCells(lens), buf.Off() - old(buf.Pos()), old(buf.mem[..]))
  {
    hide Overlay, LenBytes;
    ghost var p, m := buf.Pos(), buf.mem[..];
    OverlayGaps(0, buf.Off() - p, m);
    for ii := 0 to |lens|
      invariant buf.Valid() && buf.Pos() == p + 4 * ii && |LenCells(lens[..ii])| == 4 * ii
      invariant buf.mem[..] == Overlay(LenCells(lens[..ii]), buf.Off() - p, m)
    {
      assert lens[..ii + 1][..ii] == lens[..ii];
      OverlayConcat(LenCells(lens[..ii]), Bytes(LenBytes(lens[ii])), buf.Off() - p, m);
      buf.Write(LenBytes(lens[ii]));
    }
    assert lens[..|lens|] == lens;
  }

  // The whole message of a reverse call.
  function Message(args: seq<seq<byte>>, lens: seq<nat>): seq<Cell> {
    Items(0, InBodies(args)) + LenCells(lens)
  }

  // Pack the message through one window: mem becomes the slice of the message
  // that starts at offset. With an empty mem this only measures.
  method PackMessage(args: seq<seq<byte>>, lens: seq<nat>, mem: array<byte>, address: int, offset: int)
    returns (needed: int)
    requires -1 <= offset + mem.Length <= INT_MAX
    requires |Items(0, InBodies(args))| + 4 * |lens| <= INT_MAX
    modifies mem
    ensures mem[..] == Overlay(Message(args, lens), offset, old(mem[..]))
    ensures needed == |Message(args, lens)|
  {
    hide Overlay;
    var buf := new Sbuf(offset, mem, address);
    LenCellsLength(lens);
    OverlayConcat(Items(0, InBodies(args)), LenCells(lens), offset, mem[..]);
    PackInBufs(buf, args);
    PackOutLens(buf, lens);
    needed := buf.Needed();
  }

  lemma {:induction false} LenCellsLength(lens: seq<nat>)
    ensures |LenCells(lens)| == 4 * |lens|
  {
    if lens != [] {
      LenCellsLength(lens[..|lens| - 1]);
    }
  }

  // Windows in a row: parts[i] starts where parts[i - 1] ends.
  function Windows(cells: seq<Cell>, offset: int, parts: seq<seq<byte>>): seq<byte>
    decreases |parts|
  {
    if parts == [] then []
    else Overlay(cells, offset, parts[0]) + Windows(cells, offset + |parts[0]|, parts[1..])
  }

  function Flatten(parts: seq<seq<byte>>): seq<byte> {
    if parts == [] then [] else parts[0] + Flatten(parts[1..])
  }

  // However the memory is cut into windows, packing through each of them
  // writes exactly what packing once writes.
  lemma {:induction false} AnyPartition(cells: seq<Cell>, offset: int, parts: seq<seq<byte>>)
    ensures Windows(cells, offset, parts) == Overlay(cells, offset, Flatten(parts))
    decreases |parts|
  {
    if parts != [] {
      AnyPartition(cells, offset + |parts[0]|, parts[1..]);
      OverlaySplit(cells, offset, parts[0], Flatten(parts[1..]));
    }
  }

  ghost function Contents(parts: seq<array<byte>>): (c: seq<seq<byte>>)
    reads parts
    ensures |c| == |parts| && forall i :: 0 <= i < |parts| ==> c[i] == parts[i][..]
  {
    seq(|parts|, i requires 0 <= i < |parts| reads parts => parts[i][..])
  }

  // Pack the same message through every window of a partition, each from the
  // start: together the memories hold what packing once into all of it writes,
  // and every pass reports the same size.
  method PackWindows(args: seq<seq<byte>>, lens: seq<nat>, parts: seq<array<byte>>, offset: int)
    returns (needed: seq<int>)
    requires Distinct(parts) && forall k :: 0 <= k <= |parts| ==> -1 <= offset + Reach(parts, k) <= INT_MAX
    requires |Items(0, InBodies(args))| + 4 * |lens| <= INT_MAX
    modifies parts
    ensures Flatten(Contents(parts)) == Overlay(Message(args, lens), offset, Flatten(old(Contents(parts))))
    ensures needed == seq(|parts|, _ => |Message(args, lens)|)
  {
    hide Items, InBodies, LenCells, Overlay, Message, Reach, Contents;
    ReachNone(parts);
    ghost var was, now := Contents(parts), Contents(parts);
    var at := offset;
    needed := [];
    for k := 0 to |parts|
      invariant at == offset + Reach(parts, k) && now == Contents(parts)
      invariant needed == seq(k, _ => |Message(args, lens)|)
      invariant forall i :: k <= i < |parts| ==> now[i] == was[i]
      invariant forall i :: 0 <= i < k ==> now[i] == Overlay(Message(args, lens), offset + Reach(parts, i), was[i])
    {
      ReachStep(parts, k);
      var n := PackWindow(args, lens, parts, k, at);
      now := now[k := Overlay(Message(args, lens), at, now[k])];
      needed := needed + [n];
      at := at + parts[k].Length;
    }
    WindowsAre(Message(args, lens), offset, parts, was, now, 0);
    assert was[0..] == was && now[0..] == now;
    AnyPartition(Message(args, lens), offset, was);
  }

  // One of the windows.
  method PackWindow(args: seq<seq<byte>>, lens: seq<nat>, parts: seq<array<byte>>, k: nat, at: int) returns (n: int)
    requires Distinct(parts) && k < |parts| && -1 <= at + parts[k].Length <= INT_MAX
    requires |Items(0, InBodies(args))| + 4 * |lens| <= INT_MAX
    modifies parts[k]
    ensures Contents(parts) == old(Contents(parts))[k := Overlay(Message(args, lens), at, old(Contents(parts))[k])]
    ensures n == |Message(args, lens)|
  {
    hide Items, InBodies, LenCells, Overlay, Message, Distinct;
    OthersDiffer(parts, k);
    n := PackMessage(args, lens, parts[k], 0, at);
  }

  // The total length of the first k windows.
  ghost function Reach(parts: seq<array<byte>>, k: nat): nat
    requires k <= |parts|
  {
    if k == 0 then 0 else Reach(parts, k - 1) + parts[k - 1].Length
  }

  lemma OthersDiffer(parts: seq<array<byte>>, k: nat)
    requires Distinct(parts) && k < |parts|
    ensures forall i :: 0 <= i < |parts| && i != k ==> parts[i] != parts[k]
  {
  }

  lemma ReachNone(parts: seq<array<byte>>)
    ensures Reach(parts, 0) == 0
  {
  }

  lemma ReachStep(parts: seq<array<byte>>, k: nat)
    requires k < |parts|
    ensures Reach(parts, k + 1) == Reach(parts, k) + parts[k].Length
  {
  }

  lemma {:induction false} WindowsAre(cells: seq<Cell>, offset: int, parts: seq<array<byte>>,
                                      was: seq<seq<byte>>, now: seq<seq<byte>>, k: nat)
    requires k <= |parts| == |was| == |now|
    requires forall i :: 0 <= i < |parts| ==> |was[i]| == parts[i].Length
    requires forall i :: k <= i < |parts| ==> now[i] == Overlay(cells, offset + Reach(parts, i), was[i])
    ensures Flatten(now[k..]) == Windows(cells, offset + Reach(parts, k), was[k..])
    decreases |parts| - k
  {
    hide Overlay;
    if k < |parts| {
      WindowsAre(cells, offset, parts, was, now, k + 1);
      assert now[k..][1..] == now[k + 1..] && was[k..][1..] == was[k + 1..];
    }
  }

  lemma OverlaySplit(cells: seq<Cell>, k: int, a: seq<byte>, b: seq<byte>)
    ensures Overlay(cells, k, a + b) == Overlay(cells, k, a) + Overlay(cells, k + |a|, b)
  {
  }

  // ----- unpacking -----

  // remote_arg: a pointer and a length.
  datatype RemoteArg = RemoteArg(pv: int, nLen: nat)

  // The memory a cursor reads: m[0] at stream position off, at address
  // start + off.
  datatype Window = Window(m: seq<byte>, off: int, start: int)

  // The position reached and the length variable, which keeps its value when
  // the word lies outside the memory.
  datatype Cursor = Cursor(pos: int, len: nat)

  function ReadLen(w: Window, c: Cursor): nat {
    FromBytes(Fetch(w.m, w.off, c.pos, LenBytes(c.len)))
  }

  // One turn of unpack_in_bufs: the cursor after it, and the slot it fills.
  function TakeIn(w: Window, c: Cursor): Cursor {
    var len, s := ReadLen(w, c), c.pos + 4;
    if len == 0 then Cursor(s, 0) else Cursor(s + Pad8(s) + ToInt32(len), len)
  }

  function SlotIn(w: Window, c: Cursor, was: RemoteArg): RemoteArg {
    var len, s := ReadLen(w, c), c.pos + 4;
    var b := s + Pad8(s);
    if len == 0 then was.(nLen := 0)
    else RemoteArg(if ToInt32(len) <= w.off + |w.m| - b then w.start + b else was.pv, len)
  }

  // The turn keeps the cursor on the stream, and below 2^31. A length word of
  // 2^31 or more moves it backwards.
  predicate Room(w: Window, c: Cursor) {
    var len, s := ReadLen(w, c), c.pos + 4;
    s <= INT_MAX && (len != 0 ==> s + Pad8(s) <= INT_MAX && 0 <= s + Pad8(s) + ToInt32(len) <= INT_MAX)
  }

  function CursorIn(w: Window, c: Cursor, n: nat): Cursor {
    if n == 0 then c else TakeIn(w, CursorIn(w, c, n - 1))
  }

  function CursorLens(w: Window, c: Cursor, n: nat): Cursor {
    if n == 0 then c
    else
      var before := CursorLens(w, c, n - 1);
      Cursor(before.pos + 4, ReadLen(w, before))
  }

  ghost function WindowOf(buf: Sbuf): Window
    reads buf, buf.mem
  {
    Window(buf.mem[..], buf.Off(), buf.bufStart)
  }

  lemma CursorInStep(w: Window, c: Cursor, n: nat)
    ensures CursorIn(w, c, n + 1) == TakeIn(w, CursorIn(w, c, n)) && CursorIn(w, c, 0) == c
  {
  }

  // One turn of unpack_in_bufs.
  method UnpackInBuf(buf: Sbuf, arg: RemoteArg, len: nat) returns (arg': RemoteArg, len': nat)
    requires buf.Valid() && Room(WindowOf(buf), Cursor(buf.Pos(), len))
    modifies buf`bufCur
    ensures buf.Valid() && WindowOf(buf) == old(WindowOf(buf))
    ensures Cursor(buf.Pos(), len') == TakeIn(WindowOf(buf), Cursor(old(buf.Pos()), len))
    ensures arg' == SlotIn(WindowOf(buf), Cursor(old(buf.Pos()), len), arg)
    ensures len' == ReadLen(WindowOf(buf), Cursor(old(buf.Pos()), len)) == arg'.nLen
    ensures var s := old(buf.Pos()) + 4;
            var b := s + Pad8(s);
            && buf.Pos() == (if len' == 0 then s else b + ToInt32(len'))
            && arg'.pv == if len' != 0 && b + ToInt32(len') <= buf.Off() + buf.mem.Length then buf.bufStart + b
                          else arg.pv
  {
    hide LenBytes, FromBytes, Fetch, Pad8, ToInt32;
    var word := buf.Read(LenBytes(len));
    len' := FromBytes(word);
    arg' := arg.(nLen := len');
    if arg'.nLen != 0 {
      buf.Align8();
      var left := buf.Left();
      if ToInt32(arg'.nLen) <= left {
        arg' := arg'.(pv := buf.bufCur);
      }
      buf.Advance(ToInt32(arg'.nLen));
    }
  }

  // A slot that is given a pointer stays inside the memory exactly when its
  // length word is below 2^31, for the comparison is one of ints, and the memory
  // does not begin after the place, as it never does at offset 0.
  lemma InsideIff(w: Window, c: Cursor, was: RemoteArg)
    requires 0 <= c.pos && w.off + |w.m| <= INT_MAX
    requires var len, s := ReadLen(w, c), c.pos + 4; len != 0 && ToInt32(len) <= w.off + |w.m| - s - Pad8(s)
    ensures var slot, first, s := SlotIn(w, c, was), w.start + w.off, c.pos + 4;
            first <= slot.pv && slot.pv + slot.nLen <= first + |w.m|
            <==> ReadLen(w, c) <= INT_MAX && w.off <= s + Pad8(s)
  {
    hide ReadLen, Pad8;
  }

  // Four bytes whose word, as an int, is -8: the slot is given an address, and
  // the cursor goes back to the start.
  lemma PointsOutside(start: int, was: RemoteArg)
    ensures var w, c := Window([248, 255, 255, 255], 0, start), Cursor(0, 0);
            && Room(w, c) && TakeIn(w, c).pos == 0
            && SlotIn(w, c, was) == RemoteArg(start + 8, 0xFFFF_FFF8)
  {
    var w, c := Window([248, 255, 255, 255], 0, start), Cursor(0, 0);
    assert Fetch(w.m, 0, 0, LenBytes(0)) == [248, 255, 255, 255];
    assert ReadLen(w, c) == 0xFFFF_FFF8;
    assert Pad8(4) == 4;
    hide ReadLen, Pad8;
  }

  // unpack_in_bufs on any memory, as long as the lengths found in it keep the
  // cursor on the stream.
  method UnpackInBufs(buf: Sbuf, pra: array<RemoteArg>, nBufs: nat)
    requires buf.Valid() && nBufs <= pra.Length
    requires forall i :: 0 <= i < nBufs ==> Room(WindowOf(buf), CursorIn(WindowOf(buf), Cursor(buf.Pos(), 0), i))
    modifies buf`bufCur, pra
    ensures buf.Valid() && WindowOf(buf) == old(WindowOf(buf))
    ensures buf.Pos() == CursorIn(WindowOf(buf), Cursor(old(buf.Pos()), 0), nBufs).pos
    ensures forall i :: 0 <= i < nBufs ==>
              pra[i] == SlotIn(WindowOf(buf), CursorIn(WindowOf(buf), Cursor(old(buf.Pos()), 0), i), old(pra[i]))
    ensures forall i :: nBufs <= i < pra.Length ==> pra[i] == old(pra[i])
  {
    hide TakeIn, SlotIn, CursorIn, Room;
    ghost var w, c0, slots := WindowOf(buf), Cursor(buf.Pos(), 0), pra[..];
    var len := 0;
    CursorInStep(w, c0, 0);
    for ii := 0 to nBufs
      invariant buf.Valid() && WindowOf(buf) == w && Cursor(buf.Pos(), len) == CursorIn(w, c0, ii)
      invariant forall i :: 0 <= i < ii ==> pra[i] == SlotIn(w, CursorIn(w, c0, i), slots[i])
      invariant forall i :: ii <= i < pra.Length ==> pra[i] == slots[i]
    {
      CursorInStep(w, c0, ii);
      pra[ii], len := UnpackInBuf(buf, pra[ii], len);
    }
  }

  // unpack_out_lens
  method UnpackOutLens(buf: Sbuf, pra: array<RemoteArg>, nBufs: nat)
    requires buf.Valid() && nBufs <= pra.Length && buf.Pos() + 4 * nBufs <= INT_MAX
    modifies buf`bufCur, pra
    ensures buf.Valid() && WindowOf(buf) == old(WindowOf(buf)) && buf.Pos() == old(buf.Pos()) + 4 * nBufs
    ensures forall i :: 0 <= i < nBufs ==>
              pra[i] == old(pra[i]).(nLen := CursorLens(WindowOf(buf), Cursor(old(buf.Pos()), 0), i + 1).len)
    ensures forall i :: nBufs <= i < pra.Length ==> pra[i] == old(pra[i])
  {
    hide LenBytes, FromBytes, Fetch;
    ghost var w, c0, slots := WindowOf(buf), Cursor(buf.Pos(), 0), pra[..];
    var len := 0;
    for ii := 0 to nBufs
      invariant buf.Valid() && WindowOf(buf) == w && Cursor(buf.Pos(), len) == CursorLens(w, c0, ii)
      invariant buf.Pos() == c0.pos + 4 * ii
      invariant forall i :: 0 <= i < ii ==> pra[i] == slots[i].(nLen := CursorLens(w, c0, i + 1).len)
      invariant forall i :: ii <= i < pra.Length ==> pra[i] == slots[i]
    {
      var word := buf.Read(LenBytes(len));
      len := FromBytes(word);
      pra[ii] := pra[ii].(nLen := len);
    }
  }

  // ----- the round trip of input buffers and output lengths -----

  // The memory holds the cells from position p on.
  ghost predicate Holds(w: Window, p: int, cells: seq<Cell>) {
    && w.off <= p && p + |cells| <= w.off + |w.m|
    && forall i {:trigger cells[i]} :: 0 <= i < |cells| && cells[i].Byte? ==> w.m[p + i - w.off] == cells[i].value
  }

  lemma OverlayHolds(w: Window, cells: seq<Cell>, before: seq<byte>)
    requires w.m == Overlay(cells, w.off, before) && w.off <= 0 && |cells| <= w.off + |w.m|
    ensures Holds(w, 0, cells)
  {
    forall i {:trigger cells[i]} | 0 <= i < |cells| && cells[i].Byte? ensures w.m[i - w.off] == cells[i].value {
      assert 0 <= (i - w.off) + w.off < |cells|;
    }
  }

  lemma HoldsPart(w: Window, p: int, cells: seq<Cell>, i: nat, j: nat)
    requires Holds(w, p, cells) && i <= j <= |cells|
    ensures Holds(w, p + i, cells[i..j])
  {
    var part := cells[i..j];
    forall k {:trigger part[k]} | 0 <= k < |part| && part[k].Byte? ensures w.m[p + i + k - w.off] == part[k].value {
      assert cells[i + k] == part[k];
    }
  }

  lemma ReadWord(w: Window, c: Cursor, n: nat)
    requires Holds(w, c.pos, Bytes(LenBytes(n))) && n < 0x1_0000_0000
    ensures ReadLen(w, c) == n
  {
    hide FromBytes, Holds, Fetch, LenBytes;
    FetchHeld(w, c.pos, LenBytes(n), LenBytes(c.len));
    LenRoundTrip(n);
  }

  lemma FetchHeld(w: Window, p: int, s: seq<byte>, dst: seq<byte>)
    requires Holds(w, p, Bytes(s)) && |dst| == |s|
    ensures Fetch(w.m, w.off, p, dst) == s
  {
    var cells := Bytes(s);
    forall j | 0 <= j < |s| ensures Fetch(w.m, w.off, p, dst)[j] == s[j] {
      assert cells[j] == Byte(s[j]);
    }
  }

  ghost predicate Small(bodies: seq<seq<Cell>>) {
    forall i {:trigger bodies[i]} :: 0 <= i < |bodies| ==> |bodies[i]| <= INT_MAX
  }

  lemma WordAt(w: Window, p: int, bodies: seq<seq<Cell>>, k: nat, c: Cursor)
    requires Holds(w, p, Items(p, bodies)) && Small(bodies) && k < |bodies| && c.pos == Start(p, bodies, k)
    ensures ReadLen(w, c) == |bodies[k]|
  {
    hide Items, Start, LenBytes, ReadLen, Bytes;
    ItemAt(p, bodies, k);
    var s := Start(p, bodies, k) - p;
    HoldsPart(w, p, Items(p, bodies), s, s + 4);
    ReadWord(w, c, |bodies[k]|);
  }

  // The unpacking cursor retraces the packing one.
  lemma {:induction false} Retrace(w: Window, p: int, bodies: seq<seq<Cell>>, k: nat, len: nat)
    requires Holds(w, p, Items(p, bodies)) && Small(bodies) && k <= |bodies|
    ensures CursorIn(w, Cursor(p, len), k).pos == Start(p, bodies, k)
  {
    hide Items, Start, Holds, Small, ReadLen, Pad8, ToInt32;
    if k == 0 {
      StartZero(p, bodies);
    } else {
      StartUnfolds(p, bodies, k - 1);
      ToInt32OfSmall(bodies, k - 1);
      Retrace(w, p, bodies, k - 1, len);
      WordAt(w, p, bodies, k - 1, CursorIn(w, Cursor(p, len), k - 1));
      StartStep(p, bodies, k - 1);
    }
  }

  lemma ToInt32OfSmall(bodies: seq<seq<Cell>>, k: nat)
    requires Small(bodies) && k < |bodies|
    ensures ToInt32(|bodies[k]|) == |bodies[k]| <= INT_MAX
  {
    ToInt32Exact(|bodies[k]|);
  }

  // Unpacking what was packed keeps the cursor on the stream.
  lemma RoomWhenPacked(w: Window, p: int, bodies: seq<seq<Cell>>, k: nat, len: nat)
    requires Holds(w, p, Items(p, bodies)) && Small(bodies) && k < |bodies|
    requires 0 <= p && w.off + |w.m| <= INT_MAX
    ensures Room(w, CursorIn(w, Cursor(p, len), k))
  {
    hide Items, Start, Holds, Small, ReadLen, Pad8, ToInt32, CursorIn, BodyAt;
    HoldsBounds(w, p, Items(p, bodies));
    Retrace(w, p, bodies, k, len);
    WordAt(w, p, bodies, k, CursorIn(w, Cursor(p, len), k));
    ToInt32OfSmall(bodies, k);
    StartUnfolds(p, bodies, k);
    StartStep(p, bodies, k);
    StartMonotone(p, bodies, k + 1, |bodies|);
    StartAll(p, bodies);
  }

  lemma StartZero(p: int, bodies: seq<seq<Cell>>)
    ensures Start(p, bodies, 0) == p
  {
  }

  // The k-th slot gets the length of the k-th buffer and, unless it is empty,
  // a pointer to a copy of its bytes.
  lemma InBufRoundTrip(w: Window, p: int, args: seq<seq<byte>>, k: nat, len: nat, was: RemoteArg)
    requires Holds(w, p, Items(p, InBodies(args))) && Small(InBodies(args)) && k < |args|
    ensures var slot := SlotIn(w, CursorIn(w, Cursor(p, len), k), was);
            && slot.nLen == |args[k]|
            && (args[k] != [] ==>
                  var at := slot.pv - w.start - w.off;
                  0 <= at && at + |args[k]| <= |w.m| && w.m[at..at + |args[k]|] == args[k])
  {
    hide Items, Start, BodyAt, CursorIn, ReadLen, Bytes, InBodies, Holds, Small, Pad8, ToInt32;
    var bodies := InBodies(args);
    BodyFacts(args, k);
    ToInt32OfSmall(bodies, k);
    StartUnfolds(p, bodies, k);
    HoldsBounds(w, p, Items(p, bodies));
    Retrace(w, p, bodies, k, len);
    WordAt(w, p, bodies, k, CursorIn(w, Cursor(p, len), k));
    ItemAt(p, bodies, k);
    if args[k] != [] {
      var b := BodyAt(p, bodies, k) - p;
      HoldsPart(w, p, Items(p, bodies), b, b + |args[k]|);
      BodyBytes(w, p + b, args[k]);
    }
  }

  lemma BodyFacts(args: seq<seq<byte>>, k: nat)
    requires k < |args|
    ensures |InBodies(args)| == |args| && InBodies(args)[k] == Bytes(args[k]) && |Bytes(args[k])| == |args[k]|
  {
  }

  lemma HoldsBounds(w: Window, p: int, cells: seq<Cell>)
    requires Holds(w, p, cells)
    ensures w.off <= p && p + |cells| <= w.off + |w.m|
  {
  }

  lemma BodyBytes(w: Window, b: int, s: seq<byte>)
    requires Holds(w, b, Bytes(s))
    ensures w.m[b - w.off..b - w.off + |s|] == s
  {
    var cells := Bytes(s);
    assert forall i :: 0 <= i < |s| ==> cells[i] == Byte(s[i]);
  }

  lemma {:induction false} LensRoundTrip(w: Window, p: int, lens: seq<nat>, k: nat, len: nat)
    requires Holds(w, p, LenCells(lens)) && k <= |lens|
    requires forall i :: 0 <= i < |lens| ==> lens[i] < 0x1_0000_0000
    ensures CursorLens(w, Cursor(p, len), k).pos == p + 4 * k
    ensures k > 0 ==> CursorLens(w, Cursor(p, len), k).len == lens[k - 1]
  {
    if k > 0 {
      LensRoundTrip(w, p, lens, k - 1, len);
      LenCellAt(lens, k - 1);
      LenCellsLength(lens);
      HoldsPart(w, p, LenCells(lens), 4 * (k - 1), 4 * k);
      ReadWord(w, CursorLens(w, Cursor(p, len), k - 1), lens[k - 1]);
    }
  }

  lemma {:induction false} LenCellAt(lens: seq<nat>, k: nat)
    requires k < |lens|
    ensures |LenCells(lens)| == 4 * |lens| && LenCells(lens)[4 * k..4 * k + 4] == Bytes(LenBytes(lens[k]))
  {
    LenCellsLength(lens);
    var front := lens[..|lens| - 1];
    LenCellsLength(front);
    if k < |front| {
      LenCellAt(front, k);
      assert LenCells(lens)[4 * k..4 * k + 4] == LenCells(front)[4 * k..4 * k + 4];
    }
  }

  // The two parts of a packed message are there.
  lemma PartsHeld(w: Window, args: seq<seq<byte>>, lens: seq<nat>, before: seq<byte>)
    requires w.off == 0 && w.m == Overlay(Message(args, lens), 0, before) && |Message(args, lens)| <= |w.m| <= INT_MAX
    ensures var items := Items(0, InBodies(args));
            && Holds(w, 0, items) && Holds(w, |items|, LenCells(lens)) && Small(InBodies(args))
            && |Message(args, lens)| == |items| + 4 * |lens| && |InBodies(args)| == |args|
  {
    hide Items, LenCells, Holds, Small, InBodies, Overlay;
    var items, message := Items(0, InBodies(args)), Message(args, lens);
    OverlayHolds(w, message, before);
    HoldsPart(w, 0, message, 0, |items|);
    HoldsPart(w, 0, message, |items|, |message|);
    assert message[0..|items|] == items && message[|items|..|message|] == LenCells(lens);
    SmallBodies(w, 0, InBodies(args));
    LenCellsLength(lens);
    InBodiesLength(args);
  }

  // Unpacking a packed message recovers every length and the bytes of every
  // input buffer, and ends where packing ended.
  lemma MessageRoundTrip(w: Window, args: seq<seq<byte>>, lens: seq<nat>, k: nat, j: nat,
                         was: RemoteArg, before: seq<byte>)
    requires w.off == 0 && w.m == Overlay(Message(args, lens), 0, before) && |Message(args, lens)| <= |w.m| <= INT_MAX
    requires forall i :: 0 <= i < |lens| ==> lens[i] < 0x1_0000_0000
    ensures var c := CursorIn(w, Cursor(0, 0), |args|);
            && c.pos == |Items(0, InBodies(args))|
            && CursorLens(w, Cursor(c.pos, 0), |lens|).pos == |Message(args, lens)|
            && (j < |lens| ==> CursorLens(w, Cursor(c.pos, 0), j + 1).len == lens[j])
    ensures k < |args| ==>
              var slot := SlotIn(w, CursorIn(w, Cursor(0, 0), k), was);
              && Room(w, CursorIn(w, Cursor(0, 0), k)) && slot.nLen == |args[k]|
              && (args[k] != [] ==>
                    var at := slot.pv - w.start;
                    0 <= at && at + |args[k]| <= |w.m| && w.m[at..at + |args[k]|] == args[k])
  {
    hide Items, LenCells, CursorIn, CursorLens, SlotIn, Holds, Small, InBodies, Overlay, Start, Room, Message;
    PartsHeld(w, args, lens, before);
    var bodies := InBodies(args);
    var items := Items(0, bodies);
    StartAll(0, bodies);
    if k < |args| {
      RoomWhenPacked(w, 0, bodies, k, 0);
      InBufRoundTrip(w, 0, args, k, 0, was);
    }
    Retrace(w, 0, bodies, |bodies|, 0);
    LensRoundTrip(w, |items|, lens, |lens|, 0);
    if j < |lens| {
      LensRoundTrip(w, |items|, lens, j + 1, 0);
    }
  }

  lemma InBodiesLength(args: seq<seq<byte>>)
    ensures |InBodies(args)| == |args|
  {
  }

  lemma SmallBodies(w: Window, p: int, bodies: seq<seq<Cell>>)
    requires Holds(w, p, Items(p, bodies)) && |w.m| <= INT_MAX
    ensures Small(bodies)
  {
    forall i {:trigger bodies[i]} | 0 <= i < |bodies| ensures |bodies[i]| <= INT_MAX {
      ItemAt(p, bodies, i);
    }
  }

  // ----- output buffers -----

  // One turn of pack_out_bufs: the body is left as it is, the slot may get a
  // pointer to it.
  method PackOutBuf(buf: Sbuf, arg: RemoteArg) returns (arg': RemoteArg)
    requires buf.Valid() && buf.Pos() + |Item(buf.Pos(), Gaps(arg.nLen))| <= INT_MAX
    modifies buf`bufCur, buf.mem
    ensures buf.Valid() && buf.Pos() == old(buf.Pos()) + |Item(old(buf.Pos()), Gaps(arg.nLen))|
    ensures buf.mem[..] == Overlay(Item(old(buf.Pos()), Gaps(arg.nLen)), buf.Off() - old(buf.Pos()), old(buf.mem[..]))
    ensures var b := old(buf.Pos()) + 4 + Pad8(old(buf.Pos()) + 4);
            arg' == if arg.nLen != 0 && arg.nLen <= buf.Off() + buf.mem.Length - b
                    then arg.(pv := buf.bufStart + b) else arg
  {
    hide Overlay, Pad8, LenBytes, ToInt32;
    ghost var p, k := buf.Pos(), buf.Off() - buf.Pos();
    ItemOverlay(p, Gaps(arg.nLen), k, buf.mem[..]);
    arg' := arg;
    buf.Write(LenBytes(arg.nLen));
    OverlayGaps(arg.nLen, k - 4 - Pad8(p + 4), buf.mem[..]);
    if arg.nLen != 0 {
      buf.Align8();
      var left := buf.Left();
      ToInt32Exact(arg.nLen);
      if ToInt32(arg.nLen) <= left {
        arg' := arg'.(pv := buf.bufCur);
      }
      buf.Advance(ToInt32(arg.nLen));
    }
  }

  function Lens(args: seq<RemoteArg>): seq<nat> {
    seq(|args|, i requires 0 <= i < |args| => args[i].nLen)
  }

  // pack_out_bufs: the length words are written, every body region is handed
  // out as a pointer, and nothing else changes.
  method PackOutBufs(buf: Sbuf, pra: array<RemoteArg>)
    requires buf.Valid() && buf.Pos() + |Items(buf.Pos(), OutBodies(Lens(pra[..])))| <= INT_MAX
    requires buf.mem as object != pra
    modifies buf`bufCur, buf.mem, pra
    ensures var p, bodies := old(buf.Pos()), OutBodies(Lens(old(pra[..])));
            && buf.Valid() && buf.Pos() == p + |Items(p, bodies)|
            && buf.mem[..] == Overlay(Items(p, bodies), buf.Off() - p, old(buf.mem[..]))
            && forall i :: 0 <= i < pra.Length ==>
                 var arg, b := old(pra[i]), BodyAt(p, bodies, i);
                 pra[i] == if arg.nLen != 0 && arg.nLen <= buf.Off() + buf.mem.Length - b
                           then arg.(pv := buf.bufStart + b) else arg
  {
    hide Overlay, Item, Items, Start, Pad8;
    ghost var p, m, args := buf.Pos(), buf.mem[..], pra[..];
    ghost var bodies := OutBodies(Lens(args));
    ItemsNone(p, buf.Off() - p, m, bodies);
    for ii := 0 to pra.Length
      invariant buf.Valid() && buf.Pos() == Start(p, bodies, ii)
      invariant buf.mem[..] == Overlay(Items(p, bodies[..ii]), buf.Off() - p, m)
      invariant forall i :: ii <= i < pra.Length ==> pra[i] == args[i]
      invariant forall i :: 0 <= i < ii ==>
                  pra[i] == if args[i].nLen != 0 && args[i].nLen <= buf.Off() + buf.mem.Length - BodyAt(p, bodies, i)
                            then args[i].(pv := buf.bufStart + BodyAt(p, bodies, i)) else args[i]
    {
      StartIs(p, bodies, ii);
      StartStep(p, bodies, ii);
      StartMonotone(p, bodies, ii + 1, |bodies|);
      StartAll(p, bodies);
      OverlayConcat(Items(p, bodies[..ii]), Item(Start(p, bodies, ii), bodies[ii]), buf.Off() - p, m);
      pra[ii] := PackOutBuf(buf, pra[ii]);
    }
    StartAll(p, bodies);
    assert bodies[..|bodies|] == bodies;
  }

  lemma ItemsNone(p: int, k: int, m: seq<byte>, bodies: seq<seq<Cell>>)
    ensures Items(p, bodies[..0]) == [] && Overlay([], k, m) == m && Start(p, bodies, 0) == p
  {
    OverlayGaps(0, k, m);
  }

  // unpack_out_bufs: bufs[i] is what the caller's i-th buffer holds, lens[i]
  // its length; word is what the length variable holds before the first read.
  // A length word that differs stops the copying.
  method UnpackOutBufs(buf: Sbuf, lens: seq<nat>, bufs: array<seq<byte>>, word: nat) returns (ok: bool)
    requires buf.Valid() && buf.Pos() + |Items(buf.Pos(), OutBodies(lens))| <= INT_MAX
    requires bufs.Length == |lens| && forall i :: 0 <= i < |lens| ==> |bufs[i]| == lens[i]
    modifies buf`bufCur, bufs
    ensures WindowOf(buf) == old(WindowOf(buf))
    ensures ok <==> forall i :: 0 <= i < |lens| ==> WordMatches(WindowOf(buf), old(buf.Pos()), lens, i, word)
    ensures ok ==> forall i :: 0 <= i < |lens| ==>
              var w, b := WindowOf(buf), BodyAt(old(buf.Pos()), OutBodies(lens), i);
              bufs[i] == Fetch(w.m, w.off, b, old(bufs[i]))
    ensures ok ==> buf.Pos() == Start(old(buf.Pos()), OutBodies(lens), |lens|)
    ensures !ok ==> exists n ::
              Stopped(WindowOf(buf), old(buf.Pos()), lens, word, old(bufs[..]), bufs[..], buf.Pos(), n)
  {
    hide LenBytes, FromBytes, Fetch, Items, Start, Pad8, WordMatches, Stopped;
    ghost var w, p, bodies, before := WindowOf(buf), buf.Pos(), OutBodies(lens), bufs[..];
    var len := word;
    StartZero(p, bodies);
    for ii := 0 to |lens|
      invariant buf.Valid() && WindowOf(buf) == w && buf.Pos() == Start(p, bodies, ii)
      invariant len == if ii == 0 then word else lens[ii - 1]
      invariant forall i :: 0 <= i < ii ==> WordMatches(w, p, lens, i, word)
      invariant forall i :: 0 <= i < ii ==> bufs[i] == Fetch(w.m, w.off, BodyAt(p, bodies, i), before[i])
      invariant forall i :: ii <= i < |lens| ==> bufs[i] == before[i]
    {
      StartStep(p, bodies, ii);
      StartMonotone(p, bodies, ii + 1, |bodies|);
      StartAll(p, bodies);
      WordIs(w, p, lens, ii, word);
      var bytes := buf.Read(LenBytes(len));
      len := FromBytes(bytes);
      if len != lens[ii] {
        StopsHere(w, p, lens, word, before, bufs[..], ii);
        return false;
      }
      if lens[ii] != 0 {
        buf.Align8();
        bufs[ii] := buf.Read(bufs[ii]);
      } else {
        FetchNothing(w, BodyAt(p, bodies, ii), before[ii]);
      }
    }
    ok := true;
  }

  lemma FetchNothing(w: Window, p: int, dst: seq<byte>)
    requires dst == []
    ensures Fetch(w.m, w.off, p, dst) == dst
  {
  }

  // The i-th length word on the stream is the length the caller expects.
  ghost predicate WordMatches(w: Window, p: int, lens: seq<nat>, i: nat, word: nat)
    requires i < |lens|
  {
    ReadLen(w, Cursor(Start(p, OutBodies(lens), i), if i == 0 then word else lens[i - 1])) == lens[i]
  }

  // The buffers before the n-th, whose word is the first that differs, have been
  // fetched, the others are as before, and the cursor is behind the word.
  ghost predicate Stopped(w: Window, p: int, lens: seq<nat>, word: nat, before: seq<seq<byte>>, after: seq<seq<byte>>,
                          pos: int, n: nat) {
    && n < |lens| == |before| == |after|
    && (forall i :: 0 <= i < n ==> WordMatches(w, p, lens, i, word)) && !WordMatches(w, p, lens, n, word)
    && pos == Start(p, OutBodies(lens), n) + 4
    && forall i {:trigger after[i]} :: 0 <= i < |lens| ==>
         after[i] == if i < n then Fetch(w.m, w.off, BodyAt(p, OutBodies(lens), i), before[i]) else before[i]
  }

  lemma WordIs(w: Window, p: int, lens: seq<nat>, i: nat, word: nat)
    requires i < |lens|
    ensures WordMatches(w, p, lens, i, word) <==>
            ReadLen(w, Cursor(Start(p, OutBodies(lens), i), if i == 0 then word else lens[i - 1])) == lens[i]
  {
  }

  lemma StopsHere(w: Window, p: int, lens: seq<nat>, word: nat, before: seq<seq<byte>>, after: seq<seq<byte>>, n: nat)
    requires n < |lens| == |before| == |after|
    requires (forall i :: 0 <= i < n ==> WordMatches(w, p, lens, i, word)) && !WordMatches(w, p, lens, n, word)
    requires forall i :: 0 <= i < n ==> after[i] == Fetch(w.m, w.off, BodyAt(p, OutBodies(lens), i), before[i])
    requires forall i :: n <= i < |lens| ==> after[i] == before[i]
    ensures Stopped(w, p, lens, word, before, after, Start(p, OutBodies(lens), n) + 4, n)
  {
    hide WordMatches;
  }

  // Position x is in the region of some buffer.
  ghost predicate InRegion(p: int, lens: seq<nat>, x: int) {
    exists k :: 0 <= k < |lens| && BodyAt(p, OutBodies(lens), k) <= x < BodyAt(p, OutBodies(lens), k) + lens[k]
  }

  lemma OutBody(lens: seq<nat>, k: nat)
    requires k < |lens|
    ensures |OutBodies(lens)| == |lens| && OutBodies(lens)[k] == Gaps(lens[k]) && |Gaps(lens[k])| == lens[k]
  {
  }

  lemma RegionIsGap(p: int, lens: seq<nat>, i: nat)
    requires i < |Items(p, OutBodies(lens))| && InRegion(p, lens, p + i)
    ensures Items(p, OutBodies(lens))[i].Gap?
  {
    hide Items, BodyAt;
    var bodies, cells := OutBodies(lens), Items(p, OutBodies(lens));
    var k :| 0 <= k < |lens| && BodyAt(p, bodies, k) <= p + i < BodyAt(p, bodies, k) + lens[k];
    OutBody(lens, k);
    ItemAt(p, bodies, k);
    var b := BodyAt(p, bodies, k) - p;
    assert cells[i] == cells[b..b + lens[k]][i - b];
  }

  // Writing into the regions leaves everything else that was packed in place.
  lemma RegionsAreFree(w: Window, w': Window, p: int, lens: seq<nat>)
    requires Holds(w, p, Items(p, OutBodies(lens))) && w'.off == w.off && |w'.m| == |w.m|
    requires forall i :: 0 <= i < |w.m| && w'.m[i] != w.m[i] ==> InRegion(p, lens, i + w.off)
    ensures Holds(w', p, Items(p, OutBodies(lens)))
  {
    hide Items, InRegion;
    var cells := Items(p, OutBodies(lens));
    forall i {:trigger cells[i]} | 0 <= i < |cells| && cells[i].Byte?
      ensures w'.m[p + i - w.off] == cells[i].value
    {
      if w'.m[p + i - w.off] != w.m[p + i - w.off] {
        RegionIsGap(p, lens, i);
      }
    }
  }

  // Over memory that holds the length words, whatever else it holds,
  // unpack_out_bufs succeeds and delivers what is in the regions.
  lemma OutBufRoundTrip(w: Window, p: int, lens: seq<nat>, i: nat, word: nat, dst: seq<byte>)
    requires Holds(w, p, Items(p, OutBodies(lens))) && i < |lens| && |dst| == lens[i]
    requires Small(OutBodies(lens))
    ensures WordMatches(w, p, lens, i, word)
    ensures lens[i] != 0 ==>
              var b := BodyAt(p, OutBodies(lens), i);
              && w.off <= b && b + lens[i] <= w.off + |w.m|
              && Fetch(w.m, w.off, b, dst) == w.m[b - w.off..b - w.off + lens[i]]
  {
    hide Items, Start, BodyAt, ReadLen, Holds, Small;
    var bodies := OutBodies(lens);
    OutBody(lens, i);
    WordAt(w, p, bodies, i, Cursor(Start(p, bodies, i), if i == 0 then word else lens[i - 1]));
    HoldsBounds(w, p, Items(p, bodies));
    BodiesApart(p, bodies, i, i);
    StartMonotone(p, bodies, 0, i);
    StartZero(p, bodies);
  }

  // ----- a reverse call's output buffers, from the first pass to the last -----

  // What the callee does with its i-th output buffer, at address pv.
  method FillRegion(mem: array<byte>, address: int, pv: int, s: seq<byte>)
    requires 0 <= pv - address && pv - address + |s| <= mem.Length
    modifies mem
    ensures mem[..] == Filled(old(mem[..]), pv - address, s)
  {
    forall j | 0 <= j < |s| {
      mem[pv - address + j] := s[j];
    }
  }

  function Filled(m: seq<byte>, at: nat, s: seq<byte>): (r: seq<byte>)
    requires at + |s| <= |m|
    ensures |r| == |m|
  {
    m[..at] + s + m[at + |s|..]
  }

  // m shows the first n fills in their regions, and the rest as it was packed.
  ghost predicate Shown(m: seq<byte>, packed: seq<byte>, lens: seq<nat>, fills: seq<seq<byte>>, n: nat)
    requires n <= |fills| == |lens| && |m| == |packed|
  {
    && (forall i :: 0 <= i < |m| && m[i] != packed[i] ==> InRegion(0, lens, i))
    && forall k :: 0 <= k < n && lens[k] != 0 ==>
         var b := BodyAt(0, OutBodies(lens), k);
         0 <= b && b + lens[k] <= |m| && m[b..b + lens[k]] == fills[k]
  }

  lemma RegionInside(lens: seq<nat>, n: nat)
    requires n < |lens|
    ensures var b := BodyAt(0, OutBodies(lens), n);
            lens[n] != 0 ==> 0 <= b && b + lens[n] <= |Items(0, OutBodies(lens))|
  {
    hide Items, Start, BodyAt;
    var bodies := OutBodies(lens);
    OutBody(lens, n);
    BodiesApart(0, bodies, n, n);
    StartMonotone(0, bodies, 0, n);
    StartZero(0, bodies);
  }

  lemma FillOne(m: seq<byte>, packed: seq<byte>, lens: seq<nat>, fills: seq<seq<byte>>, n: nat)
    requires n < |fills| == |lens| && |m| == |packed| && Shown(m, packed, lens, fills, n) && |fills[n]| == lens[n]
    requires lens[n] != 0 && |Items(0, OutBodies(lens))| <= |m|
    ensures var b := BodyAt(0, OutBodies(lens), n);
            0 <= b && b + lens[n] <= |m| && Shown(Filled(m, b, fills[n]), packed, lens, fills, n + 1)
  {
    hide Items, Start, BodyAt;
    var bodies := OutBodies(lens);
    RegionInside(lens, n);
    var b := BodyAt(0, bodies, n);
    var m' := Filled(m, b, fills[n]);
    forall i | 0 <= i < |m| && m'[i] != packed[i]
      ensures InRegion(0, lens, i)
    {
      if b <= i < b + lens[n] {
        assert bodies == OutBodies(lens);
      } else {
        assert m'[i] == m[i];
      }
    }
    forall k | 0 <= k < n && lens[k] != 0
      ensures var c := BodyAt(0, bodies, k); 0 <= c && c + lens[k] <= |m| && m'[c..c + lens[k]] == fills[k]
    {
      OutBody(lens, k);
      BodiesApart(0, bodies, k, n);
    }
    assert m'[b..b + lens[n]] == fills[n];
  }

  lemma FillNone(m: seq<byte>, lens: seq<nat>, fills: seq<seq<byte>>)
    requires |fills| == |lens|
    ensures Shown(m, m, lens, fills, 0)
  {
  }

  lemma FillEmpty(m: seq<byte>, packed: seq<byte>, lens: seq<nat>, fills: seq<seq<byte>>, n: nat)
    requires n < |fills| == |lens| && |m| == |packed| && Shown(m, packed, lens, fills, n) && lens[n] == 0
    ensures Shown(m, packed, lens, fills, n + 1)
  {
  }

  lemma ShownDelivers(m: seq<byte>, before: seq<byte>, start: int, lens: seq<nat>, fills: seq<seq<byte>>,
                      i: nat, word: nat, dst: seq<byte>)
    requires |m| == |before| <= INT_MAX && |Items(0, OutBodies(lens))| <= |m| && |fills| == |lens|
    requires Shown(m, Overlay(Items(0, OutBodies(lens)), 0, before), lens, fills, |fills|)
    requires i < |lens| && |dst| == |fills[i]| == lens[i]
    ensures WordMatches(Window(m, 0, start), 0, lens, i, word)
    ensures Fetch(m, 0, BodyAt(0, OutBodies(lens), i), dst) == fills[i]
  {
    hide Items, Overlay, BodyAt, InRegion, Small, Holds, Start, ReadLen, WordMatches, OutBodies;
    var bodies := OutBodies(lens);
    var packed := Overlay(Items(0, bodies), 0, before);
    var w, w' := Window(packed, 0, start), Window(m, 0, start);
    OverlayHolds(w, Items(0, bodies), before);
    RegionsAreFree(w, w', 0, lens);
    SmallBodies(w', 0, bodies);
    OutBufRoundTrip(w', 0, lens, i, word, dst);
  }

  // Hand out the regions, let each be filled with any bytes, and unpack: that
  // succeeds, and delivers exactly those bytes.
  method ReverseOutBufs(pra: array<RemoteArg>, fills: seq<seq<byte>>, bufs: array<seq<byte>>,
                        mem: array<byte>, address: int, word: nat) returns (ok: bool)
    requires |Items(0, OutBodies(Lens(pra[..])))| <= mem.Length <= INT_MAX
    requires |fills| == pra.Length == bufs.Length
    requires mem as object != pra && bufs as object != pra && bufs as object != mem
    requires forall i :: 0 <= i < |fills| ==> |fills[i]| == pra[i].nLen == |bufs[i]|
    modifies mem, pra, bufs
    ensures ok && forall i :: 0 <= i < |fills| ==> bufs[i] == fills[i]
  {
    hide Items, Overlay, Start, BodyAt, Shown, Fetch, WordMatches, OutBodies;
    ghost var lens, before := Lens(pra[..]), mem[..];
    HandOutAndFill(pra, fills, mem, address);
    var buf := new Sbuf(0, mem, address);
    var sizes := seq(pra.Length, i requires 0 <= i < pra.Length reads pra => pra[i].nLen);
    assert sizes == lens;
    forall i | 0 <= i < |fills|
      ensures WordMatches(WindowOf(buf), 0, lens, i, word)
      ensures Fetch(mem[..], 0, BodyAt(0, OutBodies(lens), i), bufs[i]) == fills[i]
    {
      ShownDelivers(mem[..], before, buf.bufStart, lens, fills, i, word, bufs[i]);
    }
    ok := UnpackOutBufs(buf, sizes, bufs, word);
  }

  method HandOutAndFill(pra: array<RemoteArg>, fills: seq<seq<byte>>, mem: array<byte>, address: int)
    requires |Items(0, OutBodies(Lens(pra[..])))| <= mem.Length <= INT_MAX
    requires |fills| == pra.Length && mem as object != pra
    requires forall i :: 0 <= i < |fills| ==> |fills[i]| == pra[i].nLen
    modifies mem, pra
    ensures var lens := Lens(old(pra[..]));
            && Lens(pra[..]) == lens
            && Shown(mem[..], Overlay(Items(0, OutBodies(lens)), 0, old(mem[..])), lens, fills, |fills|)
  {
    hide Items, Overlay, Start, BodyAt, Shown, OutBodies;
    ghost var lens := Lens(pra[..]);
    var buf := new Sbuf(0, mem, address);
    PackOutBufs(buf, pra);
    ghost var packed := mem[..];
    forall i | 0 <= i < |lens|
      ensures pra[i].nLen == lens[i] && (lens[i] != 0 ==> pra[i].pv == address + BodyAt(0, OutBodies(lens), i))
    {
      RegionInside(lens, i);
    }
    FillNone(packed, lens, fills);
    for k := 0 to pra.Length
      invariant mem.Length == |packed| && Shown(mem[..], packed, lens, fills, k)
      invariant forall i :: 0 <= i < |lens| ==>
                  pra[i].nLen == lens[i] && (lens[i] != 0 ==> pra[i].pv == address + BodyAt(0, OutBodies(lens), i))
    {
      if pra[k].nLen != 0 {
        FillOne(mem[..], packed, lens, fills, k);
        FillRegion(mem, address, pra[k].pv, fills[k]);
      } else {
        FillEmpty(mem[..], packed, lens, fills, k);
      }
    }
  }
}
