// Model of the scalar word of inc/remote.h: six fields packed in 32 bits.
module RemoteScalars {

  function MethodAttr(sc: bv32): bv32 {
    (sc >> 29) & 0x7
  }

  function Method(sc: bv32): bv32 {
    (sc >> 24) & 0x1f
  }

  function InBufs(sc: bv32): bv32 {
    (sc >> 16) & 0xff
  }

  function OutBufs(sc: bv32): bv32 {
    (sc >> 8) & 0xff
  }

  function InHandles(sc: bv32): bv32 {
    (sc >> 4) & 0x0f
  }

  function OutHandles(sc: bv32): bv32 {
    sc & 0x0f
  }

  // REMOTE_SCALARS_MAKEX
  function MakeX(attr: bv32, mid: bv32, nIn: bv32, nOut: bv32, noIn: bv32, noOut: bv32): bv32 {
    ((attr & 0x7) << 29) | ((mid & 0x1f) << 24) | ((nIn & 0xff) << 16)
    | ((nOut & 0xff) << 8) | ((noIn & 0x0f) << 4) | (noOut & 0x0f)
  }

  // Every field comes back, cut to its width.
  lemma FieldsOfMake(attr: bv32, mid: bv32, nIn: bv32, nOut: bv32, noIn: bv32, noOut: bv32)
    ensures var sc := MakeX(attr, mid, nIn, nOut, noIn, noOut);
            && MethodAttr(sc) == attr & 0x7 && Method(sc) == mid & 0x1f
            && InBufs(sc) == nIn & 0xff && OutBufs(sc) == nOut & 0xff
            && InHandles(sc) == noIn & 0x0f && OutHandles(sc) == noOut & 0x0f
  {
  }

  // The word as a number: each field has its weight, and is the word divided by
  // it, cut to its width.
  lemma Weights(attr: bv32, mid: bv32, nIn: bv32, nOut: bv32, noIn: bv32, noOut: bv32)
    ensures MakeX(attr, mid, nIn, nOut, noIn, noOut)
            == 0x2000_0000 * (attr % 8) + 0x100_0000 * (mid % 32) + 0x1_0000 * (nIn % 256)
               + 0x100 * (nOut % 256) + 0x10 * (noIn % 16) + noOut % 16
  {
  }

  lemma FieldWeights(sc: bv32)
    ensures MethodAttr(sc) == sc / 0x2000_0000 && Method(sc) == sc / 0x100_0000 % 32
    ensures InBufs(sc) == sc / 0x1_0000 % 256 && OutBufs(sc) == sc / 0x100 % 256
    ensures InHandles(sc) == sc / 0x10 % 16 && OutHandles(sc) == sc % 16
  {
  }

  // Every word is made of its fields.
  lemma MakeOfFields(sc: bv32)
    ensures MakeX(MethodAttr(sc), Method(sc), InBufs(sc), OutBufs(sc), InHandles(sc), OutHandles(sc)) == sc
  {
  }

  // A count of at most 8 bits as a word, and back.
  function Word(x: nat): bv32
    requires x <= 0xff
  {
    (x as bv8) as bv32
  }

  lemma WordFits(b: bv8)
    ensures (b as bv32) & 0xff == b as bv32 && ((b as bv32) & 0xff) as bv8 == b
  {
  }

  lemma NextByte(b: bv8)
    requires b as nat < 255
    ensures (b + 1) as nat == b as nat + 1
  {
  }

  // Counting up reaches every byte.
  ghost function Reach(x: nat): (b: bv8)
    requires x <= 0xff
    ensures b as nat == x
  {
    if x == 0 then 0 else NextByte(Reach(x - 1)); Reach(x - 1) + 1
  }

  lemma Byte(x: nat)
    requires x <= 0xff
    ensures (x as bv8) as nat == x
  {
    var b := Reach(x);
    hide Reach;
    assert b as nat as bv8 == b;
  }

  // The word of a method with buffers only, and the counts read from a word.
  function Make(mid: bv32, nIn: nat, nOut: nat): bv32
    requires nIn <= 0xff && nOut <= 0xff
  {
    MakeX(0, mid, Word(nIn), Word(nOut), 0, 0)
  }

  function Ins(sc: bv32): nat {
    (InBufs(sc) as bv8) as nat
  }

  function Outs(sc: bv32): nat {
    (OutBufs(sc) as bv8) as nat
  }

  // REMOTE_SCALARS_LENGTH: four fields of at most 8 bits do not overflow a word.
  function Length(sc: bv32): nat {
    Ins(sc) + Outs(sc) + (InHandles(sc) as bv8) as nat + (OutHandles(sc) as bv8) as nat
  }

  // Counts that fit come back, and Length is their sum.
  lemma Counts(mid: bv32, nIn: nat, nOut: nat)
    requires nIn <= 0xff && nOut <= 0xff
    ensures var sc := Make(mid, nIn, nOut);
            && Ins(sc) == nIn && Outs(sc) == nOut && Length(sc) == nIn + nOut
            && InHandles(sc) == 0 && OutHandles(sc) == 0
            && (Method(sc) == mid <==> mid < 32)
  {
    var a, b := nIn as bv8, nOut as bv8;
    Byte(nIn);
    Byte(nOut);
    WordFits(a);
    WordFits(b);
    Small(mid);
    CountWords(mid, Word(nIn), Word(nOut));
    hide MakeX, InBufs, OutBufs, InHandles, OutHandles, Method;
  }

  lemma CountWords(mid: bv32, a: bv32, b: bv32)
    ensures var sc := MakeX(0, mid, a, b, 0, 0);
            && InBufs(sc) == a & 0xff && OutBufs(sc) == b & 0xff
            && InHandles(sc) == 0 && OutHandles(sc) == 0 && Method(sc) == mid & 0x1f
  {
  }

  lemma Small(x: bv32)
    ensures x & 0x1f == x <==> x < 32
  {
  }
}
