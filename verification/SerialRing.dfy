/** bios0c.c and bios19.c as they work: a control block and a ring of words in the memory of one
    segment, which an interrupt handler and a BIOS call both update. */
module SerialRing {
  import opened Bytes
  import opened SerialLine
  import opened SerialShift

  // ---------------------------------------------------------------- memory

  function Word(m: seq<byte>, off: nat): (w: nat)
    requires off + 1 < |m|
    ensures w < WORD16
  {
    m[off] as int + 256 * m[off + 1] as int
  }

  function Store8(m: seq<byte>, off: nat, v: byte): (r: seq<byte>)
    requires off < |m|
    ensures |r| == |m|
  {
    m[off := v]
  }

  function Store16(m: seq<byte>, off: nat, v: nat): (r: seq<byte>)
    requires off + 1 < |m| && v < WORD16
    ensures |r| == |m|
  {
    m[off := v % 256][off + 1 := v / 256]
  }

  lemma WordStored(m: seq<byte>, off: nat, v: nat)
    requires off + 1 < |m| && v < WORD16
    ensures Word(Store16(m, off, v), off) == v
  {
  }

  lemma WordElsewhere(m: seq<byte>, off: nat, v: nat, at: nat)
    requires off + 1 < |m| && v < WORD16 && at + 1 < |m| && (at + 1 < off || off + 1 < at)
    ensures Word(Store16(m, off, v), at) == Word(m, at)
  {
  }

  // ---------------------------------------------------------------- the control block

  /** RSBIOS, with its offsets from rsbios.h. */
  datatype Block = Block(intr: nat, flag: nat, cmd: nat, xoff: nat, xon: nat, headp: nat, tailp: nat,
                         cnt: nat, putp: nat, getp: nat)

  const R_INT := 0x00
  const R_FLAG := 0x02
  const R_CMD := 0x03
  const R_XOFF := 0x06
  const R_XON := 0x08
  const R_HEADP := 0x0a
  const R_TAILP := 0x0c
  const R_CNT := 0x0e
  const R_PUTP := 0x10
  const R_GETP := 0x12
  const RSBIOS := 20

  function BlockAt(m: seq<byte>, doff: nat): Block
    requires doff + RSBIOS <= |m|
  {
    Block(m[doff + R_INT], m[doff + R_FLAG], m[doff + R_CMD], Word(m, doff + R_XOFF), Word(m, doff + R_XON),
          Word(m, doff + R_HEADP), Word(m, doff + R_TAILP), Word(m, doff + R_CNT),
          Word(m, doff + R_PUTP), Word(m, doff + R_GETP))
  }

  predicate IsWord(off: nat)
  {
    off == R_XOFF || off == R_XON || off == R_HEADP || off == R_TAILP || off == R_CNT || off == R_PUTP || off == R_GETP
  }

  predicate IsByte(off: nat) { off == R_INT || off == R_FLAG || off == R_CMD }

  /** The field of the block at an offset. */
  function Field(b: Block, off: nat): nat
    requires IsWord(off) || IsByte(off)
  {
    if off == R_INT then b.intr else if off == R_FLAG then b.flag else if off == R_CMD then b.cmd
    else if off == R_XOFF then b.xoff else if off == R_XON then b.xon else if off == R_HEADP then b.headp
    else if off == R_TAILP then b.tailp else if off == R_CNT then b.cnt else if off == R_PUTP then b.putp else b.getp
  }

  function WithField(b: Block, off: nat, v: nat): Block
    requires IsWord(off) || IsByte(off)
  {
    if off == R_INT then b.(intr := v) else if off == R_FLAG then b.(flag := v) else if off == R_CMD then b.(cmd := v)
    else if off == R_XOFF then b.(xoff := v) else if off == R_XON then b.(xon := v)
    else if off == R_HEADP then b.(headp := v) else if off == R_TAILP then b.(tailp := v)
    else if off == R_CNT then b.(cnt := v) else if off == R_PUTP then b.(putp := v) else b.(getp := v)
  }

  lemma StoreField(m: seq<byte>, doff: nat, off: nat, v: nat)
    requires doff + RSBIOS <= |m| && v < WORD16 && IsWord(off)
    ensures BlockAt(Store16(m, doff + off, v), doff) == WithField(BlockAt(m, doff), off, v)
  {
    WordStored(m, doff + off, v);
  }

  lemma StoreByte(m: seq<byte>, doff: nat, off: nat, v: byte)
    requires doff + RSBIOS <= |m| && IsByte(off)
    ensures BlockAt(Store8(m, doff + off, v), doff) == WithField(BlockAt(m, doff), off, v)
  {
  }

  /** A word of the ring is not in the control block. */
  lemma StoreBehind(m: seq<byte>, doff: nat, off: nat, v: nat)
    requires doff + RSBIOS <= off && off + 1 < |m| && v < WORD16
    ensures BlockAt(Store16(m, off, v), doff) == BlockAt(m, doff)
  {
  }

  // ---------------------------------------------------------------- the ring

  /** The place i steps on from another, in a ring of cap places. */
  function Wrap(i: nat, cap: nat): (p: nat)
    requires i < 2 * cap
    ensures p < cap
  {
    if i < cap then i else i - cap
  }

  /** The queue stands in the ring, from place first on. */
  ghost predicate InRing(m: seq<byte>, head: nat, cap: nat, first: nat, queue: seq<nat>)
    requires head + 2 * cap <= |m|
  {
    && first < cap && |queue| <= cap
    && forall i :: 0 <= i < |queue| ==> Word(m, head + 2 * Wrap(first + i, cap)) == queue[i]
  }

  /** Writing elsewhere does not touch it. */
  ghost predicate SameFrom(m: seq<byte>, r: seq<byte>, head: nat)
  {
    |m| == |r| && forall k :: head <= k < |m| ==> m[k] == r[k]
  }

  lemma RingKept(m: seq<byte>, r: seq<byte>, head: nat, cap: nat, first: nat, queue: seq<nat>)
    requires head + 2 * cap <= |m| && SameFrom(m, r, head) && InRing(m, head, cap, first, queue)
    ensures InRing(r, head, cap, first, queue)
  {
  }

  lemma StoreBelow(m: seq<byte>, off: nat, v: nat, head: nat)
    requires off + 2 <= head <= |m| && v < WORD16
    ensures SameFrom(m, Store16(m, off, v), head)
  {
  }

  lemma Store8Below(m: seq<byte>, off: nat, v: byte, head: nat)
    requires off < head <= |m|
    ensures SameFrom(m, Store8(m, off, v), head)
  {
  }

  lemma PutInRing(m: seq<byte>, head: nat, cap: nat, first: nat, queue: seq<nat>, w: nat)
    requires head + 2 * cap <= |m| && InRing(m, head, cap, first, queue) && |queue| < cap && w < WORD16
    ensures InRing(Store16(m, head + 2 * Wrap(first + |queue|, cap), w), head, cap, first, queue + [w])
  {
    hide Word, Store16;
    var at := head + 2 * Wrap(first + |queue|, cap);
    var r, q := Store16(m, at, w), queue + [w];
    forall i | 0 <= i < |q| ensures Word(r, head + 2 * Wrap(first + i, cap)) == q[i] {
      if i < |queue| { WordElsewhere(m, at, w, head + 2 * Wrap(first + i, cap)); } else { WordStored(m, at, w); }
    }
  }

  lemma GetFromRing(m: seq<byte>, head: nat, cap: nat, first: nat, queue: seq<nat>)
    requires head + 2 * cap <= |m| && InRing(m, head, cap, first, queue) && queue != []
    ensures Word(m, head + 2 * first) == queue[0]
    ensures InRing(m, head, cap, Wrap(first + 1, cap), queue[1..])
  {
    hide Word;
    assert Wrap(first + 0, cap) == first;
    forall i | 0 <= i < |queue| - 1
      ensures Word(m, head + 2 * Wrap(Wrap(first + 1, cap) + i, cap)) == queue[1..][i]
    {
      assert Wrap(Wrap(first + 1, cap) + i, cap) == Wrap(first + (i + 1), cap);
    }
  }

  /** The pointer after place p. */
  lemma NextPlace(p: nat, dx: nat)
    requires p < Capacity(dx)
    ensures 2 * p + 2 >= dx <==> p + 1 == Capacity(dx)
  {
  }

  // ---------------------------------------------------------------- flags

  const RFLAG_INIT := 0x80
  const RFLAG_BFULL := 0x40
  const RFLAG_BOVF := 0x20
  const RFLAG_XON := 0x10
  const RFLAG_XOFF := 0x08

  function FlagByte(init: bool, full: bool, xon: bool, xoff: bool): (b: byte)
  {
    (if init then 0x80 else 0) + (if full then 0x40 else 0) + (if xon then 0x10 else 0) + if xoff then 0x08 else 0
  }

  predicate HasBit(b: nat, bit: nat)
    requires bit > 0
  {
    b / bit % 2 == 1
  }

  function ClearBit(b: nat, bit: nat): nat
    requires bit > 0
  {
    if HasBit(b, bit) then b - bit else b
  }

  lemma FlagBits(init: bool, full: bool, xon: bool, xoff: bool)
    ensures var f := FlagByte(init, full, xon, xoff);
      && HasBit(f, RFLAG_INIT) == init && HasBit(f, RFLAG_BFULL) == full && HasBit(f, RFLAG_XON) == xon
      && HasBit(f, RFLAG_XOFF) == xoff && !HasBit(f, RFLAG_BOVF)
  {
  }

  lemma FlagChanges(init: bool, full: bool, xon: bool, xoff: bool)
    ensures var f := FlagByte(init, full, xon, xoff);
      && SetBit(f, RFLAG_BFULL) == FlagByte(init, true, xon, xoff)
      && SetBit(f, RFLAG_XOFF) == FlagByte(init, full, xon, true)
      && ClearBit(f, RFLAG_XOFF) == FlagByte(init, full, xon, false)
      && ClearBit(f, RFLAG_BOVF) == f
  {
    FlagBits(init, full, xon, xoff);
  }

  lemma BitFits(b: nat, bit: nat)
    requires b < 256 && (bit == 0x20 || bit == 0x80)
    ensures SetBit(b, bit) < 256
  {
  }

  /** Bits of a byte that a change of another one leaves alone. */
  lemma ShiftBits(b: byte)
    ensures SetBit(b, 0x10) < 256 && HasBit(SetBit(b, 0x10), 0x10) && HasBit(SetBit(b, 0x10), 0x80) == HasBit(b, 0x80)
    ensures !HasBit(ClearBit(b, 0x10), 0x10) && HasBit(ClearBit(b, 0x10), 0x80) == HasBit(b, 0x80)
    ensures 0 <= ClearBit(b, 0x10) < 256
  {
  }

  lemma HighBit(b: byte)
    ensures SetBit(b, 0x80) == b as int % 128 + 128
  {
  }

  function CodeByte(c: Code): byte { if c == Xoff then 0x13 else 0x11 }

  function CodeBytes(codes: seq<Code>): (b: seq<byte>)
    ensures |b| == |codes|
  {
    seq(|codes|, i requires 0 <= i < |codes| => CodeByte(codes[i]))
  }

  lemma OneMoreCode(codes: seq<Code>, c: Code)
    ensures CodeBytes(codes + [c]) == CodeBytes(codes) + [CodeByte(c)]
  {
  }

  // ---------------------------------------------------------------- block and line

  /** The control block says of the ring at head what the line is. */
  ghost predicate Describes(b: Block, init: bool, s: Line, head: nat, first: nat)
  {
    && first < Capacity(s.dx) && |s.queue| <= Capacity(s.dx)
    && b.intr == s.intr < 256 && b.cmd == s.cmd < 256 && b.flag == FlagByte(init, s.full, s.flow, s.stopped)
    && b.xoff == GoMark(s.dx) && b.xon == StopMark(s.dx)
    && b.headp == head && b.tailp == head + s.dx && b.cnt == |s.queue|
    && b.getp == head + 2 * first && b.putp == head + 2 * Wrap(first + |s.queue|, Capacity(s.dx))
  }

  /** Where the put or get pointer goes on to. */
  function Advanced(b: Block, pos: nat): nat
  {
    if pos + 2 >= b.tailp then b.headp else pos + 2
  }

  /** No pointer goes past the end of the segment. */
  lemma PointersFit(b: Block, init: bool, s: Line, head: nat, first: nat)
    requires Describes(b, init, s, head, first) && Sound(s) && !s.full && head + 2 * Capacity(s.dx) < WORD16
    ensures |s.queue| < Capacity(s.dx) && b.putp + 2 < WORD16 && b.cnt + 1 < WORD16 && b.headp < WORD16
  {
    hide FlagByte, GoMark, StopMark;
  }

  lemma NextPointerFits(b: Block, init: bool, s: Line, head: nat, first: nat)
    requires Describes(b, init, s, head, first) && head + 2 * Capacity(s.dx) < WORD16 && s.queue != []
    ensures b.getp == head + 2 * first && b.getp + 2 < WORD16 && 0 < b.cnt < WORD16 && b.headp < WORD16
  {
    hide FlagByte, GoMark, StopMark;
  }

  lemma BytesFit(b: Block, init: bool, s: Line, head: nat, first: nat)
    requires Describes(b, init, s, head, first)
    ensures b.intr < 256 && b.cmd < 256 && SetBit(b.intr, 0x80) < 256 && SetBit(b.cmd, 0x20) < 256
  {
    BitFits(b.intr, 0x80);
    BitFits(b.cmd, 0x20);
  }

  /** The flags after a word has been put, before and after the decision to send XOFF. */
  function FilledFlag(b: Block): nat
  {
    if Advanced(b, b.putp) == b.getp then SetBit(b.flag, RFLAG_BFULL) else b.flag
  }

  predicate SendsXoff(b: Block)
  {
    HasBit(FilledFlag(b), RFLAG_XON) && !HasBit(FilledFlag(b), RFLAG_XOFF) && b.cnt + 1 >= b.xon
  }

  function PutFlag(b: Block): nat
  {
    if SendsXoff(b) then SetBit(FilledFlag(b), RFLAG_XOFF) else FilledFlag(b)
  }

  /** The block after an interrupt that found room. */
  function PutBlock(b: Block): Block
  {
    b.(intr := SetBit(b.intr, 0x80), flag := PutFlag(b), cnt := b.cnt + 1, putp := Advanced(b, b.putp))
  }

  lemma PutPlace(b: Block, init: bool, s: Line, head: nat, first: nat)
    requires Describes(b, init, s, head, first) && |s.queue| < Capacity(s.dx)
    ensures Advanced(b, b.putp) == head + 2 * Wrap(first + (|s.queue| + 1), Capacity(s.dx))
    ensures Advanced(b, b.putp) == b.getp <==> |s.queue| + 1 == Capacity(s.dx)
  {
    NextPlace(Wrap(first + |s.queue|, Capacity(s.dx)), s.dx);
    hide Capacity, FlagByte, GoMark, StopMark;
  }

  /** The interrupt handler does to the block what Put does to the line. */
  lemma PutDescribes(b: Block, init: bool, s: Line, head: nat, first: nat, w: nat)
    requires Describes(b, init, s, head, first) && Sound(s) && !s.full
    ensures |s.queue| < Capacity(s.dx) && Describes(PutBlock(b), init, Put(s, w), head, first)
    ensures Put(s, w).sent == if SendsXoff(b) then s.sent + [Xoff] else s.sent
    ensures Put(s, w).queue == s.queue + [w] && Put(s, w).dx == s.dx
    ensures PutFlag(b) < 256
  {
    PutPlace(b, init, s, head, first);
    var full := |s.queue| + 1 == Capacity(s.dx);
    FlagBits(init, full, s.flow, s.stopped);
    FlagChanges(init, false, s.flow, s.stopped);
    FlagChanges(init, full, s.flow, s.stopped);
    BitFits(b.intr, 0x80);
    hide Capacity, FlagByte, GoMark, StopMark, SetBit, HasBit, Advanced, Alternates, Wrap;
  }

  lemma OverflowDescribes(b: Block, init: bool, s: Line, head: nat, first: nat, w: nat)
    requires Describes(b, init, s, head, first) && s.full
    ensures Describes(b.(intr := SetBit(b.intr, 0x80), cmd := SetBit(b.cmd, 0x20)), init, Put(s, w), head, first)
    ensures Put(s, w).queue == s.queue && Put(s, w).dx == s.dx && Put(s, w).sent == s.sent
  {
    BitFits(b.intr, 0x80);
    BitFits(b.cmd, 0x20);
    hide Capacity, FlagByte, GoMark, StopMark, SetBit, Wrap;
  }

  predicate SendsXon(b: Block)
    requires b.cnt > 0
  {
    HasBit(b.flag, RFLAG_XOFF) && b.cnt - 1 < b.xoff
  }

  function GetFlag(b: Block): nat
    requires b.cnt > 0
  {
    ClearBit(if SendsXon(b) then ClearBit(b.flag, RFLAG_XOFF) else b.flag, RFLAG_BOVF)
  }

  function GetBlock(b: Block): Block
    requires b.cnt > 0
  {
    b.(flag := GetFlag(b), cnt := b.cnt - 1, getp := Advanced(b, b.getp))
  }

  lemma GetPlace(b: Block, init: bool, s: Line, head: nat, first: nat)
    requires Describes(b, init, s, head, first)
    ensures Advanced(b, b.getp) == head + 2 * Wrap(first + 1, Capacity(s.dx))
  {
    NextPlace(first, s.dx);
    hide Capacity, FlagByte, GoMark, StopMark;
  }

  /** Function 4 does to the block what Get does to the line. */
  lemma GetDescribes(b: Block, init: bool, s: Line, head: nat, first: nat)
    requires Describes(b, init, s, head, first) && s.queue != []
    ensures b.cnt > 0 && Describes(GetBlock(b), init, Get(s), head, Wrap(first + 1, Capacity(s.dx)))
    ensures Get(s).sent == if SendsXon(b) then s.sent + [Xon] else s.sent
    ensures Get(s).queue == s.queue[1..] && Get(s).dx == s.dx
    ensures GetFlag(b) < 256
  {
    GetPlace(b, init, s, head, first);
    FlagBits(init, s.full, s.flow, s.stopped);
    FlagChanges(init, s.full, s.flow, s.stopped);
    FlagChanges(init, s.full, s.flow, false);
    hide Capacity, FlagByte, GoMark, StopMark, ClearBit, HasBit, Advanced;
  }

  // ---------------------------------------------------------------- the handlers

  class Rs232c {
    const es: nat             // the segment that holds the ring
    const mem: array<byte>    // its memory
    var doff: nat             // MEMW_RS_CH0_OFST
    var dseg: nat             // MEMW_RS_CH0_SEG
    var sent: seq<byte>       // what has been written to port 0x30
    var sFlag: byte           // MEMB_RS_S_FLAG
    var dFlag: byte           // MEMB_RS_D_FLAG
    var msw3: byte            // MEMB_MSW3
    ghost var line: Line
    ghost var first: nat      // the place of the first word of the queue
    ghost var init: bool      // RFLAG_INIT

    ghost predicate Placed()
      reads this
    {
      && mem.Length == WORD16 && dseg == es && first < Capacity(line.dx)
      && doff + RSBIOS + line.dx < WORD16 && doff + RSBIOS + 2 * Capacity(line.dx) < WORD16
    }

    /** A ring has been set up, and memory holds the line. */
    ghost predicate Valid()
      reads this, mem
    {
      && Placed() && Sound(line) && sent == CodeBytes(line.sent)
      && Describes(BlockAt(mem[..], doff), init, line, doff + RSBIOS, first)
      && InRing(mem[..], doff + RSBIOS, Capacity(line.dx), first, line.queue)
    }

    ghost function PortNow(): Port
      reads this
    {
      Port(line, Shift(HasBit(sFlag, 0x80), HasBit(sFlag, 0x10), HasBit(dFlag, 0x01) && HasBit(msw3, 0x80)))
    }

    constructor (es: nat)
      ensures this.es == es && mem.Length == WORD16 && fresh(mem) && doff == dseg == 0 && sent == []
    {
      this.es, mem := es, new byte[WORD16](_ => 0);
      doff, dseg, sent := 0, 0, [];
      sFlag, dFlag, msw3 := 0, 0, 0;
      line, first, init := Fresh(0, 0, 0), 0, false;
    }

    /** MEMR_READ16 and MEMR_READ8 of a field of the control block. */
    method ReadWord(off: nat) returns (w: nat)
      requires mem.Length == WORD16 && doff + RSBIOS <= WORD16 && IsWord(off)
      ensures w == Field(BlockAt(mem[..], doff), off)
    {
      w := mem[doff + off] as int + 256 * mem[doff + off + 1] as int;
    }

    method ReadByte(off: nat) returns (w: byte)
      requires mem.Length == WORD16 && doff + RSBIOS <= WORD16 && IsByte(off)
      ensures w == Field(BlockAt(mem[..], doff), off)
    {
      w := mem[doff + off];
    }

    /** MEMR_WRITE16 and MEMR_WRITE8 */
    method Write16At(off: nat, v: nat)
      requires off + 1 < mem.Length && v < WORD16
      modifies mem
      ensures mem[..] == Store16(old(mem[..]), off, v)
    {
      mem[off] := v % 256;
      mem[off + 1] := v / 256;
    }

    method Write8At(off: nat, v: byte)
      requires off < mem.Length
      modifies mem
      ensures mem[..] == Store8(old(mem[..]), off, v)
    {
      mem[off] := v;
    }

    /** Write a word of the control block, or a byte of it; the ring stays as it is. */
    method WriteWord(off: nat, v: nat, ghost q: seq<nat>)
      requires Placed() && v < WORD16 && IsWord(off)
      requires InRing(mem[..], doff + RSBIOS, Capacity(line.dx), first, q)
      modifies mem
      ensures BlockAt(mem[..], doff) == WithField(old(BlockAt(mem[..], doff)), off, v)
      ensures InRing(mem[..], doff + RSBIOS, Capacity(line.dx), first, q)
    {
      hide InRing, BlockAt, Store16, SameFrom, Capacity, WithField;
      ghost var m := mem[..];
      Write16At(doff + off, v);
      StoreBelow(m, doff + off, v, doff + RSBIOS);
      RingKept(m, mem[..], doff + RSBIOS, Capacity(line.dx), first, q);
      StoreField(m, doff, off, v);
    }

    method WriteByte(off: nat, v: byte, ghost q: seq<nat>)
      requires Placed() && IsByte(off)
      requires InRing(mem[..], doff + RSBIOS, Capacity(line.dx), first, q)
      modifies mem
      ensures BlockAt(mem[..], doff) == WithField(old(BlockAt(mem[..], doff)), off, v)
      ensures InRing(mem[..], doff + RSBIOS, Capacity(line.dx), first, q)
    {
      hide InRing, BlockAt, Store8, SameFrom, Capacity, WithField;
      ghost var m := mem[..];
      Write8At(doff + off, v);
      Store8Below(m, doff + off, v, doff + RSBIOS);
      RingKept(m, mem[..], doff + RSBIOS, Capacity(line.dx), first, q);
      StoreByte(m, doff, off, v);
    }

    /** The word itself goes into the ring. */
    method WriteData(pos: nat, w: nat)
      requires Valid() && |line.queue| < Capacity(line.dx) && w < WORD16 && pos == BlockAt(mem[..], doff).putp
      modifies mem
      ensures BlockAt(mem[..], doff) == old(BlockAt(mem[..], doff))
      ensures InRing(mem[..], doff + RSBIOS, Capacity(line.dx), first, line.queue + [w])
    {
      hide InRing, BlockAt, Store16, Capacity, FlagByte, Sound;
      ghost var m := mem[..];
      Write16At(pos, w);
      StoreBehind(m, doff, pos, w);
      PutInRing(m, doff + RSBIOS, Capacity(line.dx), first, line.queue, w);
    }

    /** The word into the ring, then the put pointer and the count. */
    method StoreWord(w: nat) returns (pos: nat, cnt: nat)
      requires Valid() && !line.full && w < WORD16
      modifies mem
      ensures pos == Advanced(old(BlockAt(mem[..], doff)), old(BlockAt(mem[..], doff).putp))
      ensures cnt == old(BlockAt(mem[..], doff)).cnt + 1
      ensures BlockAt(mem[..], doff) == old(BlockAt(mem[..], doff)).(cnt := cnt, putp := pos)
      ensures InRing(mem[..], doff + RSBIOS, Capacity(line.dx), first, line.queue + [w])
    {
      hide InRing, Sound, Describes, Capacity, BlockAt;
      PointersFit(BlockAt(mem[..], doff), init, line, doff + RSBIOS, first);
      pos := ReadWord(R_PUTP);
      WriteData(pos, w);
      pos := (pos + 2) % WORD16;
      var tailp := ReadWord(R_TAILP);
      if pos >= tailp { pos := ReadWord(R_HEADP); }
      WriteWord(R_PUTP, pos, line.queue + [w]);
      cnt := ReadWord(R_CNT);
      cnt := (cnt + 1) % WORD16;
      WriteWord(R_CNT, cnt, line.queue + [w]);
    }

    /** The part of bios0x0c that puts a word: ring, put pointer and count, and the flags to be
        written back. */
    method PutWord(flag0: nat, w: nat) returns (flag: nat)
      requires Valid() && !line.full && w < WORD16 && flag0 == BlockAt(mem[..], doff).flag
      modifies this`sent, mem
      ensures flag == PutFlag(old(BlockAt(mem[..], doff)))
      ensures BlockAt(mem[..], doff) ==
        var b := old(BlockAt(mem[..], doff));
        b.(cnt := b.cnt + 1, putp := Advanced(b, b.putp))
      ensures sent == if SendsXoff(old(BlockAt(mem[..], doff))) then old(sent) + [0x13] else old(sent)
      ensures InRing(mem[..], doff + RSBIOS, Capacity(line.dx), first, line.queue + [w])
    {
      hide InRing, Sound, Describes, SetBit, HasBit, FlagByte, Capacity, BlockAt, Advanced;
      var pos, cnt := StoreWord(w);
      flag := flag0;
      var getp := ReadWord(R_GETP);
      if pos == getp { flag := SetBit(flag, RFLAG_BFULL); }
      var xon := ReadWord(R_XON);
      if HasBit(flag, RFLAG_XON) && !HasBit(flag, RFLAG_XOFF) && cnt >= xon {
        sent := sent + [0x13];
        flag := SetBit(flag, RFLAG_XOFF);
      }
    }

    /** bios0x0c when there is room. */
    method TakeIn(flag0: nat, w: nat)
      requires Valid() && !line.full && w < WORD16 && flag0 == BlockAt(mem[..], doff).flag
      modifies this`sent, this`line, mem
      ensures Valid() && line == Put(old(line), w)
    {
      hide InRing, Sound, Describes, SetBit, HasBit, FlagByte, Capacity, BlockAt, Advanced, Put, PutFlag, SendsXoff;
      ghost var b := BlockAt(mem[..], doff);
      PutDescribes(b, init, line, doff + RSBIOS, first, w);
      PutIsSound(line, w);
      OneMoreCode(line.sent, Xoff);
      BytesFit(b, init, line, doff + RSBIOS, first);
      var flag := PutWord(flag0, w);
      var intr := ReadByte(R_INT);
      WriteByte(R_INT, SetBit(intr, 0x80), line.queue + [w]);
      WriteByte(R_FLAG, flag, line.queue + [w]);
      line := Put(line, w);
    }

    /** bios0x0c when there is none. */
    method Refuse(flag: nat, ghost w: nat)
      requires Valid() && line.full && flag == BlockAt(mem[..], doff).flag < 256
      modifies this`line, mem
      ensures Valid() && line == Put(old(line), w)
    {
      hide InRing, Sound, Describes, SetBit, HasBit, FlagByte, Capacity, BlockAt, Advanced, Put;
      ghost var b := BlockAt(mem[..], doff);
      OverflowDescribes(b, init, line, doff + RSBIOS, first, w);
      PutIsSound(line, w);
      BytesFit(b, init, line, doff + RSBIOS, first);
      var cmd := ReadByte(R_CMD);
      WriteByte(R_CMD, SetBit(cmd, RFLAG_BOVF), line.queue);
      var intr := ReadByte(R_INT);
      WriteByte(R_INT, SetBit(intr, 0x80), line.queue);
      WriteByte(R_FLAG, flag, line.queue);
      line := Put(line, w);
    }

    /** Shift codes are taken note of and not stored; other bytes may change on their way. */
    method Translate(data0: byte) returns (stored: bool, data: byte)
      modifies this`sFlag
      ensures stored <==> !IsShiftCode(old(PortNow()).shift, data0)
      ensures stored ==> data == Translated(old(PortNow()).shift, data0) && sFlag == old(sFlag)
      ensures PortNow() == old(PortNow()).(shift := ShiftAfter(old(PortNow()).shift, data0))
    {
      ShiftBits(sFlag);
      HighBit(data0);
      hide SetBit, ClearBit;
      stored, data := true, data0;
      if HasBit(sFlag, 0x80) {
        if data >= 0x20 {
          data := if HasBit(sFlag, 0x10) then SetBit(data, 0x80) else data % 128;
        } else if data == SO {
          sFlag := SetBit(sFlag, 0x10);
          stored := false;
          return;
        } else if data == SI {
          sFlag := ClearBit(sFlag, 0x10);
          stored := false;
          return;
        }
      }
      if HasBit(dFlag, 0x01) {
        if data % 128 == 0x7f && HasBit(msw3, 0x80) {
          data := 0;
        }
      }
    }

    /** bios0x0c, when data and status have been read from the serial port. */
    method Interrupt(data: byte, status: byte)
      requires Valid()
      modifies this`sent, this`line, this`sFlag, mem
      ensures Valid() && PortNow() == Handle(old(PortNow()), Byte(data, status))
    {
      hide InRing, Sound, Describes, SetBit, HasBit, Capacity, BlockAt, Put, IsShiftCode, Translated;
      FlagIs();
      var flag := ReadByte(R_FLAG);
      if !HasBit(flag, RFLAG_BFULL) {
        var stored, d := Translate(data);
        if !stored { return; }
        TakeIn(flag, d as int * 256 + status as int);
      } else {
        Refuse(flag, data as int * 256 + status as int);
      }
    }

    lemma FlagIs()
      requires Valid()
      ensures var flag := BlockAt(mem[..], doff).flag;
        HasBit(flag, RFLAG_BFULL) == line.full && HasBit(flag, RFLAG_INIT) == init && !HasBit(flag, RFLAG_BOVF)
    {
      FlagBits(init, line.full, line.flow, line.stopped);
      hide InRing, Sound, HasBit, FlagByte, Capacity, BlockAt;
    }

    /** The word at the get pointer is read, then the pointer and the count are updated. */
    method MoveOn() returns (cx: nat, cnt: nat)
      requires Valid() && line.queue != []
      modifies mem
      ensures cx == line.queue[0] && cnt + 1 == old(BlockAt(mem[..], doff)).cnt
      ensures BlockAt(mem[..], doff) ==
        var b := old(BlockAt(mem[..], doff));
        b.(cnt := cnt, getp := Advanced(b, b.getp))
      ensures InRing(mem[..], doff + RSBIOS, Capacity(line.dx), first, line.queue)
    {
      hide InRing, Sound, Describes, Capacity, BlockAt;
      GetFromRing(mem[..], doff + RSBIOS, Capacity(line.dx), first, line.queue);
      NextPointerFits(BlockAt(mem[..], doff), init, line, doff + RSBIOS, first);
      var pos := ReadWord(R_GETP);
      cx := mem[pos] as int + 256 * mem[pos + 1] as int;
      pos := (pos + 2) % WORD16;
      var tailp := ReadWord(R_TAILP);
      if pos >= tailp { pos := ReadWord(R_HEADP); }
      WriteWord(R_GETP, pos, line.queue);
      cnt := ReadWord(R_CNT);
      cnt := cnt - 1;
      WriteWord(R_CNT, cnt, line.queue);
    }

    /** The part of function 4 that takes a word. */
    method TakeOut(flag0: nat) returns (cx: nat)
      requires Valid() && line.queue != [] && flag0 == BlockAt(mem[..], doff).flag
      modifies this`sent, this`line, this`first, mem
      ensures Valid() && cx == old(line).queue[0] && line == Get(old(line))
    {
      hide InRing, Sound, Describes, ClearBit, HasBit, FlagByte, Capacity, BlockAt, Advanced, Get, GoMark;
      GetDescribes(BlockAt(mem[..], doff), init, line, doff + RSBIOS, first);
      GetIsSound(line);
      OneMoreCode(line.sent, Xon);
      var cnt;
      cx, cnt := MoveOn();
      GetFromRing(mem[..], doff + RSBIOS, Capacity(line.dx), first, line.queue);
      first := Wrap(first + 1, Capacity(line.dx));
      var xoff := ReadWord(R_XOFF);
      var flag := flag0;
      if HasBit(flag, RFLAG_XOFF) && cnt < xoff {
        sent := sent + [0x11];
        flag := ClearBit(flag, RFLAG_XOFF);
      }
      flag := ClearBit(flag, RFLAG_BOVF);
      WriteByte(R_FLAG, flag, line.queue[1..]);
      line := Get(line);
    }

    /** bios0x19, function 4: one word, if there is one. The status 3 for an empty ring is set, but then
        replaced by 0; the status 2 for an overflow is never given, as bios0x0c marks it in R_CMD. */
    method Function4(cx0: nat) returns (ah: nat, cx: nat)
      requires Valid()
      modifies this`sent, this`line, this`first, mem
      ensures Valid() && ah == if (doff == 0 && dseg == 0) || !init then 1 else 0
      ensures ah == 1 ==> line == old(line) && cx == cx0
      ensures ah == 0 ==> line == Get(old(line))
      ensures ah == 0 ==> cx == if old(line).queue == [] then cx0 else old(line).queue[0]
    {
      hide InRing, Sound, HasBit, Capacity, BlockAt;
      ah, cx := 1, cx0;
      if doff == 0 && dseg == 0 { return; }
      FlagIs();
      var flag := ReadByte(R_FLAG);
      if !HasBit(flag, RFLAG_INIT) { return; }
      var cnt := ReadWord(R_CNT);
      if cnt > 0 {
        cx := TakeOut(flag);
        ah := 0;
        return;
      }
      ah := 3;
      ah := 0;
      assert !HasBit(flag, RFLAG_BOVF);
    }

    /** Function 2: how many words there are. */
    method Function2(cx0: nat) returns (ah: nat, cx: nat)
      requires Valid()
      ensures ah == (if (doff == 0 && dseg == 0) || !init then 1 else 0) && cx == if ah == 0 then |line.queue| else cx0
    {
      hide InRing, Sound, HasBit, Capacity, BlockAt;
      ah, cx := 1, cx0;
      if doff == 0 && dseg == 0 { return; }
      FlagIs();
      var flag := ReadByte(R_FLAG);
      if !HasBit(flag, RFLAG_INIT) { return; }
      cx := ReadWord(R_CNT);
      ah := 0;
      assert !HasBit(flag, RFLAG_BOVF);
    }

    /** What the work area says of received bytes. */
    lemma WorkArea()
      ensures PortNow().shift.active <==> sFlag >= 0x80
      ensures PortNow().shift.out <==> sFlag / 0x10 % 2 == 1
      ensures PortNow().shift.del <==> dFlag % 2 == 1 && msw3 >= 0x80
    {
    }

    /** Any interleaving of interrupts and reads on a ring in use: the words read are the ones the queue
        delivers, and the line ends where the run of the steps that the received bytes mean leads. On a line
        without shift codes the words read are those of the bytes received, in order, until the ring is full. */
    method Serve(inputs: seq<Input>) returns (read: seq<nat>)
      requires Valid() && init && !(doff == 0 && dseg == 0)
      modifies this`sent, this`line, this`first, this`sFlag, mem
      ensures Valid() && PortNow() == HandleAll(old(PortNow()), inputs, |inputs|)
      ensures var steps := StepsOf(old(PortNow()), inputs, |inputs|);
        line == Run(old(line), steps, |steps|) && read == Delivered(old(line), steps, |steps|)
      ensures var all := PlainWords(inputs, |inputs|, old(dFlag) % 2 == 1 && old(msw3) >= 0x80);
        old(sFlag) < 0x80 ==>
          (read + line.queue <= old(line).queue + all &&
           (!line.full ==> read + line.queue == old(line).queue + all))
    {
      hide Valid, Put, Get, StepsOf, IsShiftCode, Translated, HasBit, Delivered;
      ghost var p := PortNow();
      WorkArea();
      read := [];
      NothingDelivered(p, inputs);
      for i := 0 to |inputs|
        invariant Valid() && PortNow() == HandleAll(p, inputs, i)
        invariant read == Delivered(p.line, StepsOf(p, inputs, i), |StepsOf(p, inputs, i)|)
      {
        DeliveredStep(p, inputs, i);
        match inputs[i]
        case Byte(data, status) => Interrupt(data, status);
        case Take =>
          var waiting := Waiting();
          var ah, cx := Function4(0);
          if waiting { read := read + [cx]; }
      }
      InputsAreSteps(p, inputs, |inputs|);
      if !p.shift.active { PlainLine(p, inputs, |inputs|); }
    }

    method Waiting() returns (some: bool)
      requires Valid() && init && !(doff == 0 && dseg == 0)
      ensures some <==> line.queue != []
    {
      var ah, cx := Function2(0);
      some := cx > 0;
    }

    // -------------------------------------------------------------- set-up

    /** MEMR_WRITES */
    method WriteBlock(di: nat, rsb: seq<byte>)
      requires mem.Length == WORD16 && |rsb| == RSBIOS && di + RSBIOS <= WORD16
      modifies mem
      ensures mem[di..di + RSBIOS] == rsb
    {
      for i := 0 to RSBIOS
        invariant mem[di..di + i] == rsb[..i]
      {
        mem[di + i] := rsb[i];
      }
    }

    /** bios0x19, functions 0 and 1, as far as the ring is concerned: an empty ring of dx bytes behind
        the control block at di, with flow control for function 1. */
    method SetUp(ah: nat, cl: byte, bh: byte, bl: byte, dx: nat, di: nat)
      requires mem.Length == WORD16 && ah < 2
      requires di + RSBIOS + dx < WORD16 && di + RSBIOS + 2 * Capacity(dx) < WORD16
      modifies this, mem
      ensures Valid() && line == Fresh(dx, ah, cl) && init == !HasBit(cl, 0x40) && doff == di && dseg == es
      ensures mem[di + 4] == (if bh == 0 then 0x04 else bh) && mem[di + 5] == (if bl == 0 then 0x40 else bl)
    {
      hide Capacity, RsBytes, BlockAt, Sound;
      var flag := ah * 16;
      if !HasBit(cl, 0x40) { flag := flag + RFLAG_INIT; }
      var stime := if bh == 0 then 0x04 else bh;
      var rtime := if bl == 0 then 0x40 else bl;
      var head := di + RSBIOS;
      var cnt := dx / 8;
      var cnt2 := cnt + dx / 4;
      var rsb := RsBytes(flag, cl, stime, rtime, cnt, cnt2, head, head + dx);
      WriteBlock(di, rsb);
      doff, dseg, sent := di, es, [];
      line, first, init := Fresh(dx, ah, cl), 0, !HasBit(cl, 0x40);
      BlockOfBytes(mem[..], di, flag, cl, stime, rtime, cnt, cnt2, head, head + dx);
      FreshIsSound(dx, ah, cl);
    }
  }

  /** rsb as bios0x19 fills it in. */
  function RsBytes(flag: nat, cmd: byte, stime: byte, rtime: byte, xoff: nat, xon: nat, head: nat, tail: nat)
    : (b: seq<byte>)
    requires flag < 256 && xoff < WORD16 && xon < WORD16 && head < WORD16 && tail < WORD16
    ensures |b| == RSBIOS
  {
    [0, 0, flag, cmd, stime, rtime] + Le16(xoff) + Le16(xon) + Le16(head) + Le16(tail) + [0, 0]
    + Le16(head) + Le16(head)
  }

  lemma BlockOfBytes(m: seq<byte>, di: nat, flag: nat, cmd: byte, stime: byte, rtime: byte, xoff: nat, xon: nat,
                     head: nat, tail: nat)
    requires flag < 256 && xoff < WORD16 && xon < WORD16 && head < WORD16 && tail < WORD16
    requires di + RSBIOS <= |m| && m[di..di + RSBIOS] == RsBytes(flag, cmd, stime, rtime, xoff, xon, head, tail)
    ensures BlockAt(m, di) == Block(0, flag, cmd, xoff, xon, head, tail, 0, head, head)
    ensures m[di + 4] == stime && m[di + 5] == rtime
  {
    var b := m[di..di + RSBIOS];
    forall i | 0 <= i < RSBIOS ensures m[di + i] == b[i] { }
  }
}
