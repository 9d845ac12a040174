/** The compressor and the decompressor undo each other, and the output always fits its buffer. */
module LzProofs {
  import opened Bytes
  import opened Powers
  import opened Wrappers
  import opened LzFormat

  // ---------------------------------------------------------------- control bits

  predicate Unused(c: nat, slots: nat)
  {
    c < 256 && LowBits(c, slots) == 0
  }

  /** Setting the highest unused bit of a control byte adds its weight. */
  lemma SetBit(c: nat, slots: nat)
    requires 0 < slots <= 8 && Unused(c, slots)
    ensures BitOr(c, Pow2(slots - 1)) == c + Pow2(slots - 1) < 256
  {
    hide Pow2, Shl, Shr, BitOr, LowBits;
    Pow2Grows(slots - 1);
    Pow2Values();
    SplitBits(c, slots);
    OrIsSum(Shr(c, slots), slots, Pow2(slots - 1));
    ShrBound(c, slots, 8 - slots);
    JoinedFits(Shr(c, slots), 8 - slots, slots, Pow2(slots - 1));
  }

  /** Whether or not the bit is set, the lower bits stay unused, the upper ones stay as they are,
      and the decoder can tell which. */
  lemma BitOfSlot(c: nat, slots: nat, flag: bool)
    requires 0 < slots <= 8 && Unused(c, slots)
    ensures var d := c + if flag then Pow2(slots - 1) else 0;
      && LowBits(d, slots - 1) == 0 && Shr(d, slots) == Shr(c, slots)
      && (Shr(d, slots - 1) % 2 == 1 <==> flag)
  {
    var h, b := Shr(c, slots), if flag then 1 else 0;
    var d := c + if flag then Pow2(slots - 1) else 0;
    SplitBits(c, slots);
    ShlSum(h, h, slots - 1);
    ShlSum(2 * h, b, slots - 1);
    ShlOne(slots - 1);
    assert Shl(0, slots - 1) == 0 by { ShlSum(0, 0, slots - 1); }
    assert d == Shl(2 * h + b, slots - 1);
    JoinBits(2 * h + b, slots - 1, 0);
    ShrOnce(d, slots - 1);
  }

  // ---------------------------------------------------------------- one token

  /** The encoder's state between two tokens. */
  predicate Ready(out: seq<byte>, ctrl: nat, slots: nat)
  {
    slots <= 8 && (slots > 0 ==> ctrl < |out| && Unused(out[ctrl], slots))
  }

  /** r continues out: nothing written changes but for the unused bits of the control byte. */
  ghost predicate Extends(out: seq<byte>, r: seq<byte>, ctrl: nat, slots: nat)
  {
    && |out| <= |r|
    && (forall j :: 0 <= j < |out| && j != ctrl ==> r[j] == out[j])
    && (ctrl < |out| ==> Shr(r[ctrl], slots) == Shr(out[ctrl], slots))
  }

  lemma ExtendsFurther(out: seq<byte>, next: seq<byte>, r: seq<byte>, ctrl: nat, slots: nat)
    requires 0 < slots <= 8 && ctrl < |out| && Extends(out, next, ctrl, slots) && Extends(next, r, ctrl, slots - 1)
    ensures Extends(out, r, ctrl, slots)
  {
    ShrOnce(next[ctrl], slots - 1);
    ShrOnce(r[ctrl], slots - 1);
    hide Shr;
  }

  lemma ExtendsNewControl(out: seq<byte>, r: seq<byte>, ctrl: nat)
    requires Extends(out + [0], r, |out|, 8)
    ensures Extends(out, r, ctrl, 0)
  {
    assert forall j :: 0 <= j < |out| ==> (out + [0])[j] == out[j];
  }

  /** A token only appends, and sets or leaves the highest unused bit of its control byte. */
  lemma StepAppends(data: seq<byte>, pos: nat, level: nat, out: seq<byte>, ctrl: nat, slots: nat)
    requires pos < |data| && level <= MAXLEVEL && 0 < slots && Ready(out, ctrl, slots)
    ensures var next := Step(data, pos, level, out, ctrl, slots);
      && Ready(next, ctrl, slots - 1) && Extends(out, next, ctrl, slots)
      && (Shr(next[ctrl], slots - 1) % 2 == 1 <==> Copies(data, pos, level))
  {
    hide Shr, Copies, Best, BitOr, Field;
    var copies := Copies(data, pos, level);
    SetBit(out[ctrl], slots);
    BitOfSlot(out[ctrl], slots, copies);
  }

  /** Later tokens leave what is written alone, but for unused bits of the last control byte. */
  lemma {:induction false} LaterTokensAppend(data: seq<byte>, pos: nat, level: nat, out: seq<byte>, ctrl: nat,
                                             slots: nat)
    requires pos <= |data| && level <= MAXLEVEL && Ready(out, ctrl, slots)
    ensures Extends(out, EncodeFrom(data, pos, level, out, ctrl, slots), ctrl, slots)
    ensures |out| <= |EncodeFrom(data, pos, level, out, ctrl, slots)|
    decreases |data| - pos, slots == 0
  {
    hide Step, Consumed, Extends, Unused;
    if pos == |data| {
      ExtendsItself(out, ctrl, slots);
    } else if slots == 0 {
      NewControlIsReady(out);
      LaterTokensAppend(data, pos, level, out + [0], |out|, 8);
      ExtendsNewControl(out, EncodeFrom(data, pos, level, out, ctrl, slots), ctrl);
    } else {
      var next := Step(data, pos, level, out, ctrl, slots);
      StepAppends(data, pos, level, out, ctrl, slots);
      LaterTokensAppend(data, pos + Consumed(data, pos, level), level, next, ctrl, slots - 1);
      ExtendsFurther(out, next, EncodeFrom(data, pos, level, out, ctrl, slots), ctrl, slots);
    }
  }

  lemma ExtendsItself(out: seq<byte>, ctrl: nat, slots: nat)
    ensures Extends(out, out, ctrl, slots)
  {
  }

  lemma NewControlIsReady(out: seq<byte>)
    ensures Ready(out + [0], |out|, 8)
  {
    Pow2Values();
  }

  // ---------------------------------------------------------------- fields and copies

  lemma PackedFits(m: Match, level: nat)
    requires level <= MAXLEVEL && 0 < m.back <= Pow2(MAXLEVEL - level) && 0 < m.len <= Pow2(level)
    ensures Packed(m, level) < 65536
  {
    hide Pow2, Shl, BitOr;
    Pow2Values();
    OrIsSum(m.back - 1, level, m.len - 1);
    JoinedFits(m.back - 1, MAXLEVEL - level, level, m.len - 1);
  }

  lemma PackedSplits(m: Match, level: nat)
    requires 0 < m.back && 0 < m.len <= Pow2(level)
    ensures Shr(Packed(m, level), level) + 1 == m.back && LowBits(Packed(m, level), level) + 1 == m.len
  {
    hide Pow2, Shl, Shr, LowBits, BitOr;
    OrIsSum(m.back - 1, level, m.len - 1);
    JoinBits(m.back - 1, level, m.len - 1);
  }

  /** Both fields fit in 16 bits, and come apart again. */
  lemma FieldSplits(m: Match, level: nat)
    requires level <= MAXLEVEL && 0 < m.back <= Pow2(MAXLEVEL - level) && 0 < m.len <= Pow2(level)
    ensures Word(Field(m, level)[0], Field(m, level)[1]) == Packed(m, level) < 65536
    ensures Shr(Packed(m, level), level) + 1 == m.back && LowBits(Packed(m, level), level) + 1 == m.len
  {
    PackedFits(m, level);
    PackedSplits(m, level);
    BytesOfWord(Packed(m, level));
    hide Packed, Shr, LowBits, Pow2;
  }

  lemma BytesOfWord(tmp: nat)
    requires tmp < 65536
    ensures Word(tmp / 256 % 256, tmp % 256) == tmp
  {
  }

  /** A match that is written lies within the window and the reach of the level. */
  lemma MatchIsSound(data: seq<byte>, pos: nat, level: nat)
    requires pos <= |data| && level <= MAXLEVEL && Copies(data, pos, level)
    ensures var m := Best(data, pos, level);
      && 0 < m.back <= pos && m.back <= Pow2(MAXLEVEL - level)
      && 0 < m.len <= Pow2(level) && pos + m.len <= |data|
      && Repeats(data, pos, m.back, m.len)
  {
    BestIsLongest(data, pos, level);
  }

  /** Copying byte by byte what repeats itself writes the next bytes of the data, even when the
      copy runs into what it has itself written. */
  lemma {:induction false} CopyContinues(data: seq<byte>, pos: nat, back: nat, len: nat)
    requires 0 < back <= pos && pos + len <= |data| && Repeats(data, pos, back, len)
    ensures CopyBytes(data[..pos], back, len) == data[..pos + len]
  {
    if len > 0 {
      CopyContinues(data, pos, back, len - 1);
      assert data[pos + len - 1] == data[pos + len - 1 - back];
    }
  }

  // ---------------------------------------------------------------- the round trip

  /** What the decoder, which wants the first size bytes, does with one token of the stream r, of which pos
      bytes are decoded. */
  lemma DecodeStep(data: seq<byte>, pos: nat, level: nat, size: nat, out: seq<byte>, ctrl: nat, slots: nat,
                   r: seq<byte>)
    requires pos < size <= |data| && level <= MAXLEVEL && 0 < slots && Ready(out, ctrl, slots)
    requires Extends(Step(data, pos, level, out, ctrl, slots), r, ctrl, slots - 1) && ctrl < |r|
    ensures DecodeFrom(r, |out|, level, size, r[ctrl], slots, data[..pos]) ==
      DecodeFrom(r, |Step(data, pos, level, out, ctrl, slots)|, level, size, r[ctrl], slots - 1,
                 data[..Min(pos + Consumed(data, pos, level), size)])
  {
    StepAppends(data, pos, level, out, ctrl, slots);
    hide DecodeFrom, Flagged, Field, Best, Unused, Shr;
    if Copies(data, pos, level) {
      CopyStep(data, pos, level, size, out, ctrl, slots, r);
    } else {
      LiteralStep(data, pos, level, size, out, ctrl, slots, r);
    }
  }

  lemma LiteralStep(data: seq<byte>, pos: nat, level: nat, size: nat, out: seq<byte>, ctrl: nat, slots: nat,
                    r: seq<byte>)
    requires pos < size <= |data| && level <= MAXLEVEL && 0 < slots && Ready(out, ctrl, slots)
    requires !Copies(data, pos, level) && Extends(Step(data, pos, level, out, ctrl, slots), r, ctrl, slots - 1)
    requires ctrl < |r| && Shr(r[ctrl], slots - 1) % 2 == 0
    ensures DecodeFrom(r, |out|, level, size, r[ctrl], slots, data[..pos]) ==
      DecodeFrom(r, |out| + 1, level, size, r[ctrl], slots - 1, data[..pos + 1])
  {
    hide Best, Unused, Shr, BitAnd, DecodeFrom;
    AndIsBit(r[ctrl], slots - 1);
    assert r[|out|] == data[pos];
    assert data[..pos] + [data[pos]] == data[..pos + 1];
    DecodeLiteral(r, |out|, level, size, r[ctrl], slots, data[..pos]);
  }

  lemma DecodeLiteral(src: seq<byte>, i: nat, level: nat, size: nat, ctrl: byte, slots: nat, out: seq<byte>)
    requires |out| < size && 0 < slots && BitAnd(ctrl, Pow2(slots - 1)) == 0 && i < |src|
    ensures DecodeFrom(src, i, level, size, ctrl, slots, out) ==
      DecodeFrom(src, i + 1, level, size, ctrl, slots - 1, out + [src[i]])
  {
  }

  /** Where the decoder does not fail, the stream goes on and no copy reaches back too far. */
  lemma DecodeNeeds(src: seq<byte>, i: nat, level: nat, size: nat, ctrl: byte, slots: nat, out: seq<byte>)
    requires |out| < size && DecodeFrom(src, i, level, size, ctrl, slots, out).Some?
    ensures i < |src|
    ensures slots > 0 && BitAnd(ctrl, Pow2(slots - 1)) != 0 ==>
      i + 1 < |src| && Shr(Word(src[i], src[i + 1]), level) + 1 <= |out|
  {
  }

  lemma DecodeCopy(src: seq<byte>, i: nat, level: nat, size: nat, ctrl: byte, slots: nat, out: seq<byte>, back: nat,
                   len: nat)
    requires |out| < size && 0 < slots && BitAnd(ctrl, Pow2(slots - 1)) != 0 && i + 1 < |src|
    requires 0 < back <= |out| && 0 < len <= size - |out|
    requires var tmp := Word(src[i], src[i + 1]);
      back == Shr(tmp, level) + 1 && len == Min(LowBits(tmp, level) + 1, size - |out|)
    ensures DecodeFrom(src, i, level, size, ctrl, slots, out) ==
      DecodeFrom(src, i + 2, level, size, ctrl, slots - 1, CopyBytes(out, back, len))
  {
  }

  /** The field of a copy stands in the finished stream where it was written. */
  lemma FieldStands(data: seq<byte>, pos: nat, level: nat, out: seq<byte>, ctrl: nat, slots: nat, r: seq<byte>)
    requires pos < |data| && level <= MAXLEVEL && 0 < slots && ctrl < |out| && Copies(data, pos, level)
    requires Extends(Step(data, pos, level, out, ctrl, slots), r, ctrl, slots - 1)
    ensures |out| + 1 < |r| && Word(r[|out|], r[|out| + 1]) == Packed(Best(data, pos, level), level)
  {
    hide Packed, BitOr, Shr, Best;
    var m := Best(data, pos, level);
    MatchIsSound(data, pos, level);
    FieldSplits(m, level);
    assert r[|out|] == Field(m, level)[0] && r[|out| + 1] == Field(m, level)[1];
  }

  lemma CopyStep(data: seq<byte>, pos: nat, level: nat, size: nat, out: seq<byte>, ctrl: nat, slots: nat, r: seq<byte>)
    requires pos < size <= |data| && level <= MAXLEVEL && 0 < slots && ctrl < |out| && Copies(data, pos, level)
    requires Extends(Step(data, pos, level, out, ctrl, slots), r, ctrl, slots - 1)
    requires ctrl < |r| && Shr(r[ctrl], slots - 1) % 2 == 1
    ensures DecodeFrom(r, |out|, level, size, r[ctrl], slots, data[..pos]) ==
      DecodeFrom(r, |out| + 2, level, size, r[ctrl], slots - 1, data[..Min(pos + Consumed(data, pos, level), size)])
  {
    hide Best, Packed, BitOr, BitAnd, DecodeFrom, Field, Shr, LowBits, Step, Extends, Pow2, Word;
    var m := Best(data, pos, level);
    var len := Min(m.len, size - pos);
    AndIsBit(r[ctrl], slots - 1);
    MatchIsSound(data, pos, level);
    FieldSplits(m, level);
    FieldStands(data, pos, level, out, ctrl, slots, r);
    CopyContinues(data, pos, m.back, len);
    DecodeCopy(r, |out|, level, size, r[ctrl], slots, data[..pos], m.back, len);
  }

  lemma DecodeControl(src: seq<byte>, i: nat, level: nat, size: nat, c: byte, out: seq<byte>)
    requires i < |src| && |out| < size
    ensures DecodeFrom(src, i, level, size, c, 0, out) == DecodeFrom(src, i + 1, level, size, src[i], 8, out)
  {
  }

  lemma DecodeDone(src: seq<byte>, i: nat, level: nat, c: byte, slots: nat, out: seq<byte>)
    ensures DecodeFrom(src, i, level, |out|, c, slots, out) == Some(out)
  {
  }

  lemma EncodeDone(data: seq<byte>, level: nat, out: seq<byte>, ctrl: nat, slots: nat)
    requires level <= MAXLEVEL && (slots > 0 ==> ctrl < |out|)
    ensures EncodeFrom(data, |data|, level, out, ctrl, slots) == out
  {
  }

  lemma EncodeControl(data: seq<byte>, pos: nat, level: nat, out: seq<byte>, ctrl: nat)
    requires pos < |data| && level <= MAXLEVEL
    ensures var r := EncodeFrom(data, pos, level, out, ctrl, 0);
      r == EncodeFrom(data, pos, level, out + [0], |out|, 8) && |out| < |r|
  {
    NewControlIsReady(out);
    LaterTokensAppend(data, pos, level, out + [0], |out|, 8);
  }

  lemma EncodeToken(data: seq<byte>, pos: nat, level: nat, out: seq<byte>, ctrl: nat, slots: nat)
    requires pos < |data| && level <= MAXLEVEL && 0 < slots && Ready(out, ctrl, slots)
    ensures var r, next := EncodeFrom(data, pos, level, out, ctrl, slots), Step(data, pos, level, out, ctrl, slots);
      && r == EncodeFrom(data, pos + Consumed(data, pos, level), level, next, ctrl, slots - 1)
      && Ready(next, ctrl, slots - 1) && Extends(next, r, ctrl, slots - 1) && ctrl < |r|
  {
    var next := Step(data, pos, level, out, ctrl, slots);
    StepAppends(data, pos, level, out, ctrl, slots);
    LaterTokensAppend(data, pos + Consumed(data, pos, level), level, next, ctrl, slots - 1);
    hide Step, Consumed, Unused;
  }

  /** From any position on, the decoder takes out of the finished stream as many bytes as it wants. */
  lemma {:induction false} DecodeUndoesEncode(data: seq<byte>, pos: nat, level: nat, size: nat, out: seq<byte>,
                                              ctrl: nat, slots: nat, r: seq<byte>, c: byte)
    requires pos <= size <= |data| && level <= MAXLEVEL && Ready(out, ctrl, slots)
    requires r == EncodeFrom(data, pos, level, out, ctrl, slots)
    requires slots > 0 && ctrl < |r| ==> c == r[ctrl]
    ensures DecodeFrom(r, |out|, level, size, c, slots, data[..pos]) == Some(data[..size])
    decreases size - pos, slots == 0
  {
    hide EncodeFrom, DecodeFrom, Step, Consumed, Extends, Unused;
    if pos == size {
      DecodeDone(r, |out|, level, c, slots, data[..size]);
    } else if slots == 0 {
      EncodeControl(data, pos, level, out, ctrl);
      NewControlIsReady(out);
      DecodeControl(r, |out|, level, size, c, data[..pos]);
      DecodeUndoesEncode(data, pos, level, size, out + [0], |out|, 8, r, r[|out|]);
    } else {
      var next, end := Step(data, pos, level, out, ctrl, slots), pos + Consumed(data, pos, level);
      EncodeToken(data, pos, level, out, ctrl, slots);
      DecodeStep(data, pos, level, size, out, ctrl, slots, r);
      if end <= size {
        DecodeUndoesEncode(data, end, level, size, next, ctrl, slots - 1, r, c);
      } else {
        DecodeDone(r, |next|, level, c, slots - 1, data[..size]);
      }
    }
  }

  lemma Residue(x: nat, c: nat, low: nat)
    requires x == low + 0x100_0000 * c && low < 0x100_0000
    ensures x % 0x100_0000 == low
  {
  }

  lemma QuotientTwice(x: nat)
    ensures x / 65536 == x / 256 / 256
  {
  }

  lemma HeaderSize(size: nat, level: nat)
    requires level <= MAXLEVEL
    ensures var h := Header(size, level);
      Word(h[1], h[0]) + Word(h[2], 0) * 256 == size % 0x100_0000
  {
    var a := size / 256;
    var b := a / 256;
    var r0, r1, r2, c := size % 256, a % 256, b % 256, b / 256;
    QuotientTwice(size);
    Residue(size, c, r0 + 256 * r1 + 65536 * r2);
  }

  /** What the decoder is started on: the size the header holds, and the stream behind it. */
  lemma DecodeReadsHeader(data: seq<byte>, level: nat)
    requires level <= MAXLEVEL
    ensures Decode(Encode(data, level)) ==
      DecodeFrom(Encode(data, level), 4, level, |data| % 0x100_0000, 0, 0, [])
  {
    var h, r := Header(|data|, level), Encode(data, level);
    LaterTokensAppend(data, 0, level, h, 0, 0);
    assert r[0] == h[0] && r[1] == h[1] && r[2] == h[2] && r[3] == h[3];
    HeaderSize(|data|, level);
    hide Header, EncodeFrom, DecodeFrom;
  }

  lemma DecodeStart(data: seq<byte>, level: nat, size: nat)
    requires level <= MAXLEVEL && size <= |data|
    ensures DecodeFrom(Encode(data, level), 4, level, size, 0, 0, []) == Some(data[..size])
  {
    assert data[..0] == [] && |Header(|data|, level)| == 4;
    hide Header, EncodeFrom, DecodeFrom;
    DecodeUndoesEncode(data, 0, level, size, Header(|data|, level), 0, 0, Encode(data, level), 0);
  }

  /** What decoding gives back of any input at any level: as many of its first bytes as the 24 bits that
      the header has for the size can say. */
  lemma DecodeGivesPrefix(data: seq<byte>, level: nat)
    requires level <= MAXLEVEL
    ensures Decode(Encode(data, level)) == Some(data[..|data| % 0x100_0000])
  {
    hide Encode, Decode, DecodeFrom;
    DecodeReadsHeader(data, level);
    DecodeStart(data, level, |data| % 0x100_0000);
  }

  /** The round trip: decoding what the compressor writes gives back the input, at every level, if
      and only if its length fits those 24 bits. */
  lemma RoundTrip(data: seq<byte>, level: nat)
    requires level <= MAXLEVEL
    ensures Decode(Encode(data, level)) == Some(data) <==> |data| < 0x100_0000
  {
    hide Encode, Decode;
    DecodeGivesPrefix(data, level);
    if |data| < 0x100_0000 { assert data[..|data|] == data; }
  }

  // ---------------------------------------------------------------- the size

  function Ceil8(n: nat): nat { (n + 7) / 8 }

  /** Each token writes no more bytes than it stands for, and each control byte serves eight. */
  lemma {:induction false} SizeFrom(data: seq<byte>, pos: nat, level: nat, out: seq<byte>, ctrl: nat, slots: nat)
    requires pos <= |data| && level <= MAXLEVEL && slots <= 8 && (slots > 0 ==> ctrl < |out|)
    ensures var rest := |data| - pos;
      |EncodeFrom(data, pos, level, out, ctrl, slots)|
        <= |out| + rest + if rest <= slots then 0 else Ceil8(rest - slots)
    decreases |data| - pos, slots == 0
  {
    hide Copies, Flagged, Field, Best;
    if pos < |data| {
      if slots == 0 {
        SizeFrom(data, pos, level, out + [0], |out|, 8);
      } else {
        SizeFrom(data, pos + Consumed(data, pos, level), level, Step(data, pos, level, out, ctrl, slots),
                 ctrl, slots - 1);
      }
    }
  }

  /** The output never exceeds the header, a bit a byte and the bytes, which the buffer lzpack
      allocates always holds with room to spare. */
  lemma SizeBound(data: seq<byte>, level: nat)
    requires level <= MAXLEVEL
    ensures |Encode(data, level)| <= 4 + Ceil8(|data|) + |data| < 9 * Ceil8(|data|) + 8
  {
    SizeFrom(data, 0, level, Header(|data|, level), 0, 0);
  }
}
