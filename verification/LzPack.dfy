/** lzxpack.c and bmpdata.c as they work, with loops over buffers written in place. */
module LzPack {
  import opened Bytes
  import opened Powers
  import opened Wrappers
  import opened LzFormat
  import opened LzProofs
  import opened LzStream

  /** The innermost loop of lzpacking: r bytes of rem are left unmatched at distance back. */
  method Unmatched(data: seq<byte>, pos: nat, back: nat, rem: nat) returns (r: nat)
    requires 0 < back <= pos && pos + rem <= |data|
    ensures r <= rem && rem - r == MatchLength(data, pos, back, rem, 0)
  {
    var p, q := pos - back, pos;
    r := rem;
    while r > 0
      invariant r <= rem && p == pos - back + (rem - r) && q == pos + (rem - r)
      invariant Repeats(data, pos, back, rem - r)
      invariant MatchLength(data, pos, back, rem, 0) == MatchLength(data, pos, back, rem, rem - r)
    {
      if data[p] != data[q] { break; }
      p, q := p + 1, q + 1;
      r := r - 1;
    }
  }

  lemma SearchStep(data: seq<byte>, pos: nat, back: nat, rem: nat, best: Match)
    requires 0 < back <= pos && pos + rem <= |data| && best.len <= rem && (best.len > 0 ==> best.back > 0)
    ensures var len := MatchLength(data, pos, back, rem, 0);
      Search(data, pos, back, rem, best) ==
      Search(data, pos, back - 1, rem, if len >= best.len then Match(back, len) else best)
  {
  }

  lemma SearchDone(data: seq<byte>, pos: nat, rem: nat, best: Match)
    requires pos + rem <= |data| && best.len <= rem && (best.len > 0 ==> best.back > 0)
    ensures Search(data, pos, 0, rem, best) == best
  {
  }

  /** The search of lzpacking over distances back, back - 1, ..., 1. */
  method SearchBack(data: seq<byte>, pos: nat, back0: nat, rem: nat) returns (minback: nat, len: nat)
    requires back0 <= pos && pos + rem <= |data|
    ensures Match(minback, len) == Search(data, pos, back0, rem, Match(back0, 0))
  {
    hide Search;
    var back: nat, minr: nat := back0, rem;
    minback := back;
    assert rem - minr == 0;
    while back > 0
      invariant back <= pos && minr <= rem && (minr < rem ==> minback > 0)
      invariant Search(data, pos, back0, rem, Match(back0, 0))
        == Search(data, pos, back, rem, Match(minback, rem - minr))
    {
      hide MatchLength;
      SearchStep(data, pos, back, rem, Match(minback, rem - minr));
      var r := Unmatched(data, pos, back, rem);
      if minr >= r {
        minr := r;
        minback := back;
      }
      back := back - 1;
    }
    len := rem - minr;
    SearchDone(data, pos, rem, Match(minback, len));
  }

  /** The search of lzpacking at one position. */
  method FindMatch(data: seq<byte>, pos: nat, level: nat) returns (minback: nat, len: nat)
    requires pos < |data| && level <= MAXLEVEL
    ensures Match(minback, len) == Best(data, pos, level)
  {
    hide Search, Pow2;
    var back := Min(pos, Pow2(MAXLEVEL - level));
    var rem := Min(|data| - pos, Pow2(level));
    minback, len := SearchBack(data, pos, back, rem);
  }

  /** What the loop of lzpacking has reached: the rest of the stream, appended to the k bytes
      written, makes the whole; bit is the control bit to use next, 0 if the byte is used up. */
  ghost predicate Written(data: seq<byte>, level: nat, buf: array<byte>, pos: nat, k: nat, ctrl: nat, slots: nat,
                          bit: nat)
    requires level <= MAXLEVEL
    reads buf
  {
    && pos <= |data| && k <= |Encode(data, level)| <= buf.Length && Ready(buf[..k], ctrl, slots)
    && EncodeFrom(data, pos, level, buf[..k], ctrl, slots) == Encode(data, level)
    && bit == if slots == 0 then 0 else Pow2(slots - 1)
  }

  /** A new control byte, all its bits still to be used. */
  method BeginControl(data: seq<byte>, level: nat, buf: array<byte>, pos: nat, k: nat, ghost ctrl0: nat)
    returns (ctrl: nat, bit: nat)
    requires level <= MAXLEVEL && Written(data, level, buf, pos, k, ctrl0, 0, 0) && pos < |data|
    modifies buf
    ensures ctrl == k && bit > 0 && Written(data, level, buf, pos, k + 1, ctrl, 8, bit)
  {
    EncodeControl(data, pos, level, buf[..k], ctrl0);
    NewControlIsReady(buf[..k]);
    Pow2Values();
    assert Pow2(7) == 0x80;
    bit := 0x80;
    ctrl := k;
    buf[k] := 0x00;
    assert buf[..k + 1] == old(buf[..k]) + [0];
    hide EncodeFrom;
  }

  /** One token: a flagged field if the match is worth it, the byte itself otherwise. */
  method PutToken(data: seq<byte>, level: nat, buf: array<byte>, pos0: nat, k0: nat, ctrl: nat, bit: nat,
                  ghost slots: nat)
    returns (pos: nat, k: nat)
    requires level <= MAXLEVEL && pos0 < |data| && 0 < slots && bit == Pow2(slots - 1) && ctrl < k0 <= buf.Length
    requires |Step(data, pos0, level, buf[..k0], ctrl, slots)| <= buf.Length
    modifies buf
    ensures pos == pos0 + Consumed(data, pos0, level) && k <= buf.Length
    ensures buf[..k] == Step(data, pos0, level, old(buf[..k0]), ctrl, slots)
  {
    hide Pow2;
    var minback, r := FindMatch(data, pos0, level);
    hide Best;
    if r > 2 {
      pos := pos0 + r;
      var tmp := BitOr(Shl(minback - 1, level), r - 1);
      buf[ctrl] := BitOr(buf[ctrl], bit) % 256;
      buf[k0] := tmp / 256 % 256;
      buf[k0 + 1] := tmp % 256;
      k := k0 + 2;
    } else {
      buf[k0] := data[pos0];
      pos, k := pos0 + 1, k0 + 1;
    }
  }

  lemma TokenFits(data: seq<byte>, level: nat, out: seq<byte>, pos: nat, ctrl: nat, slots: nat)
    requires level <= MAXLEVEL && pos < |data| && 0 < slots && Ready(out, ctrl, slots)
    requires EncodeFrom(data, pos, level, out, ctrl, slots) == Encode(data, level)
    ensures var next := Step(data, pos, level, out, ctrl, slots);
      && Ready(next, ctrl, slots - 1) && |next| <= |Encode(data, level)|
      && EncodeFrom(data, pos + Consumed(data, pos, level), level, next, ctrl, slots - 1) == Encode(data, level)
  {
    hide EncodeFrom, Step, Consumed, Ready, Header;
    EncodeToken(data, pos, level, out, ctrl, slots);
  }

  method WriteToken(data: seq<byte>, level: nat, buf: array<byte>, pos0: nat, k0: nat, ctrl: nat, bit: nat,
                    ghost slots: nat)
    returns (pos: nat, k: nat)
    requires level <= MAXLEVEL && Written(data, level, buf, pos0, k0, ctrl, slots, bit) && slots > 0 && pos0 < |data|
    modifies buf
    ensures pos == pos0 + Consumed(data, pos0, level)
    ensures Written(data, level, buf, pos, k, ctrl, slots - 1, if slots == 1 then 0 else Pow2(slots - 2))
  {
    hide EncodeFrom, Unused, Pow2, Step, Consumed, Extends, Header;
    TokenFits(data, level, buf[..k0], pos0, ctrl, slots);
    pos, k := PutToken(data, level, buf, pos0, k0, ctrl, bit, slots);
  }

  /** The loop of lzpacking. */
  method WriteTokens(data: seq<byte>, level: nat, buf: array<byte>, k0: nat) returns (k: nat)
    requires level <= MAXLEVEL && Written(data, level, buf, 0, k0, 0, 0, 0)
    modifies buf
    ensures k == |Encode(data, level)| <= buf.Length && buf[..k] == Encode(data, level)
  {
    hide Written, Consumed, Encode;
    var pos: nat, ctrl: nat, bit: nat := 0, 0, 0;
    ghost var slots: nat := 0;
    k := k0;
    WrittenFits(data, level, buf, pos, k, ctrl, slots, bit);
    while pos < |data|
      invariant pos <= |data| && Written(data, level, buf, pos, k, ctrl, slots, bit)
      decreases |data| - pos
    {
      if bit == 0 {
        NoBitLeft(data, level, buf, pos, k, ctrl, slots);
        ctrl, bit := BeginControl(data, level, buf, pos, k, ctrl);
        k, slots := k + 1, 8;
      }
      BitLeft(data, level, buf, pos, k, ctrl, slots, bit);
      pos, k := WriteToken(data, level, buf, pos, k, ctrl, bit, slots);
      slots := slots - 1;
      bit := bit / 2;
      WrittenFits(data, level, buf, pos, k, ctrl, slots, bit);
    }
    AllWritten(data, level, buf, k, ctrl, slots, bit);
  }

  lemma WrittenFits(data: seq<byte>, level: nat, buf: array<byte>, pos: nat, k: nat, ctrl: nat, slots: nat, bit: nat)
    requires level <= MAXLEVEL && Written(data, level, buf, pos, k, ctrl, slots, bit)
    ensures pos <= |data|
  {
  }

  lemma AllWritten(data: seq<byte>, level: nat, buf: array<byte>, k: nat, ctrl: nat, slots: nat, bit: nat)
    requires level <= MAXLEVEL && Written(data, level, buf, |data|, k, ctrl, slots, bit)
    ensures k == |Encode(data, level)| <= buf.Length && buf[..k] == Encode(data, level)
  {
    EncodeDone(data, level, buf[..k], ctrl, slots);
  }

  lemma NoBitLeft(data: seq<byte>, level: nat, buf: array<byte>, pos: nat, k: nat, ctrl: nat, slots: nat)
    requires level <= MAXLEVEL && Written(data, level, buf, pos, k, ctrl, slots, 0)
    ensures slots == 0
  {
  }

  lemma BitLeft(data: seq<byte>, level: nat, buf: array<byte>, pos: nat, k: nat, ctrl: nat, slots: nat, bit: nat)
    requires level <= MAXLEVEL && Written(data, level, buf, pos, k, ctrl, slots, bit) && bit > 0
    ensures slots > 0 && bit / 2 == if slots == 1 then 0 else Pow2(slots - 2)
  {
  }

  /** lzpacking: the buffer receives the encoding of data at this level. */
  method Lzpacking(data: seq<byte>, buf: array<byte>, level: nat) returns (size: nat)
    requires level <= MAXLEVEL && buf.Length >= (|data| + 7) / 8 * 9 + 8
    modifies buf
    ensures size == |Encode(data, level)| <= buf.Length && buf[..size] == Encode(data, level)
  {
    SizeBound(data, level);
    LaterTokensAppend(data, 0, level, Header(|data|, level), 0, 0);
    hide EncodeFrom;
    buf[0] := |data| % 256;
    buf[1] := |data| / 256 % 256;
    buf[2] := |data| / 65536 % 256;
    buf[3] := level;
    assert buf[..4] == Header(|data|, level);
    size := WriteTokens(data, level, buf, 4);
  }

  lemma SmallestStream(data: seq<byte>, level: nat, buf: seq<byte>)
    requires level <= MAXLEVEL && buf == Encode(data, level)
    requires forall l :: 0 <= l <= MAXLEVEL ==> |buf| <= |Encode(data, l)|
    ensures Covers(data, 0, level, Tokens(data, 0, level))
    ensures 4 <= |buf| && buf[4..] == Layout(Tokens(data, 0, level), level, 0)
    ensures forall l :: 0 <= l <= MAXLEVEL ==> |buf| <= StreamSize(Tokens(data, 0, l))
  {
    hide Tokens, Covers, Encode, Layout, StreamSize;
    EncodeIsStream(data, level);
    forall l | 0 <= l <= MAXLEVEL ensures |buf| <= StreamSize(Tokens(data, 0, l)) { EncodeSize(data, l); }
  }

  /** lzpack tries every level in the same buffer and keeps the first that gives the smallest
      encoding; that encoding is what it returns, and its header names the level. It is the layout of the
      greedy tokens of that level, and none of another level's has a smaller one. */
  method Lzpack(data: seq<byte>) returns (buf: array<byte>, size: nat)
    ensures fresh(buf) && 4 <= size <= buf.Length && buf[3] <= MAXLEVEL && buf[..size] == Encode(data, buf[3])
    ensures forall l :: 0 <= l <= MAXLEVEL ==> size <= |Encode(data, l)|
    ensures forall l :: 0 <= l < buf[3] ==> size < |Encode(data, l)|
    ensures var ts := Tokens(data, 0, buf[3]);
      Covers(data, 0, buf[3], ts) && buf[..size][4..] == Layout(ts, buf[3], 0)
    ensures forall l :: 0 <= l <= 16 ==> size <= StreamSize(Tokens(data, 0, l))
  {
    hide Tokens, Covers, Layout, StreamSize;
    var memsize := (|data| + 7) / 8 * 9 + 8;
    buf := new byte[memsize];
    var level, minsize := 0, memsize;
    for i := 0 to MAXLEVEL + 1
      invariant level <= MAXLEVEL && (i > 0 ==> level < i && minsize == |Encode(data, level)|)
      invariant i == 0 ==> minsize == memsize
      invariant forall l :: 0 <= l < i ==> minsize <= |Encode(data, l)|
      invariant forall l :: 0 <= l < level ==> minsize < |Encode(data, l)|
    {
      size := Lzpacking(data, buf, i);
      SizeBound(data, i);
      if minsize > size {
        minsize := size;
        level := i;
      }
    }
    size := Lzpacking(data, buf, level);
    LaterTokensAppend(data, 0, level, Header(|data|, level), 0, 0);
    assert buf[..size][3] == level;
    SmallestStream(data, level, buf[..size]);
  }

  // ---------------------------------------------------------------- bmpdata.c

  /** *ptr = *(ptr + pos), leng times. */
  method CopyBack(ret: array<byte>, k0: nat, back: nat, leng: nat) returns (k: nat)
    requires 0 < back <= k0 && k0 + leng <= ret.Length
    modifies ret
    ensures k == k0 + leng && ret[..k] == CopyBytes(old(ret[..k0]), back, leng)
  {
    k := k0;
    for i := 0 to leng
      invariant k == k0 + i && ret[..k] == CopyBytes(old(ret[..k0]), back, i)
    {
      ret[k] := ret[k - back];
      k := k + 1;
      assert ret[..k] == ret[..k - 1] + [ret[k - 1]];
    }
  }

  /** Where bmpdata_lzx stands: k bytes are out, left are to come, and reading on from byte i
      gives what the whole stream gives. */
  ghost predicate Solving(level: nat, dstsize: nat, dat: seq<byte>, start: nat, ret: array<byte>,
                          left: nat, i: nat, k: nat, ctrl: byte, bit: nat, slots: nat)
    reads ret
  {
    && k + left == dstsize == ret.Length && bit == (if slots == 0 then 0 else Pow2(slots - 1))
    && DecodeFrom(dat, i, level, dstsize, ctrl, slots, ret[..k]).Some?
    && DecodeFrom(dat, start, level, dstsize, 0, 0, []) == DecodeFrom(dat, i, level, dstsize, ctrl, slots, ret[..k])
  }

  /** One token of the stream. */
  method SolveToken(level: nat, ghost dstsize: nat, dat: seq<byte>, ghost start: nat, ret: array<byte>,
                    left0: nat, i0: nat, k0: nat, ctrl: byte, bit: nat, ghost slots: nat)
    returns (left: nat, i: nat, k: nat)
    requires slots > 0 && left0 > 0 && Solving(level, dstsize, dat, start, ret, left0, i0, k0, ctrl, bit, slots)
    modifies ret
    ensures left < left0
    ensures Solving(level, dstsize, dat, start, ret, left, i, k, ctrl, if slots == 1 then 0 else Pow2(slots - 2),
                    slots - 1)
  {
    hide DecodeFrom, BitAnd, Shr, LowBits;
    ghost var out := ret[..k0];
    DecodeNeeds(dat, i0, level, dstsize, ctrl, slots, out);
    if BitAnd(ctrl, bit) != 0 {
      var tmp := Word(dat[i0], dat[i0 + 1]);
      i := i0 + 2;
      var leng := Min(LowBits(tmp, level) + 1, left0);
      left := left0 - leng;
      DecodeCopy(dat, i0, level, dstsize, ctrl, slots, out, Shr(tmp, level) + 1, leng);
      k := CopyBack(ret, k0, Shr(tmp, level) + 1, leng);
    } else {
      DecodeLiteral(dat, i0, level, dstsize, ctrl, slots, out);
      ret[k0] := dat[i0];
      i, k, left := i0 + 1, k0 + 1, left0 - 1;
      assert ret[..k] == out + [dat[i0]];
    }
  }

  /** bmpdata_lzx on a stream that does not end early or reach back too far: it fills the buffer
      with what the stream stands for. */
  method BmpdataLzx(level: nat, dstsize: nat, dat: seq<byte>, start: nat) returns (ret: array<byte>)
    requires DecodeFrom(dat, start, level, dstsize, 0, 0, []).Some?
    ensures fresh(ret) && DecodeFrom(dat, start, level, dstsize, 0, 0, []) == Some(ret[..])
  {
    ret := new byte[dstsize];
    assert ret[..0] == [];
    var left: nat, i: nat, k: nat, ctrl: byte, bit: nat := dstsize, start, 0, 0, 0;
    ghost var slots: nat := 0;
    while left > 0
      invariant Solving(level, dstsize, dat, start, ret, left, i, k, ctrl, bit, slots)
      decreases left
    {
      hide DecodeFrom;
      if bit == 0 {
        DecodeNeeds(dat, i, level, dstsize, ctrl, slots, ret[..k]);
        DecodeControl(dat, i, level, dstsize, ctrl, ret[..k]);
        Pow2Values();
        ctrl := dat[i];
        i, bit, slots := i + 1, 0x80, 8;
      }
      left, i, k := SolveToken(level, dstsize, dat, start, ret, left, i, k, ctrl, bit, slots);
      slots := slots - 1;
      bit := bit / 2;
    }
    DecodeDone(dat, i, level, ctrl, slots, ret[..k]);
    assert ret[..k] == ret[..];
  }

  /** bmpdata_solvedata on what Lzpack made of data: the data again, or what of it the header can count. */
  method PackAndSolve(data: seq<byte>) returns (ret: array<byte>)
    ensures fresh(ret) && ret[..] == data[..|data| % 0x100_0000]
  {
    var buf, size := Lzpack(data);
    var dat := buf[..size];
    DecodeGivesPrefix(data, buf[3]);
    var dstsize := Word(dat[1], dat[0]) + Word(dat[2], 0) * 256;
    ret := BmpdataLzx(dat[3], dstsize, dat, 4);
  }
}
