/** The decoder reads every stream of tokens, not only those of the greedy compressor. */
module LzReader {
  import opened Bytes
  import opened Powers
  import opened Wrappers
  import opened LzFormat
  import opened LzProofs
  import opened LzStream

  /** A token that can follow n bytes of output at a level. */
  predicate Readable(t: Token, level: nat, n: nat)
    requires level <= MAXLEVEL
  {
    match t
    case Literal(_) => true
    case Copy(back, len) => 0 < back <= n && back <= Pow2(16 - level) && 0 < len <= Pow2(level)
  }

  /** The output with one token more: its byte, or bytes each of which repeats the one back bytes before it. */
  ghost predicate Continues(out: seq<byte>, t: Token, r: seq<byte>)
  {
    && out <= r && |r| == |out| + Length(t)
    && (t.Literal? ==> r[|out|] == t.value)
    && (t.Copy? ==> 0 < t.back <= |out| && forall k :: |out| <= k < |r| ==> r[k] == r[k - t.back])
  }

  function Played(out: seq<byte>, t: Token, level: nat): (r: seq<byte>)
    requires level <= MAXLEVEL && Readable(t, level, |out|)
    ensures |r| == |out| + Length(t)
  {
    match t
    case Literal(value) => out + [value]
    case Copy(back, len) => CopyBytes(out, back, len)
  }

  lemma {:induction false} CopyRepeats(out: seq<byte>, back: nat, len: nat)
    requires 0 < back <= |out|
    ensures Continues(out, Copy(back, len), CopyBytes(out, back, len))
  {
    if len > 0 { CopyRepeats(out, back, len - 1); }
  }

  lemma PlayedContinues(out: seq<byte>, t: Token, level: nat)
    requires level <= MAXLEVEL && Readable(t, level, |out|)
    ensures Continues(out, t, Played(out, t, level))
  {
    if t.Copy? { CopyRepeats(out, t.back, t.len); }
    hide CopyBytes;
  }

  /** Every token can follow what those before it have put out. */
  predicate AllReadable(ts: seq<Token>, level: nat, n: nat)
    requires level <= MAXLEVEL
    decreases |ts|
  {
    ts == [] || (Readable(ts[0], level, n) && AllReadable(ts[1..], level, n + Length(ts[0])))
  }

  /** The output behind all tokens. */
  function PlayedAll(out: seq<byte>, ts: seq<Token>, level: nat): (r: seq<byte>)
    requires level <= MAXLEVEL && AllReadable(ts, level, |out|)
    ensures |out| <= |r|
    decreases |ts|
  {
    if ts == [] then out else PlayedAll(Played(out, ts[0], level), ts[1..], level)
  }

  lemma {:induction false} PlayedAllKeeps(out: seq<byte>, ts: seq<Token>, level: nat)
    requires level <= MAXLEVEL && AllReadable(ts, level, |out|)
    ensures out <= PlayedAll(out, ts, level)
    decreases |ts|
  {
    hide Played, Readable;
    if ts != [] {
      PlayedContinues(out, ts[0], level);
      PlayedAllKeeps(Played(out, ts[0], level), ts[1..], level);
    }
  }

  // ---------------------------------------------------------------- one bit, one field

  lemma {:induction false} TopBit(c: nat, n: nat)
    ensures LowBits(c, n + 1) == LowBits(c, n) + if Shr(c, n) % 2 == 1 then Pow2(n) else 0
  {
    if n > 0 { TopBit(c / 2, n - 1); }
  }

  /** The decoder's test of the next bit tells a copy from a literal. */
  lemma BitTells(c: nat, ts: seq<Token>, slots: nat)
    requires ts != [] && slots > 0 && LowBits(c, slots) == Bits(ts, slots)
    ensures BitAnd(c, Pow2(slots - 1)) != 0 <==> ts[0].Copy?
    ensures LowBits(c, slots - 1) == Bits(ts[1..], slots - 1)
  {
    BitsFit(ts[1..], slots - 1);
    SplitBits(c, slots - 1);
    TopBit(c, slots - 1);
    AndIsBit(c, slots - 1);
    hide LowBits, Shr, BitAnd, Pow2;
  }

  lemma FieldReads(t: Token, level: nat)
    requires t.Copy? && level <= MAXLEVEL && 0 < t.back <= Pow2(MAXLEVEL - level) && 0 < t.len <= Pow2(level)
    ensures var b := TokenBytes(t, level);
      Word(b[0], b[1]) >= 0 && Shr(Word(b[0], b[1]), level) + 1 == t.back
      && LowBits(Word(b[0], b[1]), level) + 1 == t.len
  {
    var m := Match(t.back, t.len);
    FieldIs(m, level);
    FieldSplits(m, level);
    hide Pow2, Shr, LowBits, Packed;
  }

  // ---------------------------------------------------------------- a whole stream

  lemma {:induction false} CopyPrefix(out: seq<byte>, back: nat, len: nat, n: nat)
    requires 0 < back <= |out| && n <= len
    ensures CopyBytes(out, back, n) == CopyBytes(out, back, len)[..|out| + n]
  {
    if n < len { CopyPrefix(out, back, len - 1, n); }
  }

  /** From any byte of a stream on, the decoder puts out what the tokens from there on say, as much as it wants. */
  lemma {:induction false} DecodePlays(src: seq<byte>, i: nat, level: nat, size: nat, c: byte, slots: nat,
                                       out: seq<byte>, ts: seq<Token>)
    requires level <= MAXLEVEL && slots <= 8 && AllReadable(ts, level, |out|)
    requires |out| <= size <= |PlayedAll(out, ts, level)|
    requires i <= |src| && Layout(ts, level, slots) <= src[i..] && LowBits(c, slots) == Bits(ts, slots)
    ensures DecodeFrom(src, i, level, size, c, slots, out) == Some(PlayedAll(out, ts, level)[..size])
    decreases |ts|, slots == 0
  {
    hide DecodeFrom, PlayedAll, AllReadable, Layout, LowBits, Bits;
    if |out| == size {
      PlayedAllKeeps(out, ts, level);
      assert PlayedAll(out, ts, level)[..size] == out;
      DecodeDone(src, i, level, c, slots, out);
    } else {
      MoreTokens(out, ts, level);
      if slots == 0 {
        ControlReads(src, i, level, ts);
        DecodeControl(src, i, level, size, c, out);
        DecodePlays(src, i + 1, level, size, src[i], 8, out, ts);
      } else {
        TokenReads(src, i, level, size, c, slots, out, ts);
        var r, k := Played(out, ts[0], level), if ts[0].Copy? then 2 else 1;
        if |r| <= size {
          assert r[..|r|] == r;
          DecodePlays(src, i + k, level, size, c, slots - 1, r, ts[1..]);
        } else {
          PlayedAllKeeps(r, ts[1..], level);
          assert r[..size] == PlayedAll(out, ts, level)[..size];
          assert |r[..size]| == size && Min(|r|, size) == size;
          DecodeDone(src, i + k, level, c, slots - 1, r[..size]);
        }
      }
    }
  }

  lemma MoreTokens(out: seq<byte>, ts: seq<Token>, level: nat)
    requires level <= MAXLEVEL && AllReadable(ts, level, |out|) && |out| < |PlayedAll(out, ts, level)|
    ensures ts != [] && Readable(ts[0], level, |out|) && AllReadable(ts[1..], level, |out| + Length(ts[0]))
    ensures PlayedAll(out, ts, level) == PlayedAll(Played(out, ts[0], level), ts[1..], level)
  {
    hide Readable, Played;
  }

  lemma ControlReads(src: seq<byte>, i: nat, level: nat, ts: seq<Token>)
    requires ts != [] && i <= |src| && Layout(ts, level, 0) <= src[i..]
    ensures i < |src| && LowBits(src[i], 8) == Bits(ts, 8) && Layout(ts, level, 8) <= src[i + 1..]
  {
    LayoutOfControl(ts, level);
    assert src[i..][0] == src[i] && src[i..][1..] == src[i + 1..];
    hide Layout, Bits, LowBits;
    ByteIsLow(src[i]);
  }

  lemma ByteIsLow(c: byte)
    ensures LowBits(c, 8) == c
  {
    Pow2Values();
    ShrBound(c, 8, 0);
    SplitBits(c, 8);
    assert Shl(0, 8) == 0 by { ShlIsTimes(0, 8); }
    hide LowBits, Shr, Shl, Pow2;
  }

  lemma TokenReads(src: seq<byte>, i: nat, level: nat, size: nat, c: byte, slots: nat, out: seq<byte>, ts: seq<Token>)
    requires level <= MAXLEVEL && 0 < slots && ts != [] && Readable(ts[0], level, |out|) && |out| < size
    requires i <= |src| && Layout(ts, level, slots) <= src[i..] && LowBits(c, slots) == Bits(ts, slots)
    ensures LowBits(c, slots - 1) == Bits(ts[1..], slots - 1)
    ensures var r, k := Played(out, ts[0], level), if ts[0].Copy? then 2 else 1;
      && i + k <= |src| && Layout(ts[1..], level, slots - 1) <= src[i + k..]
      && DecodeFrom(src, i, level, size, c, slots, out)
        == DecodeFrom(src, i + k, level, size, c, slots - 1, r[..Min(|r|, size)])
  {
    hide DecodeFrom, Bits, LowBits, BitAnd, Pow2, TokenBytes, Readable;
    BitTells(c, ts, slots);
    var b, rest := TokenBytes(ts[0], level), Layout(ts[1..], level, slots - 1);
    assert ts == [ts[0]] + ts[1..];
    LayoutOfToken(ts[0], ts[1..], level, slots);
    hide Layout;
    BytesStand(src, i, b, rest);
    if ts[0].Copy? {
      CopyReads(src, i, level, size, c, slots, out, ts[0]);
    } else {
      LiteralReads(src, i, level, size, c, slots, out, ts[0]);
    }
  }

  lemma BytesStand(src: seq<byte>, i: nat, b: seq<int>, rest: seq<int>)
    requires i <= |src| && b + rest <= src[i..]
    ensures i + |b| <= |src| && rest <= src[i + |b|..] && forall k :: 0 <= k < |b| ==> src[i + k] == b[k]
  {
    var s := src[i..];
    assert forall k :: 0 <= k < |b| ==> s[k] == (b + rest)[k];
    assert src[i + |b|..] == s[|b|..];
    assert s[..|b| + |rest|] == b + rest;
    assert s[|b|..][..|rest|] == s[..|b| + |rest|][|b|..];
  }

  lemma LiteralReads(src: seq<byte>, i: nat, level: nat, size: nat, c: byte, slots: nat, out: seq<byte>, t: Token)
    requires level <= MAXLEVEL && 0 < slots && t.Literal? && |out| < size && i < |src|
    requires src[i] == TokenBytes(t, level)[0] && BitAnd(c, Pow2(slots - 1)) == 0
    ensures var r := Played(out, t, level);
      DecodeFrom(src, i, level, size, c, slots, out)
        == DecodeFrom(src, i + 1, level, size, c, slots - 1, r[..Min(|r|, size)])
  {
    hide DecodeFrom, BitAnd, Pow2;
    DecodeLiteral(src, i, level, size, c, slots, out);
    assert (out + [t.value])[..|out| + 1] == out + [t.value];
  }

  lemma CopyReads(src: seq<byte>, i: nat, level: nat, size: nat, c: byte, slots: nat, out: seq<byte>, t: Token)
    requires level <= MAXLEVEL && 0 < slots && t.Copy? && Readable(t, level, |out|) && |out| < size && i + 1 < |src|
    requires src[i] == TokenBytes(t, level)[0] && src[i + 1] == TokenBytes(t, level)[1]
    requires BitAnd(c, Pow2(slots - 1)) != 0
    ensures var r := Played(out, t, level);
      DecodeFrom(src, i, level, size, c, slots, out)
        == DecodeFrom(src, i + 2, level, size, c, slots - 1, r[..Min(|r|, size)])
  {
    hide DecodeFrom, BitAnd, Pow2, TokenBytes, Shr, LowBits, CopyBytes, Word;
    FieldReads(t, level);
    var len := Min(t.len, size - |out|);
    CopyPrefix(out, t.back, t.len, len);
    DecodeCopy(src, i, level, size, c, slots, out, t.back, len);
  }

  lemma HeaderReads(src: seq<byte>, size: nat, level: nat)
    requires level <= MAXLEVEL && size < 0x100_0000 && 4 <= |src| && src[..4] == Header(size, level)
    ensures Word(src[1], src[0]) + Word(src[2], 0) * 256 == size && src[3] == level
  {
    HeaderSize(size, level);
    assert forall k :: 0 <= k < 4 ==> src[k] == src[..4][k];
    hide Header, Word;
    assert Header(size, level)[3] == level by { HeaderLevel(size, level); }
  }

  lemma HeaderLevel(size: nat, level: nat)
    requires level <= MAXLEVEL
    ensures |Header(size, level)| == 4 && Header(size, level)[3] == level
  {
  }

  /** So a file of readable tokens decodes to what they say, as many bytes as its header asks for. */
  lemma DecodeReads(ts: seq<Token>, level: nat, size: nat, src: seq<byte>)
    requires level <= MAXLEVEL && AllReadable(ts, level, 0) && size <= |PlayedAll([], ts, level)| && size < 0x100_0000
    requires 4 <= |src| && src[4..] == Layout(ts, level, 0) && src[..4] == Header(size, level)
    ensures Decode(src) == Some(PlayedAll([], ts, level)[..size])
  {
    HeaderReads(src, size, level);
    hide DecodeFrom, Layout, PlayedAll, AllReadable, Header, Word;
    assert LowBits(0, 0) == Bits(ts, 0);
    DecodePlays(src, 4, level, size, 0, 0, [], ts);
  }
}
