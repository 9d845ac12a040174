/** The stream of the compressed format as a list of tokens: which token stands at each position of the data,
    and which bytes the tokens become. Nothing here speaks of how the encoder finds or writes them. */
module LzStream {
  import opened Bytes
  import opened Powers
  import opened LzFormat
  import opened LzProofs

  /** A byte as it is, or len bytes that stand back bytes before. */
  datatype Token = Literal(value: byte) | Copy(back: nat, len: nat)

  function Length(t: Token): nat { if t.Literal? then 1 else t.len }

  // ---------------------------------------------------------------- which token

  /** The n bytes from pos on stand back bytes before, and a token of this level can say so. */
  ghost predicate CanCopy(data: seq<byte>, pos: nat, level: nat, back: nat, n: nat)
    requires level <= MAXLEVEL
  {
    && 0 < back <= pos && back <= Pow2(16 - level)
    && n <= Pow2(level) && pos + n <= |data|
    && forall i :: pos <= i < pos + n ==> data[i] == data[i - back]
  }

  /** The token of the greedy compressor at pos: from three bytes on a copy, as long as one can be, from as near
      as one of that length can be; where none of three bytes can be, the byte itself. */
  ghost predicate Greedy(data: seq<byte>, pos: nat, level: nat, t: Token)
    requires pos < |data| && level <= MAXLEVEL
  {
    match t
    case Literal(value) => value == data[pos] && !exists b: nat :: CanCopy(data, pos, level, b, 3)
    case Copy(back, len) => (
      && len >= 3 && CanCopy(data, pos, level, back, len)
      && (forall b: nat, n: nat :: CanCopy(data, pos, level, b, n) ==> n <= len)
      && (forall b: nat :: CanCopy(data, pos, level, b, len) ==> back <= b))
  }

  function TokenAt(data: seq<byte>, pos: nat, level: nat): Token
    requires pos < |data| && level <= MAXLEVEL
  {
    var m := Best(data, pos, level);
    if Copies(data, pos, level) then Copy(m.back, m.len) else Literal(data[pos])
  }

  /** What can be copied from a distance goes no further than the match there. */
  lemma CanCopyIsMatch(data: seq<byte>, pos: nat, level: nat, back: nat, n: nat)
    requires pos < |data| && level <= MAXLEVEL && CanCopy(data, pos, level, back, n)
    ensures back <= Window(pos, level) && n <= MatchLength(data, pos, back, Reach(data, pos, level), 0)
  {
    var r := MatchLength(data, pos, back, Reach(data, pos, level), 0);
    hide MatchLength, Pow2;
  }

  lemma MatchCanCopy(data: seq<byte>, pos: nat, level: nat, back: nat, n: nat)
    requires pos < |data| && level <= MAXLEVEL && 0 < back <= Window(pos, level)
    requires n <= MatchLength(data, pos, back, Reach(data, pos, level), 0)
    ensures CanCopy(data, pos, level, back, n)
  {
    hide MatchLength, Pow2;
  }

  /** The encoder's match is the longest that can be copied, and of those the nearest. */
  lemma BestCanCopy(data: seq<byte>, pos: nat, level: nat)
    requires pos < |data| && level <= MAXLEVEL
    ensures var m := Best(data, pos, level);
      && (m.len > 0 ==> CanCopy(data, pos, level, m.back, m.len))
      && (forall b: nat, n: nat :: CanCopy(data, pos, level, b, n) ==> n <= m.len)
      && (forall b: nat :: CanCopy(data, pos, level, b, m.len) && m.len > 0 ==> m.back <= b)
  {
    var m, rem := Best(data, pos, level), Reach(data, pos, level);
    BestIsLongest(data, pos, level);
    hide MatchLength, Best, Pow2, CanCopy;
    if m.len > 0 { MatchCanCopy(data, pos, level, m.back, m.len); }
    forall b: nat, n: nat | CanCopy(data, pos, level, b, n) ensures n <= m.len {
      CanCopyPlace(data, pos, level, b, n);
      CanCopyIsMatch(data, pos, level, b, n);
    }
    forall b: nat | CanCopy(data, pos, level, b, m.len) && m.len > 0 ensures m.back <= b {
      CanCopyPlace(data, pos, level, b, m.len);
      CanCopyIsMatch(data, pos, level, b, m.len);
    }
  }

  lemma CanCopyPlace(data: seq<byte>, pos: nat, level: nat, back: nat, n: nat)
    requires pos < |data| && level <= MAXLEVEL && CanCopy(data, pos, level, back, n)
    ensures 0 < back <= pos
  {
  }

  lemma ShorterCanCopy(data: seq<byte>, pos: nat, level: nat, back: nat, n: nat, k: nat)
    requires level <= MAXLEVEL && CanCopy(data, pos, level, back, n) && k <= n
    ensures CanCopy(data, pos, level, back, k)
  {
  }

  /** At every position and level the token is the greedy one; a copy exactly if three bytes can be copied. */
  lemma TokenIsGreedy(data: seq<byte>, pos: nat, level: nat)
    requires pos < |data| && level <= MAXLEVEL
    ensures Greedy(data, pos, level, TokenAt(data, pos, level))
    ensures TokenAt(data, pos, level).Copy? <==> exists b: nat :: CanCopy(data, pos, level, b, 3)
  {
    hide Best, CanCopy;
    var m := Best(data, pos, level);
    BestCanCopy(data, pos, level);
    if m.len > 2 { ShorterCanCopy(data, pos, level, m.back, m.len, 3); }
  }

  /** And no other token is. */
  lemma GreedyIsUnique(data: seq<byte>, pos: nat, level: nat, t: Token, u: Token)
    requires pos < |data| && level <= MAXLEVEL && Greedy(data, pos, level, t) && Greedy(data, pos, level, u)
    ensures t == u
  {
    hide CanCopy;
    if t.Copy? && u.Literal? { ShorterCanCopy(data, pos, level, t.back, t.len, 3); }
    if u.Copy? && t.Literal? { ShorterCanCopy(data, pos, level, u.back, u.len, 3); }
  }

  // ---------------------------------------------------------------- all tokens

  /** The tokens from pos on, each beginning where the one before ends. */
  function Tokens(data: seq<byte>, pos: nat, level: nat): (ts: seq<Token>)
    requires pos <= |data| && level <= MAXLEVEL
    decreases |data| - pos
  {
    if pos == |data| then [] else
      [TokenAt(data, pos, level)] + Tokens(data, pos + Consumed(data, pos, level), level)
  }

  /** Greedy tokens that cover the data from pos on. */
  ghost predicate Covers(data: seq<byte>, pos: nat, level: nat, ts: seq<Token>)
    requires pos <= |data| && level <= MAXLEVEL
    decreases |ts|
  {
    if ts == [] then pos == |data| else
      && pos < |data| && Greedy(data, pos, level, ts[0]) && pos + Length(ts[0]) <= |data|
      && Covers(data, pos + Length(ts[0]), level, ts[1..])
  }

  lemma TokenLength(data: seq<byte>, pos: nat, level: nat)
    requires pos < |data| && level <= MAXLEVEL
    ensures Length(TokenAt(data, pos, level)) == Consumed(data, pos, level)
  {
    hide Best;
  }

  lemma CoversMore(data: seq<byte>, pos: nat, level: nat, t: Token, ts: seq<Token>)
    requires pos < |data| && level <= MAXLEVEL && Greedy(data, pos, level, t)
    requires pos + Length(t) <= |data| && Covers(data, pos + Length(t), level, ts)
    ensures Covers(data, pos, level, [t] + ts)
  {
    hide Greedy;
    assert ([t] + ts)[1..] == ts;
  }

  lemma NothingToCover(data: seq<byte>, level: nat)
    requires level <= MAXLEVEL
    ensures Covers(data, |data|, level, [])
  {
  }

  lemma TokenGoesOn(data: seq<byte>, pos: nat, level: nat, ts: seq<Token>)
    requires pos < |data| && level <= MAXLEVEL && Covers(data, pos + Consumed(data, pos, level), level, ts)
    ensures Covers(data, pos, level, [TokenAt(data, pos, level)] + ts)
  {
    hide Greedy, TokenAt, Consumed, Covers, Length;
    TokenIsGreedy(data, pos, level);
    TokenLength(data, pos, level);
    CoversMore(data, pos, level, TokenAt(data, pos, level), ts);
  }

  lemma {:induction false} TokensCover(data: seq<byte>, pos: nat, level: nat)
    requires pos <= |data| && level <= MAXLEVEL
    ensures Covers(data, pos, level, Tokens(data, pos, level))
    decreases |data| - pos
  {
    hide Covers, Consumed, TokenAt;
    if pos == |data| {
      NothingToCover(data, level);
    } else {
      var end := pos + Consumed(data, pos, level);
      TokensCover(data, end, level);
      TokenGoesOn(data, pos, level, Tokens(data, end, level));
    }
  }

  /** And no other tokens do. */
  lemma {:induction false} CoversOnce(data: seq<byte>, pos: nat, level: nat, ts: seq<Token>, us: seq<Token>)
    requires pos <= |data| && level <= MAXLEVEL && Covers(data, pos, level, ts) && Covers(data, pos, level, us)
    ensures ts == us
    decreases |ts|
  {
    hide Greedy;
    if ts != [] {
      GreedyIsUnique(data, pos, level, ts[0], us[0]);
      CoversOnce(data, pos + Length(ts[0]), level, ts[1..], us[1..]);
      assert ts == [ts[0]] + ts[1..] && us == [us[0]] + us[1..];
    }
  }

  // ---------------------------------------------------------------- the bytes of tokens

  /** The bytes of one token: a copy is a distance and a length, each less one, in 16 bits, the high byte first. */
  function TokenBytes(t: Token, level: nat): (b: seq<int>)
    ensures |b| == if t.Copy? then 2 else 1
  {
    match t
    case Literal(value) => [value]
    case Copy(back, len) =>
      var field := (back - 1) * Pow2(level) + (len - 1);
      [field / 256, field % 256]
  }

  /** The bits of the next n tokens, of which the first has the highest: set for a copy. */
  function Bits(ts: seq<Token>, n: nat): nat
    decreases n
  {
    if ts == [] || n == 0 then 0 else (if ts[0].Copy? then Pow2(n - 1) else 0) + Bits(ts[1..], n - 1)
  }

  /** The bytes of tokens, of which the next n have their bits in a byte already written: before every eight
      further tokens stands the byte with their bits. */
  function Layout(ts: seq<Token>, level: nat, n: nat): (b: seq<int>)
    decreases |ts|, n == 0
  {
    if ts == [] then []
    else if n == 0 then [Bits(ts, 8)] + Layout(ts, level, 8)
    else TokenBytes(ts[0], level) + Layout(ts[1..], level, n - 1)
  }

  lemma {:induction false} BitsFit(ts: seq<Token>, n: nat)
    ensures Bits(ts, n) < Pow2(n)
    decreases n
  {
    if ts != [] && n > 0 { BitsFit(ts[1..], n - 1); }
  }

  lemma {:induction false} ShlIsTimes(a: nat, k: nat)
    ensures Shl(a, k) == a * Pow2(k)
  {
    if k > 0 { ShlIsTimes(a, k - 1); }
  }

  lemma FieldIs(m: Match, level: nat)
    requires level <= MAXLEVEL && 0 < m.back <= Pow2(MAXLEVEL - level) && 0 < m.len <= Pow2(level)
    ensures Field(m, level) == TokenBytes(Copy(m.back, m.len), level)
  {
    hide Pow2, Packed;
    PackedFits(m, level);
    PackedIs(m, level);
    HighByte(Packed(m, level));
  }

  lemma PackedIs(m: Match, level: nat)
    requires 0 < m.back && 0 < m.len <= Pow2(level)
    ensures Packed(m, level) == (m.back - 1) * Pow2(level) + (m.len - 1)
  {
    hide Pow2, Shl, BitOr;
    OrIsSum(m.back - 1, level, m.len - 1);
    ShlIsTimes(m.back - 1, level);
  }

  lemma HighByte(tmp: nat)
    requires tmp < 65536
    ensures tmp / 256 % 256 == tmp / 256
  {
  }

  // ---------------------------------------------------------------- the encoder writes them

  /** One token adds its bytes, and for a copy its bit. */
  lemma StepIs(data: seq<byte>, pos: nat, level: nat, out: seq<byte>, ctrl: nat, slots: nat)
    requires pos < |data| && level <= MAXLEVEL && 0 < slots && Ready(out, ctrl, slots)
    ensures var t := TokenAt(data, pos, level);
      var c := out[ctrl] + if t.Copy? then Pow2(slots - 1) else 0;
      c < 256 && Step(data, pos, level, out, ctrl, slots) == out[ctrl := c] + TokenBytes(t, level)
  {
    hide Best, Field, TokenBytes, Pow2, BitOr;
    SetBit(out[ctrl], slots);
    if Copies(data, pos, level) {
      MatchIsSound(data, pos, level);
      FieldIs(Best(data, pos, level), level);
    } else {
      assert out[ctrl := out[ctrl]] == out;
      assert TokenBytes(Literal(data[pos]), level) == [data[pos]] by { LiteralBytes(data[pos], level); }
    }
  }

  lemma LiteralBytes(value: byte, level: nat)
    ensures TokenBytes(Literal(value), level) == [value]
  {
  }

  lemma UnusedHasRoom(c: nat, slots: nat, bits: nat)
    requires 0 < slots <= 8 && Unused(c, slots) && bits < Pow2(slots)
    ensures c + bits < 256
  {
    hide Pow2, Shl, Shr, LowBits;
    SplitBits(c, slots);
    Pow2Values();
    ShrBound(c, slots, 8 - slots);
    JoinedFits(Shr(c, slots), 8 - slots, slots, bits);
  }

  /** out with the bits of the next slots tokens added to the control byte being filled. */
  function Filled(out: seq<int>, ctrl: nat, slots: nat, ts: seq<Token>): seq<int>
    requires slots > 0 ==> ctrl < |out|
  {
    if slots == 0 then out else out[ctrl := out[ctrl] + Bits(ts, slots)]
  }

  lemma FilledByStep(out: seq<int>, ctrl: nat, slots: nat, t: Token, rest: seq<Token>, c: int, bytes: seq<int>)
    requires 0 < slots && ctrl < |out| && c == out[ctrl] + if t.Copy? then Pow2(slots - 1) else 0
    ensures Filled(out[ctrl := c] + bytes, ctrl, slots - 1, rest) == Filled(out, ctrl, slots, [t] + rest) + bytes
  {
    hide Pow2;
    assert ([t] + rest)[1..] == rest;
    assert Bits([t] + rest, slots) == c - out[ctrl] + Bits(rest, slots - 1);
    var all := out[ctrl := out[ctrl] + Bits([t] + rest, slots)];
    assert (out[ctrl := c] + bytes)[ctrl] == c;
    assert (out[ctrl := c] + bytes)[ctrl := c + Bits(rest, slots - 1)] == all + bytes;
  }

  lemma LayoutOfToken(t: Token, rest: seq<Token>, level: nat, n: nat)
    requires n > 0
    ensures Layout([t] + rest, level, n) == TokenBytes(t, level) + Layout(rest, level, n - 1)
  {
    assert ([t] + rest)[1..] == rest;
    hide TokenBytes;
  }

  lemma LayoutOfControl(ts: seq<Token>, level: nat)
    requires ts != []
    ensures Layout(ts, level, 0) == [Bits(ts, 8)] + Layout(ts, level, 8)
  {
  }

  /** From any position on, what the encoder appends is the layout of the tokens from there, with the bits of the
      next ones added to the control byte that is being filled. */
  lemma {:induction false} EncodeIsLayout(data: seq<byte>, pos: nat, level: nat, out: seq<byte>, ctrl: nat, slots: nat)
    requires pos <= |data| && level <= MAXLEVEL && Ready(out, ctrl, slots)
    ensures var ts := Tokens(data, pos, level);
      EncodeFrom(data, pos, level, out, ctrl, slots) == Filled(out, ctrl, slots, ts) + Layout(ts, level, slots)
    decreases |data| - pos, slots == 0
  {
    hide EncodeFrom, Tokens, Layout, Filled, Step, Consumed, TokenAt, Unused;
    if pos == |data| {
      EncodeDone(data, level, out, ctrl, slots);
      NothingLeft(data, level, out, ctrl, slots);
    } else if slots == 0 {
      NewControlIsReady(out);
      EncodeControl(data, pos, level, out, ctrl);
      EncodeIsLayout(data, pos, level, out + [0], |out|, 8);
      ControlJoins(data, pos, level, out, ctrl);
    } else {
      var end, next := pos + Consumed(data, pos, level), Step(data, pos, level, out, ctrl, slots);
      EncodeToken(data, pos, level, out, ctrl, slots);
      EncodeIsLayout(data, end, level, next, ctrl, slots - 1);
      TokenJoins(data, pos, level, out, ctrl, slots);
    }
  }

  lemma NothingLeft(data: seq<byte>, level: nat, out: seq<int>, ctrl: nat, slots: nat)
    requires level <= MAXLEVEL && (slots > 0 ==> ctrl < |out|)
    ensures var ts := Tokens(data, |data|, level);
      out == Filled(out, ctrl, slots, ts) + Layout(ts, level, slots)
  {
    assert Filled(out, ctrl, slots, []) == out;
  }

  lemma ControlJoins(data: seq<byte>, pos: nat, level: nat, out: seq<int>, ctrl: nat)
    requires pos < |data| && level <= MAXLEVEL
    ensures var ts := Tokens(data, pos, level);
      Filled(out + [0], |out|, 8, ts) + Layout(ts, level, 8) == Filled(out, ctrl, 0, ts) + Layout(ts, level, 0)
  {
    var ts := Tokens(data, pos, level);
    assert ts != [];
    hide Tokens, Layout, Bits;
    NewControlFilled(out, ts);
    LayoutOfControl(ts, level);
  }

  lemma TokenJoins(data: seq<byte>, pos: nat, level: nat, out: seq<byte>, ctrl: nat, slots: nat)
    requires pos < |data| && level <= MAXLEVEL && 0 < slots && Ready(out, ctrl, slots)
    ensures var ts, rest := Tokens(data, pos, level), Tokens(data, pos + Consumed(data, pos, level), level);
      Filled(Step(data, pos, level, out, ctrl, slots), ctrl, slots - 1, rest) + Layout(rest, level, slots - 1)
        == Filled(out, ctrl, slots, ts) + Layout(ts, level, slots)
  {
    hide Filled, Step, Consumed, TokenAt, Unused, Layout, TokenBytes;
    var t, rest := TokenAt(data, pos, level), Tokens(data, pos + Consumed(data, pos, level), level);
    assert Tokens(data, pos, level) == [t] + rest;
    TokenStep(data, pos, level, out, ctrl, slots);
    LayoutOfToken(t, rest, level, slots);
  }

  lemma NewControlFilled(out: seq<int>, ts: seq<Token>)
    ensures Filled(out + [0], |out|, 8, ts) == out + [Bits(ts, 8)]
  {
    hide Bits;
  }

  lemma TokenStep(data: seq<byte>, pos: nat, level: nat, out: seq<byte>, ctrl: nat, slots: nat)
    requires pos < |data| && level <= MAXLEVEL && 0 < slots && Ready(out, ctrl, slots)
    ensures var t, rest := TokenAt(data, pos, level), Tokens(data, pos + Consumed(data, pos, level), level);
      Filled(Step(data, pos, level, out, ctrl, slots), ctrl, slots - 1, rest)
        == Filled(out, ctrl, slots, [t] + rest) + TokenBytes(t, level)
  {
    hide Step, Consumed, Tokens, Filled, TokenAt, TokenBytes, Unused;
    var t, rest := TokenAt(data, pos, level), Tokens(data, pos + Consumed(data, pos, level), level);
    StepIs(data, pos, level, out, ctrl, slots);
    FilledByStep(out, ctrl, slots, t, rest, out[ctrl] + if t.Copy? then Pow2(slots - 1) else 0, TokenBytes(t, level));
  }

  /** What the compressor writes at a level: the low 24 bits of the size, low byte first, the level, and the layout
      of the greedy tokens that cover the data. */
  lemma EncodeIsStream(data: seq<byte>, level: nat)
    requires level <= MAXLEVEL
    ensures var r, ts := Encode(data, level), Tokens(data, 0, level);
      && Covers(data, 0, level, ts) && 4 <= |r| && r[4..] == Layout(ts, level, 0)
      && (r[0] as int) + 0x100 * (r[1] as int) + 0x1_0000 * (r[2] as int) == |data| % 0x100_0000 && r[3] == level
  {
    var h := Header(|data|, level);
    EncodeIsLayout(data, 0, level, h, 0, 0);
    TokensCover(data, 0, level);
    HeaderSize(|data|, level);
    hide Tokens, Layout, EncodeFrom, Covers;
    assert Filled(h, 0, 0, Tokens(data, 0, level)) == h;
  }

  // ---------------------------------------------------------------- the size

  function Copying(ts: seq<Token>): nat
  {
    if ts == [] then 0 else (if ts[0].Copy? then 1 else 0) + Copying(ts[1..])
  }

  /** The header, a bit a token, a byte a token and one more for each copy. */
  function StreamSize(ts: seq<Token>): nat { 4 + Ceil8(|ts|) + |ts| + Copying(ts) }

  lemma {:induction false} LayoutSize(ts: seq<Token>, level: nat, n: nat)
    requires n <= 8
    ensures |Layout(ts, level, n)| == |ts| + Copying(ts) + if |ts| <= n then 0 else Ceil8(|ts| - n)
    decreases |ts|, n == 0
  {
    hide TokenBytes, Bits;
    if ts != [] {
      if n == 0 { LayoutSize(ts, level, 8); } else { LayoutSize(ts[1..], level, n - 1); }
    }
  }

  /** That is the exact size of what the compressor writes. */
  lemma EncodeSize(data: seq<byte>, level: nat)
    requires level <= MAXLEVEL
    ensures |Encode(data, level)| == StreamSize(Tokens(data, 0, level))
  {
    EncodeIsStream(data, level);
    LayoutSize(Tokens(data, 0, level), level, 0);
    hide Tokens, Layout, Encode, Covers;
  }
}
