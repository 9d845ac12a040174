/** The compressed format shared by lzxpack.c, which writes it, and bmpdata.c, which reads it, on
    values: the greedy choice, the byte stream it becomes, and what the decoder makes of a stream. */
module LzFormat {
  import opened Bytes
  import opened Powers
  import opened Wrappers

  const MAXLEVEL := 16

  // ---------------------------------------------------------------- the search

  function Min(a: nat, b: nat): nat { if a < b then a else b }

  /** The n bytes from pos on repeat those that stand back bytes before. */
  ghost predicate Repeats(data: seq<byte>, pos: nat, back: nat, n: nat)
    requires 0 < back <= pos && pos + n <= |data|
  {
    forall i :: pos <= i < pos + n ==> data[i] == data[i - back]
  }

  /** How many bytes from pos on, up to rem, repeat those that stand back bytes before. */
  function MatchLength(data: seq<byte>, pos: nat, back: nat, rem: nat, n: nat): (r: nat)
    requires n <= rem && 0 < back <= pos && pos + rem <= |data| && Repeats(data, pos, back, n)
    ensures n <= r <= rem && Repeats(data, pos, back, r)
    ensures r < rem ==> data[pos + r - back] != data[pos + r]
    decreases rem - n
  {
    if n == rem || data[pos + n - back] != data[pos + n] then n else MatchLength(data, pos, back, rem, n + 1)
  }

  datatype Match = Match(back: nat, len: nat)

  /** The better of best and the match at distance back. */
  function Better(data: seq<byte>, pos: nat, back: nat, rem: nat, best: Match): (m: Match)
    requires 0 < back <= pos && pos + rem <= |data| && best.len <= rem && (best.len > 0 ==> best.back > 0)
    ensures m.len <= rem && (m.len > 0 ==> m.back > 0)
  {
    var len := MatchLength(data, pos, back, rem, 0);
    if len >= best.len then Match(back, len) else best
  }

  /** The search over distances back, back - 1, ..., 1: a match at least as long replaces the best. */
  function Search(data: seq<byte>, pos: nat, back: nat, rem: nat, best: Match): (m: Match)
    requires back <= pos && pos + rem <= |data| && best.len <= rem && (best.len > 0 ==> best.back > 0)
    ensures m.len <= rem && (m.len > 0 ==> m.back > 0)
  {
    if back == 0 then best else Search(data, pos, back - 1, rem, Better(data, pos, back, rem, best))
  }

  function Window(pos: nat, level: nat): nat
    requires level <= MAXLEVEL
  {
    Min(pos, Pow2(MAXLEVEL - level))
  }

  function Reach(data: seq<byte>, pos: nat, level: nat): (rem: nat)
    requires pos <= |data|
    ensures pos + rem <= |data|
  {
    Min(|data| - pos, Pow2(level))
  }

  /** The match the encoder finds at pos. */
  function Best(data: seq<byte>, pos: nat, level: nat): (m: Match)
    requires pos <= |data| && level <= MAXLEVEL
    ensures pos + m.len <= |data| && (m.len > 0 ==> m.back > 0)
  {
    var back := Window(pos, level);
    Search(data, pos, back, Reach(data, pos, level), Match(back, 0))
  }

  /** A copy pays from three bytes on; otherwise the byte itself is written. */
  predicate Copies(data: seq<byte>, pos: nat, level: nat)
    requires pos <= |data| && level <= MAXLEVEL
  {
    Best(data, pos, level).len > 2
  }

  // ---------------------------------------------------------------- the encoder

  /** A distance and a length in 16 bits: the length in the low level bits. */
  function Packed(m: Match, level: nat): nat
    requires m.back > 0 && m.len > 0
  {
    BitOr(Shl(m.back - 1, level), m.len - 1)
  }

  function Field(m: Match, level: nat): (f: seq<byte>)
    requires m.back > 0 && m.len > 0
    ensures |f| == 2
  {
    var tmp := Packed(m, level);
    [tmp / 256 % 256, tmp % 256]
  }

  /** out with one more bit set in its control byte. */
  function Flagged(out: seq<byte>, ctrl: nat, slots: nat): (r: seq<byte>)
    requires ctrl < |out| && slots > 0
    ensures |r| == |out|
  {
    out[ctrl := BitOr(out[ctrl], Pow2(slots - 1)) % 256]
  }

  /** out after the token at pos: a flagged field, or the byte as it is. */
  function Step(data: seq<byte>, pos: nat, level: nat, out: seq<byte>, ctrl: nat, slots: nat): (r: seq<byte>)
    requires pos < |data| && level <= MAXLEVEL && 0 < slots && ctrl < |out|
    ensures |r| == |out| + if Copies(data, pos, level) then 2 else 1
  {
    if Copies(data, pos, level) then Flagged(out, ctrl, slots) + Field(Best(data, pos, level), level)
    else out + [data[pos]]
  }

  /** How many bytes of the data that token stands for. */
  function Consumed(data: seq<byte>, pos: nat, level: nat): (n: nat)
    requires pos < |data| && level <= MAXLEVEL
    ensures (if Copies(data, pos, level) then 3 else 1) <= n <= |data| - pos
  {
    if Copies(data, pos, level) then Best(data, pos, level).len else 1
  }

  /** The stream from pos on, appended to out. The control byte being filled is out[ctrl]; its
      lowest slots bits are still to be used, and when none is left a new one is begun. */
  function EncodeFrom(data: seq<byte>, pos: nat, level: nat, out: seq<byte>, ctrl: nat, slots: nat): seq<byte>
    requires pos <= |data| && level <= MAXLEVEL && (slots > 0 ==> ctrl < |out|)
    decreases |data| - pos, slots == 0
  {
    if pos == |data| then out
    else if slots == 0 then EncodeFrom(data, pos, level, out + [0], |out|, 8)
    else EncodeFrom(data, pos + Consumed(data, pos, level), level, Step(data, pos, level, out, ctrl, slots),
                    ctrl, slots - 1)
  }

  function Header(size: nat, level: nat): seq<byte>
    requires level <= MAXLEVEL
  {
    [size % 256, size / 256 % 256, size / 65536 % 256, level]
  }

  /** What lzpacking leaves in its buffer. */
  function Encode(data: seq<byte>, level: nat): seq<byte>
    requires level <= MAXLEVEL
  {
    EncodeFrom(data, 0, level, Header(|data|, level), 0, 0)
  }

  // ---------------------------------------------------------------- the decoder

  /** len bytes copied one by one from back bytes before the end, so that a copy may read what it
      has just written. */
  function CopyBytes(out: seq<byte>, back: nat, len: nat): (r: seq<byte>)
    requires 0 < back <= |out|
    ensures |r| == |out| + len
  {
    if len == 0 then out else
      var r := CopyBytes(out, back, len - 1);
      r + [r[|r| - back]]
  }

  function Word(high: int, low: int): (w: int)
  {
    high * 256 + low
  }

  /** The loop of bmpdata_lzx from byte i of the stream on; None where it would read outside. */
  function DecodeFrom(src: seq<byte>, i: nat, level: nat, size: nat, ctrl: byte, slots: nat, out: seq<byte>):
    (r: Option<seq<byte>>)
    requires |out| <= size
    ensures r.Some? ==> |r.value| == size
    decreases size - |out|, slots == 0
  {
    if |out| == size then Some(out)
    else if slots == 0 then
      if i < |src| then DecodeFrom(src, i + 1, level, size, src[i], 8, out) else None
    else if BitAnd(ctrl, Pow2(slots - 1)) != 0 then
      if i + 1 < |src| then
        var tmp := Word(src[i], src[i + 1]);
        var back, len := Shr(tmp, level) + 1, Min(LowBits(tmp, level) + 1, size - |out|);
        if back <= |out| then DecodeFrom(src, i + 2, level, size, ctrl, slots - 1, CopyBytes(out, back, len)) else None
      else None
    else if i < |src| then DecodeFrom(src, i + 1, level, size, ctrl, slots - 1, out + [src[i]])
    else None
  }

  /** bmpdata_solvedata */
  function Decode(src: seq<byte>): Option<seq<byte>>
  {
    if |src| < 4 then None
    else DecodeFrom(src, 4, src[3], Word(src[1], src[0]) + Word(src[2], 0) * 256, 0, 0, [])
  }

  // ---------------------------------------------------------------- the search finds the best match

  /** best is the longest match within the distances above back, and the nearest of that length. */
  ghost predicate BestAbove(data: seq<byte>, pos: nat, window: nat, back: nat, rem: nat, best: Match)
    requires back <= window <= pos && pos + rem <= |data|
  {
    && (forall b :: back < b <= window ==> MatchLength(data, pos, b, rem, 0) <= best.len)
    && (forall b :: back < b < best.back && b <= window ==> MatchLength(data, pos, b, rem, 0) < best.len)
    && (if back == window then best == Match(window, 0)
        else back < best.back <= window && best.len == MatchLength(data, pos, best.back, rem, 0))
  }

  lemma BetterIsBestAbove(data: seq<byte>, pos: nat, window: nat, back: nat, rem: nat, best: Match)
    requires 0 < back <= window <= pos && pos + rem <= |data| && best.len <= rem && (best.len > 0 ==> best.back > 0)
    requires BestAbove(data, pos, window, back, rem, best)
    ensures BestAbove(data, pos, window, back - 1, rem, Better(data, pos, back, rem, best))
  {
    hide MatchLength;
  }

  lemma {:induction false} SearchFindsBest(data: seq<byte>, pos: nat, window: nat, back: nat, rem: nat, best: Match)
    requires back <= window <= pos && pos + rem <= |data| && best.len <= rem && (best.len > 0 ==> best.back > 0)
    requires BestAbove(data, pos, window, back, rem, best)
    ensures BestAbove(data, pos, window, 0, rem, Search(data, pos, back, rem, best))
    decreases back
  {
    hide BestAbove, Better;
    if back > 0 {
      BetterIsBestAbove(data, pos, window, back, rem, best);
      SearchFindsBest(data, pos, window, back - 1, rem, Better(data, pos, back, rem, best));
    }
  }

  /** At each position the encoder finds the longest match within the window and the reach of the
      level, and of the longest ones the nearest. */
  lemma BestIsLongest(data: seq<byte>, pos: nat, level: nat)
    requires pos <= |data| && level <= MAXLEVEL
    ensures var m, window, rem := Best(data, pos, level), Window(pos, level), Reach(data, pos, level);
      && m.back <= window && m.len <= rem
      && (m.len > 0 ==> m.back > 0)
      && (window > 0 ==> m.back > 0 && m.len == MatchLength(data, pos, m.back, rem, 0))
      && (forall b :: 0 < b <= window ==> MatchLength(data, pos, b, rem, 0) <= m.len)
      && (forall b :: 0 < b < m.back && b <= window ==> MatchLength(data, pos, b, rem, 0) < m.len)
  {
    var window, rem := Window(pos, level), Reach(data, pos, level);
    SearchFindsBest(data, pos, window, window, rem, Match(window, 0));
  }
}
