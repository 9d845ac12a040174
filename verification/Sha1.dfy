/** The streaming SHA-1 of debugsnapshot.c, as it works: one context whose block, digest, index and
    length counters are updated in place. */
module Sha1 {
  import Bytes
  import opened Chunks
  import opened Sha1Spec

  /** 2^61 bytes are 2^64 bits, one more than the length block can say. */
  const LIMIT := 0x2000_0000_0000_0000

  predicate Fits(n: nat) { n < LIMIT }

  /** SHA1CircularShift */
  function Shift(bits: nat, w: word): word
    requires 0 < bits < 32
  {
    ((w << bits) & 0xffff_ffff) | (w >> (32 - bits))
  }

  lemma ShiftIsRotl(bits: nat, w: word)
    requires 0 < bits < 32
    ensures Shift(bits, w) == Rotl(bits, w)
  {
    Masked(w << bits);
  }

  lemma Masked(w: word)
    ensures w & 0xffff_ffff == w
  {
  }

  /** What the first and third loop compute from B, C and D; the other two use B ^ C ^ D. */
  function Choose(b: word, c: word, d: word): word { (b & c) | ((!b) & d) }
  function Majority(b: word, c: word, d: word): word { (b & c) | (b & d) | (c & d) }

  lemma BitsAgree(b: word, c: word, d: word)
    ensures (b & c) | ((!b) & d) == (b & c) ^ (!b & d)
    ensures (b & c) | (b & d) | (c & d) == (b & c) ^ (b & d) ^ (c & d)
  {
  }

  /** They are the functions of the standard, written with | instead of ^. */
  lemma ChooseIsCh(b: word, c: word, d: word)
    ensures Choose(b, c, d) == Ch(b, c, d)
  {
    BitsAgree(b, c, d);
  }

  lemma MajorityIsMaj(b: word, c: word, d: word)
    ensures Majority(b, c, d) == Maj(b, c, d)
  {
    BitsAgree(b, c, d);
  }

  /** The sum as the code forms it, with w before k. */
  function Temp(x: word, f: word, e: word, w: word, k: word): word
  {
    (x + f + e + w + k) & 0xffff_ffff
  }

  lemma TempIsSum(x: word, f: word, e: word, w: word, k: word)
    ensures Temp(x, f, e, w, k) == Sum(x, f, e, k, w)
  {
    Masked(x + f + e + w + k);
    assert x + f + e + w + k == x + f + e + k + w;
  }

  /** The two length counters of n bytes, without the second wrap-around. */
  function LowWord(n: nat): nat { 8 * n % Bytes.WORD32 }
  function HighWord(n: nat): nat { 8 * n / Bytes.WORD32 }

  /** One schedule word, as the code assembles it from four bytes. */
  function Gather(b0: octet, b1: octet, b2: octet, b3: octet): word
  {
    (((b0 as word << 24) | (b1 as word << 16)) | (b2 as word << 8)) | b3 as word
  }

  /** The length counters after one more byte, and whether the message has become too long. */
  method CountByte(lengthLow: nat, lengthHigh: nat, ghost n: nat) returns (low: nat, high: nat, over: bool)
    requires lengthLow == LowWord(n) && lengthHigh == HighWord(n) && Fits(n)
    ensures over <==> !Fits(n + 1)
    ensures !over ==> low == LowWord(n + 1) && high == HighWord(n + 1)
  {
    CountBits(n);
    low, high, over := (lengthLow + 8) % Bytes.WORD32, lengthHigh, false;
    if low == 0 {
      high := (lengthHigh + 1) % Bytes.WORD32;
      if high == 0 {
        over := true;
      }
    }
  }

  /** fed is whole blocks, which hash to digest, and a rest. */
  ghost predicate Split(fed: seq<octet>, digest: Hash, rest: seq<octet>)
  {
    && |rest| <= |fed| && (|fed| - |rest|) % 64 == 0
    && digest == Hashed(fed[..|fed| - |rest|]) && rest == fed[|fed| - |rest|..]
  }

  class Context {
    var digest: Hash                // Message_Digest, five words
    const block: array<octet>        // Message_Block
    var index: nat                  // Message_Block_Index
    var lengthLow: nat              // Length_Low, an unsigned 32-bit counter of bits
    var lengthHigh: nat             // Length_High
    var computed: bool
    var corrupted: bool
    ghost var message: seq<octet>    // everything fed in since the last reset

    ghost predicate Shaped()
    {
      block.Length == 64
    }

    /** Whole blocks of fed are hashed, and the rest stands in the message block. */
    ghost predicate Holds(fed: seq<octet>)
      reads this`index, this`digest, block
    {
      Shaped() && index <= 64 && Split(fed, digest, block[..index])
    }

    /** The state between inputs: nothing has gone wrong, and message is what was fed in. */
    ghost predicate Streaming()
      reads this, block
    {
      && Holds(message) && index < 64 && !computed && !corrupted && Fits(|message|)
      && lengthLow == LowWord(|message|) && lengthHigh == HighWord(|message|)
    }

    constructor ()
      ensures Shaped() && fresh(block)
    {
      block := new octet[64];
    }

    /** SHA1Reset */
    method Reset()
      requires Shaped()
      modifies this
      ensures Streaming() && message == []
    {
      hide Hashed, LowWord, HighWord, Streaming;
      CountNothing();
      lengthLow, lengthHigh, index := 0, 0, 0;
      digest := Hash(0x67452301, 0xEFCDAB89, 0x98BADCFE, 0x10325476, 0xC3D2E1F0);
      computed, corrupted, message := false, false, [];
      HashedNothing();
      HoldsNothing(this);
      IsStreaming(this);
    }

    /** The message schedule. */
    method Schedule() returns (w: array<word>)
      requires Shaped()
      ensures fresh(w) && w.Length == 80 && forall t :: 0 <= t < 80 ==> w[t] == W(block[..], t)
    {
      hide Shift, Rotl, Gather;
      ghost var m := block[..];
      w := new word[80];
      for t := 0 to 16
        invariant forall i :: 0 <= i < t ==> w[i] == W(m, i)
      {
        w[t] := Gather(block[t * 4], block[t * 4 + 1], block[t * 4 + 2], block[t * 4 + 3]);
        GatheredIsBigEndian(m, t);
      }
      for t := 16 to 80
        invariant forall i :: 0 <= i < t ==> w[i] == W(m, i)
      {
        w[t] := ScheduleWord(w, t, m);
      }
    }

    method ScheduleWord(w: array<word>, t: nat, ghost m: Block) returns (r: word)
      requires w.Length == 80 && 16 <= t < 80 && forall i :: 0 <= i < t ==> w[i] == W(m, i)
      ensures r == W(m, t)
    {
      hide Shift, Rotl, Mixed;
      ShiftIsRotl(1, Mixed(w[t - 3], w[t - 8], w[t - 14], w[t - 16]));
      r := Shift(1, Mixed(w[t - 3], w[t - 8], w[t - 14], w[t - 16]));
    }

    /** One turn of one of the four loops: f is what the loop computes from B, C and D. */
    method Turn(ghost t: nat, v: Hash, f: word, w: word, k: word) returns (r: Hash)
      requires f == F(t, v.b, v.c, v.d) && k == K(t)
      ensures r == Round(v, t, w)
    {
      hide Shift, Rotl, F, K, Temp, Sum;
      ShiftIsRotl(5, v.a);
      ShiftIsRotl(30, v.b);
      TempIsSum(Shift(5, v.a), f, v.e, w, k);
      var temp := Temp(Shift(5, v.a), f, v.e, w, k);
      r := Hash(temp, v.a, Shift(30, v.b), v.c, v.d);
    }

    /** The four loops over the schedule. */
    method TurnAll(w: array<word>, h: Hash, ghost m: Block) returns (v: Hash)
      requires w.Length == 80 && forall t :: 0 <= t < 80 ==> w[t] == W(m, t)
      ensures v == Rounds(h, m, 80)
    {
      hide Round, Ch, Parity, Maj, Choose, Majority, W;
      v := h;
      for t := 0 to 20
        invariant v == Rounds(h, m, t)
      {
        ChooseIsCh(v.b, v.c, v.d);
        v := Turn(t, v, Choose(v.b, v.c, v.d), w[t], 0x5A827999);
      }
      for t := 20 to 40
        invariant v == Rounds(h, m, t)
      {
        v := Turn(t, v, Parity(v.b, v.c, v.d), w[t], 0x6ED9EBA1);
      }
      for t := 40 to 60
        invariant v == Rounds(h, m, t)
      {
        MajorityIsMaj(v.b, v.c, v.d);
        v := Turn(t, v, Majority(v.b, v.c, v.d), w[t], 0x8F1BBCDC);
      }
      for t := 60 to 80
        invariant v == Rounds(h, m, t)
      {
        v := Turn(t, v, Parity(v.b, v.c, v.d), w[t], 0xCA62C1D6);
      }
    }

    /** SHA1ProcessMessageBlock */
    method ProcessMessageBlock()
      requires Shaped()
      modifies this`index, this`digest
      ensures index == 0 && digest == Compress(old(digest), old(block[..]))
    {
      hide Rounds, Plus;
      ghost var m: Block := block[..];
      var w := Schedule();
      var v := TurnAll(w, digest, m);
      digest := Hash(Plus(digest.a, v.a), Plus(digest.b, v.b), Plus(digest.c, v.c), Plus(digest.d, v.d),
                     Plus(digest.e, v.e));
      index := 0;
    }

    /** Message_Block[Message_Block_Index++] = b */
    method Put(b: octet, ghost fed: seq<octet>)
      requires Holds(fed) && index < 64
      modifies this`index, block
      ensures Holds(fed + [b]) && index == old(index) + 1
    {
      block[index] := b;
      index := index + 1;
      assert (fed + [b])[..|fed + [b]| - index] == fed[..|fed| - old(index)];
      assert block[..index] == (fed + [b])[|fed + [b]| - index..];
    }

    /** A full block is hashed. */
    method Flush(ghost fed: seq<octet>)
      requires Holds(fed) && index == 64
      modifies this`index, this`digest
      ensures Holds(fed) && index == 0
    {
      hide Hashed, Compress;
      ghost var a, b := fed[..|fed| - 64], fed[|fed| - 64..];
      assert block[..] == block[..64] == b;
      HashedStep(a, b);
      assert a + b == fed;
      ProcessMessageBlock();
      assert fed[..|fed| - 0] == fed && fed[|fed| - 0..] == [] == block[..0];
    }

    /** while (Message_Block_Index < end) Message_Block[Message_Block_Index++] = 0 */
    method FillZeros(end: nat, ghost fed: seq<octet>)
      requires Holds(fed) && index <= end <= 64
      modifies this`index, block
      ensures Holds(fed + Fill<octet>(0, end - old(index))) && index == end
    {
      hide Holds;
      ghost var start := index;
      assert fed + Fill<octet>(0, 0) == fed;
      while index < end
        invariant start <= index <= end && Holds(fed + Fill<octet>(0, index - start))
      {
        ghost var z := index - start;
        Put(0, fed + Fill<octet>(0, z));
        ZerosMore(fed, z);
      }
    }

    /** One turn of the loop of SHA1Input. */
    method InputByte(b: octet)
      requires Streaming()
      modifies this, block
      ensures Shaped() && message == old(message) + [b] && !computed
      ensures if Fits(|message|) then Streaming() else corrupted
    {
      hide Streaming, Split, LowWord, HighWord, Fits;
      StreamingCounts(this);
      StreamingHolds(this);
      var low, high, over := CountByte(lengthLow, lengthHigh, |message|);
      PutAndFlush(b);
      lengthLow, lengthHigh, corrupted := low, high, over;
      if !over { IsStreaming(this); }
    }

    /** The byte goes into the block, and a full block is hashed. */
    method PutAndFlush(b: octet)
      requires Holds(message) && index < 64
      modifies this`index, this`message, this`digest, block
      ensures message == old(message) + [b] && Holds(message) && index < 64
    {
      hide Holds;
      Put(b, message);
      message := message + [b];
      if index == 64 { Flush(message); }
    }

    /** SHA1Input: the bytes are appended to the message, unless that is finished or too long; then
        the context is marked and, if it was marked or finished before, nothing else changes. */
    method Input(data: seq<octet>)
      requires Streaming() || (Shaped() && (computed || corrupted))
      modifies this, block
      ensures Shaped() && computed == old(computed)
      ensures data == [] || old(computed || corrupted) ==>
        message == old(message) && digest == old(digest) && corrupted == (old(corrupted) || data != [])
      ensures old(Streaming()) ==> if Fits(|old(message)| + |data|)
        then Streaming() && message == old(message) + data else corrupted
    {
      if Streaming() { HoldsIsShaped(this, message); }
      hide Holds;
      if |data| == 0 {
        assert message + data == message;
        return;
      }
      if computed || corrupted {
        corrupted := true;
        return;
      }
      InputEach(data);
    }

    /** The loop of SHA1Input. */
    method InputEach(data: seq<octet>)
      requires Streaming()
      modifies this, block
      ensures Shaped() && !computed
      ensures if Fits(|old(message)| + |data|) then Streaming() && message == old(message) + data else corrupted
    {
      hide Streaming, Split, LowWord, HighWord, Fits;
      StreamingCounts(this);
      StreamingHolds(this);
      var i := 0;
      ghost var start := message;
      assert start + data[..0] == start;
      while i < |data| && !corrupted
        invariant i <= |data| && Shaped() && !computed && message == start + data[..i]
        invariant if Fits(|start| + i) then Streaming() else corrupted
      {
        InputByte(data[i]);
        i := i + 1;
        assert data[..i] == data[..i - 1] + [data[i - 1]];
      }
      if Fits(|start| + |data|) { FitsBelow(|start| + i, |start| + |data|); }
      if Fits(|start| + i) { StreamingHolds(this); }
      assert i == |data| ==> data[..i] == data;
    }

    /** The length, most significant byte first. */
    method PutLength(ghost fed: seq<octet>)
      requires Holds(fed) && index == 56 && lengthHigh < Bytes.WORD32 && lengthLow < Bytes.WORD32
      modifies this`index, block
      ensures Holds(fed + (Octets(lengthHigh) + Octets(lengthLow))) && index == 64
    {
      hide Holds, Octets;
      ghost var h, l := Octets(lengthHigh), Octets(lengthLow);
      Put4(lengthHigh, fed);
      Put4(lengthLow, fed + h);
      assert fed + h + l == fed + (h + l);
    }

    method Put4(x: nat, ghost fed: seq<octet>)
      requires Holds(fed) && index <= 60 && x < Bytes.WORD32
      modifies this`index, block
      ensures Holds(fed + Octets(x)) && index == old(index) + 4
    {
      hide Holds;
      ghost var b := Octets(x);
      Put((x / 0x100_0000) as octet, fed);
      Put((x / 0x1_0000 % 0x100) as octet, fed + [b[0]]);
      Put((x / 0x100 % 0x100) as octet, fed + [b[0]] + [b[1]]);
      Put((x % 0x100) as octet, fed + [b[0]] + [b[1]] + [b[2]]);
      assert fed + [b[0]] + [b[1]] + [b[2]] + [b[3]] == fed + b;
    }

    /** SHA1PadMessage */
    method PadMessage()
      requires Streaming()
      modifies this`index, this`digest, block
      ensures Shaped() && digest == Hashed(CodePadded(message))
    {
      ghost var i := index;
      StreamingCounts(this);
      PadZeros();
      hide Holds, Octets, Streaming, CodePadded, LowWord, HighWord;
      ghost var fed := ZeroPadded(message, i);
      PutLength(fed);
      PaddedAsFed(message, i);
      Flush(CodePadded(message));
      HoldsAll(this, CodePadded(message));
    }

    /** The padding before the length: it may fill one block and begin another. */
    method PadZeros()
      requires Streaming()
      modifies this`index, this`digest, block
      ensures Holds(ZeroPadded(message, old(index))) && index == 56
    {
      ghost var i := index;
      hide Holds;
      Put(0x80, message);
      if index > 55 {
        FillZeros(64, message + [0x80]);
        Flush(message + [0x80] + Fill<octet>(0, 63 - i));
        FillZeros(56, message + [0x80] + Fill<octet>(0, 63 - i));
      } else {
        FillZeros(56, message + [0x80]);
      }
    }

    /** SHA1Result: the first call leaves the digest of everything fed in, and a second call changes
        nothing; a marked context reports failure. */
    method Result() returns (ok: bool)
      requires Streaming() || (Shaped() && (computed || corrupted))
      modifies this, block
      ensures Shaped() && message == old(message) && corrupted == old(corrupted) && ok == !corrupted
      ensures ok ==> computed
      ensures old(Streaming()) ==> digest == Hashed(CodePadded(message))
      ensures old(corrupted || computed) ==> digest == old(digest) && computed == old(computed)
    {
      if corrupted { return false; }
      if !computed {
        PadMessage();
        computed := true;
      }
      return true;
    }
  }

  lemma CountBits(n: nat)
    ensures LowWord(n + 1) == (LowWord(n) + 8) % Bytes.WORD32
    ensures HighWord(n + 1) == if LowWord(n + 1) == 0 then HighWord(n) + 1 else HighWord(n)
  {
  }

  lemma CountNothing()
    ensures LowWord(0) == 0 == HighWord(0)
  {
  }

  lemma CountersFit(n: nat)
    requires Fits(n)
    ensures LowWord(n) < Bytes.WORD32 && HighWord(n) < Bytes.WORD32
  {
  }

  /** The zero bytes SHA1PadMessage writes. It looks whether the length still fits after it has put
      the 0x80 down, with a bound meant for before, so when exactly eight bytes are left it goes on to
      another block. */
  function CodeZeros(n: nat): nat
  {
    var i := n % 64;
    if i + 1 > 55 then (63 - i) + 56 else 55 - i
  }

  /** The message as SHA1PadMessage pads it. */
  function CodePadded(m: seq<octet>): (p: seq<octet>)
    ensures |p| % 64 == 0
  {
    assert (|m| + 1 + CodeZeros(|m|) + 8) % 64 == 0;
    m + [0x80] + Fill<octet>(0, CodeZeros(|m|)) + LengthBlock(8 * |m|)
  }

  /** What PadZeros makes of a message of which i bytes stand in the block. */
  function ZeroPadded(m: seq<octet>, i: nat): seq<octet>
    requires i < 64
  {
    if i + 1 > 55 then m + [0x80] + Fill<octet>(0, 63 - i) + Fill<octet>(0, 56)
    else m + [0x80] + Fill<octet>(0, 56 - (i + 1))
  }

  lemma ZeroPaddedIs(m: seq<octet>, i: nat)
    requires i == |m| % 64
    ensures ZeroPadded(m, i) == m + [0x80] + Fill<octet>(0, CodeZeros(|m|))
  {
    if i + 1 > 55 {
      assert Fill<octet>(0, 63 - i) + Fill<octet>(0, 56) == Fill<octet>(0, 119 - i);
      var a, b := Fill<octet>(0, 63 - i), Fill<octet>(0, 56);
      assert m + [0x80] + a + b == m + [0x80] + (a + b);
    }
  }

  lemma LengthOctets(n: nat)
    requires Fits(n)
    ensures LowWord(n) < Bytes.WORD32 && HighWord(n) < Bytes.WORD32
    ensures LengthBlock(8 * n) == Octets(HighWord(n)) + Octets(LowWord(n))
  {
    hide Octets;
    CountersFit(n);
    HighWordIsShort(n);
  }

  lemma HighWordIsShort(n: nat)
    requires Fits(n)
    ensures 8 * n / Bytes.WORD32 % Bytes.WORD32 == HighWord(n)
  {
    assert HighWord(n) < Bytes.WORD32;
  }

  lemma PaddedAsFed(m: seq<octet>, i: nat)
    requires Fits(|m|) && i == |m| % 64
    ensures LowWord(|m|) < Bytes.WORD32 && HighWord(|m|) < Bytes.WORD32
    ensures CodePadded(m) == ZeroPadded(m, i) + (Octets(HighWord(|m|)) + Octets(LowWord(|m|)))
  {
    hide Octets, ZeroPadded, LowWord, HighWord, LengthBlock;
    ZeroPaddedIs(m, i);
    LengthOctets(|m|);
  }

  lemma ZerosMore(fed: seq<octet>, z: nat)
    ensures fed + Fill<octet>(0, z) + [0] == fed + Fill<octet>(0, z + 1)
  {
    assert Fill<octet>(0, z) + [0] == Fill<octet>(0, z + 1);
    assert fed + Fill<octet>(0, z) + [0] == fed + (Fill<octet>(0, z) + [0]);
  }

  lemma HashedNothing()
    ensures Hashed([]) == H0
  {
  }

  lemma HoldsNothing(c: Context)
    requires c.Shaped() && c.index == 0 && c.digest == Hashed([])
    ensures c.Holds([])
  {
    hide Hashed;
    var none: seq<octet> := [];
    assert none[..0] == [] && c.block[..0] == [] == none[0..];
  }

  lemma HashedStep(a: seq<octet>, b: Block)
    requires |a| % 64 == 0
    ensures Hashed(a + b) == Compress(Hashed(a), b)
  {
    hide Compress;
    assert (a + b)[..|a|] == a && (a + b)[|a|..] == b;
  }

  lemma HoldsIsShaped(c: Context, fed: seq<octet>)
    requires c.Holds(fed)
    ensures c.Shaped()
  {
    hide Hashed;
  }

  lemma HoldsAll(c: Context, fed: seq<octet>)
    requires c.Holds(fed) && c.index == 0
    ensures c.Shaped() && |fed| % 64 == 0 && c.digest == Hashed(fed)
  {
    hide Hashed;
    assert fed[..|fed| - 0] == fed;
  }

  lemma FitsBelow(n: nat, more: nat)
    requires n <= more && Fits(more)
    ensures Fits(n)
  {
  }

  lemma StreamingHolds(c: Context)
    requires c.Streaming()
    ensures c.Holds(c.message) && c.index < 64 && !c.corrupted && !c.computed
  {
  }

  lemma IsStreaming(c: Context)
    requires c.Holds(c.message) && c.index < 64 && !c.corrupted && !c.computed && Fits(|c.message|)
    requires c.lengthLow == LowWord(|c.message|) && c.lengthHigh == HighWord(|c.message|)
    ensures c.Streaming()
  {
  }

  lemma IndexIsRest(n: nat, i: nat)
    requires i < 64 && i <= n && (n - i) % 64 == 0
    ensures i == n % 64
  {
  }

  lemma StreamingCounts(c: Context)
    requires c.Streaming()
    ensures c.index == |c.message| % 64 && Fits(|c.message|) && c.Shaped()
    ensures c.lengthLow == LowWord(|c.message|) < Bytes.WORD32 && c.lengthHigh == HighWord(|c.message|) < Bytes.WORD32
  {
    hide Hashed, LowWord, HighWord;
    IndexIsRest(|c.message|, c.index);
    CountersFit(|c.message|);
  }

  lemma CodeZerosAreStandard(n: nat)
    ensures CodeZeros(n) == (55 - n as int) % 64 + if n % 64 == 55 then 64 else 0
  {
  }

  /** The code pads as section 5.1.1 of the standard asks exactly when the length is not 55 modulo 64. */
  lemma PaddingIsStandard(m: seq<octet>)
    ensures CodePadded(m) == Padded(m) <==> |m| % 64 != 55
  {
    hide LengthBlock, CodeZeros;
    CodeZerosAreStandard(|m|);
  }

  /** Whatever way a message is cut into SHA1Input calls, SHA1Result leaves the digest of FIPS 180-4,
      unless its length is 55 modulo 64; and asking again changes nothing. A message too long for the
      length block is refused. */
  method HashChunks(chunks: seq<seq<octet>>) returns (ok: bool, digest: Hash, again: Hash)
    ensures ok <==> Fits(|Flat(chunks, |chunks|)|)
    ensures ok && |Flat(chunks, |chunks|)| % 64 != 55 ==> digest == Sha1(Flat(chunks, |chunks|))
    ensures ok ==> digest == Hashed(CodePadded(Flat(chunks, |chunks|))) == again
  {
    hide Hashed, CodePadded, Padded, Fits;
    ghost var m := Flat(chunks, |chunks|);
    var c := new Context();
    c.Reset();
    FitsNothing();
    for i := 0 to |chunks|
      invariant c.Shaped() && !c.computed
      invariant if Fits(|Flat(chunks, i)|) then c.Streaming() && c.message == Flat(chunks, i) else c.corrupted
    {
      FlatGrows(chunks, i, |chunks|);
      if Fits(|Flat(chunks, i + 1)|) { FitsBelow(|Flat(chunks, i)|, |Flat(chunks, i + 1)|); }
      c.Input(chunks[i]);
    }
    if Fits(|m|) { StreamingHolds(c); }
    ok := c.Result();
    digest := c.digest;
    var _ := c.Result();
    again := c.digest;
    PaddingIsStandard(m);
  }

  lemma FitsNothing()
    ensures Fits(0)
  {
  }

  lemma GatheredIsBigEndian(m: Block, t: nat)
    requires t < 16
    ensures Gather(m[t * 4], m[t * 4 + 1], m[t * 4 + 2], m[t * 4 + 3]) == W(m, t)
  {
  }
}