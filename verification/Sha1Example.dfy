/** One message for which debugsnapshot.c and FIPS 180-4 differ, computed to the end: 55 zero bytes. */
module Sha1Example {
  import opened Chunks
  import opened Sha1Spec
  import Sha1

  /** Sixteen words: of a schedule, or the first of the working variables in sixteen rounds. */
  datatype Words = Words(w0: word, w1: word, w2: word, w3: word, w4: word, w5: word, w6: word, w7: word,
                         w8: word, w9: word, w10: word, w11: word, w12: word, w13: word, w14: word, w15: word)

  function Mix(a: word, b: word, c: word, d: word): word
  {
    ((a ^ b ^ c ^ d) << 1) | ((a ^ b ^ c ^ d) >> 31)
  }

  /** r are the words of the schedule behind s. */
  predicate Follows(s: Words, r: Words)
  {
    && r.w0 == Mix(s.w13, s.w8, s.w2, s.w0) && r.w1 == Mix(s.w14, s.w9, s.w3, s.w1)
    && r.w2 == Mix(s.w15, s.w10, s.w4, s.w2) && r.w3 == Mix(r.w0, s.w11, s.w5, s.w3)
    && r.w4 == Mix(r.w1, s.w12, s.w6, s.w4) && r.w5 == Mix(r.w2, s.w13, s.w7, s.w5)
    && r.w6 == Mix(r.w3, s.w14, s.w8, s.w6) && r.w7 == Mix(r.w4, s.w15, s.w9, s.w7)
    && r.w8 == Mix(r.w5, r.w0, s.w10, s.w8) && r.w9 == Mix(r.w6, r.w1, s.w11, s.w9)
    && r.w10 == Mix(r.w7, r.w2, s.w12, s.w10) && r.w11 == Mix(r.w8, r.w3, s.w13, s.w11)
    && r.w12 == Mix(r.w9, r.w4, s.w14, s.w12) && r.w13 == Mix(r.w10, r.w5, s.w15, s.w13)
    && r.w14 == Mix(r.w11, r.w6, r.w0, s.w14) && r.w15 == Mix(r.w12, r.w7, r.w1, s.w15)
  }

  /** The first working variable after a round, from its last five values. */
  function Turn(t: nat, a: word, b: word, c: word, d: word, e: word, w: word): word
  {
    ((a << 5) | (a >> 27)) + F(t, b, (c << 30) | (c >> 2), (d << 30) | (d >> 2)) + ((e << 30) | (e >> 2)) + K(t) + w
  }

  /** r are its values in sixteen rounds from round t on, behind p, with the words s. */
  predicate Turned(t: nat, p: Words, s: Words, r: Words)
  {
    && r.w0 == Turn(t + 0, p.w15, p.w14, p.w13, p.w12, p.w11, s.w0)
    && r.w1 == Turn(t + 1, r.w0, p.w15, p.w14, p.w13, p.w12, s.w1)
    && r.w2 == Turn(t + 2, r.w1, r.w0, p.w15, p.w14, p.w13, s.w2)
    && r.w3 == Turn(t + 3, r.w2, r.w1, r.w0, p.w15, p.w14, s.w3)
    && r.w4 == Turn(t + 4, r.w3, r.w2, r.w1, r.w0, p.w15, s.w4)
    && r.w5 == Turn(t + 5, r.w4, r.w3, r.w2, r.w1, r.w0, s.w5)
    && r.w6 == Turn(t + 6, r.w5, r.w4, r.w3, r.w2, r.w1, s.w6)
    && r.w7 == Turn(t + 7, r.w6, r.w5, r.w4, r.w3, r.w2, s.w7)
    && r.w8 == Turn(t + 8, r.w7, r.w6, r.w5, r.w4, r.w3, s.w8)
    && r.w9 == Turn(t + 9, r.w8, r.w7, r.w6, r.w5, r.w4, s.w9)
    && r.w10 == Turn(t + 10, r.w9, r.w8, r.w7, r.w6, r.w5, s.w10)
    && r.w11 == Turn(t + 11, r.w10, r.w9, r.w8, r.w7, r.w6, s.w11)
    && r.w12 == Turn(t + 12, r.w11, r.w10, r.w9, r.w8, r.w7, s.w12)
    && r.w13 == Turn(t + 13, r.w12, r.w11, r.w10, r.w9, r.w8, s.w13)
    && r.w14 == Turn(t + 14, r.w13, r.w12, r.w11, r.w10, r.w9, s.w14)
    && r.w15 == Turn(t + 15, r.w14, r.w13, r.w12, r.w11, r.w10, s.w15)
  }

  /** The schedule of a block has these words from t on. */
  predicate Window(m: Block, t: nat, s: Words)
  {
    && W(m, t + 0) == s.w0 && W(m, t + 1) == s.w1 && W(m, t + 2) == s.w2 && W(m, t + 3) == s.w3
    && W(m, t + 4) == s.w4 && W(m, t + 5) == s.w5 && W(m, t + 6) == s.w6 && W(m, t + 7) == s.w7
    && W(m, t + 8) == s.w8 && W(m, t + 9) == s.w9 && W(m, t + 10) == s.w10 && W(m, t + 11) == s.w11
    && W(m, t + 12) == s.w12 && W(m, t + 13) == s.w13 && W(m, t + 14) == s.w14 && W(m, t + 15) == s.w15
  }

  /** The working variables, from five values of the first one. */
  function Variables(a: word, b: word, c: word, d: word, e: word): Hash
  {
    Hash(a, b, Rotl(30, c), Rotl(30, d), Rotl(30, e))
  }

  predicate Latest(v: Hash, p: Words) { v == Variables(p.w15, p.w14, p.w13, p.w12, p.w11) }

  lemma Rotations(x: word)
    ensures Rotl(1, x) == (x << 1) | (x >> 31)
    ensures Rotl(5, x) == (x << 5) | (x >> 27)
    ensures Rotl(30, x) == (x << 30) | (x >> 2)
  {
  }

  lemma MixIsRotl(a: word, b: word, c: word, d: word)
    ensures Mix(a, b, c, d) == Rotl(1, Mixed(a, b, c, d))
  {
    Rotations(a ^ b ^ c ^ d);
    hide Rotl;
  }

  lemma WordFollows(m: Block, t: nat, r: word)
    requires t >= 16 && r == Mix(W(m, t - 3), W(m, t - 8), W(m, t - 14), W(m, t - 16))
    ensures W(m, t) == r
  {
    hide Rotl, Mix, Mixed;
    MixIsRotl(W(m, t - 3), W(m, t - 8), W(m, t - 14), W(m, t - 16));
  }

  lemma WindowFollows(m: Block, t: nat, s: Words, r: Words)
    requires Window(m, t, s) && Follows(s, r)
    ensures Window(m, t + 16, r)
  {
    hide W, Mix;
    WordFollows(m, t + 16, r.w0);
    WordFollows(m, t + 17, r.w1);
    WordFollows(m, t + 18, r.w2);
    WordFollows(m, t + 19, r.w3);
    WordFollows(m, t + 20, r.w4);
    WordFollows(m, t + 21, r.w5);
    WordFollows(m, t + 22, r.w6);
    WordFollows(m, t + 23, r.w7);
    WordFollows(m, t + 24, r.w8);
    WordFollows(m, t + 25, r.w9);
    WordFollows(m, t + 26, r.w10);
    WordFollows(m, t + 27, r.w11);
    WordFollows(m, t + 28, r.w12);
    WordFollows(m, t + 29, r.w13);
    WordFollows(m, t + 30, r.w14);
    WordFollows(m, t + 31, r.w15);
  }

  lemma OneTurn(h: Hash, m: Block, t: nat, a: word, b: word, c: word, d: word, e: word, r: word)
    requires Rounds(h, m, t) == Variables(a, b, c, d, e) && r == Turn(t, a, b, c, d, e, W(m, t))
    ensures Rounds(h, m, t + 1) == Variables(r, a, b, c, d)
  {
    hide W, F, K, Rotl, Turn, Sum;
    TurnIsSum(t, a, b, c, d, e, W(m, t));
  }

  lemma TurnIsSum(t: nat, a: word, b: word, c: word, d: word, e: word, w: word)
    ensures Turn(t, a, b, c, d, e, w) == Sum(Rotl(5, a), F(t, b, Rotl(30, c), Rotl(30, d)), Rotl(30, e), K(t), w)
  {
    TurnIsPlainSum(t, a, b, c, d, e, w);
    hide F, K, Rotl, Sum, Turn;
    Rotations(a);
    Rotations(c);
    Rotations(d);
    Rotations(e);
  }

  lemma TurnIsPlainSum(t: nat, a: word, b: word, c: word, d: word, e: word, w: word)
    ensures Turn(t, a, b, c, d, e, w) ==
      Sum((a << 5) | (a >> 27), F(t, b, (c << 30) | (c >> 2), (d << 30) | (d >> 2)), (e << 30) | (e >> 2), K(t), w)
  {
    hide F, K;
  }

  lemma SixteenTurns(h: Hash, m: Block, t: nat, p: Words, s: Words, r: Words)
    requires Latest(Rounds(h, m, t), p) && Window(m, t, s) && Turned(t, p, s, r)
    ensures Latest(Rounds(h, m, t + 16), r)
  {
    hide W, Rounds, Turn, Variables;
    OneTurn(h, m, t + 0, p.w15, p.w14, p.w13, p.w12, p.w11, r.w0);
    OneTurn(h, m, t + 1, r.w0, p.w15, p.w14, p.w13, p.w12, r.w1);
    OneTurn(h, m, t + 2, r.w1, r.w0, p.w15, p.w14, p.w13, r.w2);
    OneTurn(h, m, t + 3, r.w2, r.w1, r.w0, p.w15, p.w14, r.w3);
    OneTurn(h, m, t + 4, r.w3, r.w2, r.w1, r.w0, p.w15, r.w4);
    OneTurn(h, m, t + 5, r.w4, r.w3, r.w2, r.w1, r.w0, r.w5);
    OneTurn(h, m, t + 6, r.w5, r.w4, r.w3, r.w2, r.w1, r.w6);
    OneTurn(h, m, t + 7, r.w6, r.w5, r.w4, r.w3, r.w2, r.w7);
    OneTurn(h, m, t + 8, r.w7, r.w6, r.w5, r.w4, r.w3, r.w8);
    OneTurn(h, m, t + 9, r.w8, r.w7, r.w6, r.w5, r.w4, r.w9);
    OneTurn(h, m, t + 10, r.w9, r.w8, r.w7, r.w6, r.w5, r.w10);
    OneTurn(h, m, t + 11, r.w10, r.w9, r.w8, r.w7, r.w6, r.w11);
    OneTurn(h, m, t + 12, r.w11, r.w10, r.w9, r.w8, r.w7, r.w12);
    OneTurn(h, m, t + 13, r.w12, r.w11, r.w10, r.w9, r.w8, r.w13);
    OneTurn(h, m, t + 14, r.w13, r.w12, r.w11, r.w10, r.w9, r.w14);
    OneTurn(h, m, t + 15, r.w14, r.w13, r.w12, r.w11, r.w10, r.w15);
  }

  // ---------------------------------------------------------------- the three blocks

  const START := Words(0, 0, 0, 0, 0, 0, 0, 0, 0, 0, 0, 0xf4b87c3, 0x40c951d8, 0x62eb73fa, 0xefcdab89, 0x67452301)
  const A_WORDS0 := Words(0, 0, 0, 0, 0, 0, 0, 0, 0, 0, 0, 0, 0, 0x80, 0, 0x1b8)
  const A_TURNS0 := Words(0x9fb498b3, 0x5d43e380, 0x158d3162, 0xcded3afd, 0x695b587e, 0x54c77ea, 0xddbbf7, 0x6e14a2f0,
    0x2ae5845f, 0x12e11b97, 0x2907531, 0x786daff5, 0x4c76e52b, 0x78cccddd, 0x8566f59a, 0x9e24f755)
  const A_WORDS16 := Words(0x100, 0, 0x370, 0x200, 0, 0x7e0, 0x400, 0x370, 0xdc0, 0x800, 0, 0x1e80, 0x1000, 0xdb0,
    0x3700, 0x2590)
  const A_TURNS16 := Words(0xd3780a9b, 0x5cb53bc3, 0xb266e6e0, 0xc0551bab, 0x729c49a4, 0xf3231798, 0x587ae8a5,
    0xca62008f, 0x2344916e, 0x94c7b30e, 0xcc5bbebd, 0x3efeb379, 0x23046110, 0x4110efc5, 0x55d72a6d, 0xa344a9e9)
  const A_WORDS32 := Words(0x400, 0x7a00, 0x4dc0, 0x3ec0, 0xdc00, 0x89c0, 0, 0x1e5c0, 0x10000, 0xd900, 0x37000,
    0x25be0, 0x4400, 0x7a3c0, 0x4d1c0, 0x3fca0)
  const A_TURNS32 := Words(0x3480e38b, 0xae2d47ce, 0x8deb7291, 0x8d9a9c83, 0x763f9e0c, 0x495981a5, 0x3bb957c5,
    0x13267b2, 0xb46fc1fd, 0x7d1b2306, 0x948c011, 0x7440223c, 0xa4b7a2a7, 0xe975c613, 0x61323a61, 0xe0eefe37)
  const A_WORDS48 := Words(0xdd400, 0x89800, 0x3ac0, 0x1e71c0, 0x100000, 0xdea00, 0x374000, 0x2580c0, 0x49c00,
    0x7ab5c0, 0x4d1c00, 0x3e2bc0, 0xdc4000, 0x8952c0, 0xdc00, 0x1e548c0)
  const A_TURNS48 := Words(0xb356d908, 0xdb7a5d2f, 0xf123aea3, 0x47850c1, 0xb494acc, 0x19818a68, 0xffab2bd2,
    0x8281b5d3, 0x27578a0e, 0x43ae9e5, 0xc509428a, 0x711deecd, 0xdd6f6368, 0x83ff684a, 0xbbc9aa18, 0xdfa36972)
  const A_WORDS64 := Words(0x1004000, 0xd90000, 0x370dc00, 0x25be000, 0x440000, 0x7a3c800, 0x4d1c000, 0x3fcfb80,
    0xdd41000, 0x898bc00, 0x3af700, 0x1e711200, 0x10004000, 0xdea4a00, 0x37409c00, 0x2581e680)
  const A_TURNS64 := Words(0x488554b4, 0x64f10b1f, 0xde94c042, 0x8f819925, 0x884c988b, 0xced3dc66, 0xdef62048,
    0xb3e9928e, 0x489b7b68, 0x5efe86, 0x5e0f1888, 0xa0f6b1f2, 0x72721ec0, 0x701a8b2f, 0x52d8f803, 0x27430fc5)
  const B_WORDS0 := Words(0, 0, 0, 0, 0, 0, 0, 0, 0, 0, 0, 0, 0, 0x80, 0, 0)
  const B_TURNS0 := Words(0x9fb498b3, 0x5d43e380, 0x158d3162, 0xcded3afd, 0x695b587e, 0x54c77ea, 0xddbbf7, 0x6e14a2f0,
    0x2ae5845f, 0x12e11b97, 0x2907531, 0x786daff5, 0x4c76e52b, 0x78cccddd, 0x8566f59a, 0x9e24f59d)
  const B_WORDS16 := Words(0x100, 0, 0, 0x200, 0, 0x100, 0x400, 0, 0, 0x800, 0, 0x500, 0x1000, 0x300, 0, 0x2000)
  const B_TURNS16 := Words(0xd377d39b, 0x5cae5dc3, 0xb18aa2e2, 0xa4be0a3b, 0xa131f0, 0x57d5557a, 0x869c5221,
    0xad997411, 0x1e793b67, 0x97f4e2c7, 0x18240cdc, 0x100f91c6, 0x167a0c1b, 0xf9b56b1c, 0x1ff5734e, 0x2bb98506)
  const B_WORDS32 := Words(0x400, 0x1400, 0x4000, 0x400, 0, 0x8400, 0, 0x5000, 0x10000, 0x3200, 0, 0x20400, 0x4400,
    0x14e00, 0x40000, 0x4000)
  const B_TURNS32 := Words(0x4e151f66, 0x8945f282, 0x190bf9ad, 0xa8855631, 0x3352d5eb, 0xb95149da, 0x5a8621a4,
    0x258617c3, 0x78d53c42, 0x9d1c3f08, 0x39d97cc5, 0x7e23f0fc, 0x5c50f61b, 0x25d87d47, 0xcfc773bd, 0xee1950cd)
  const B_WORDS48 := Words(0x1400, 0x84400, 0, 0x52000, 0x100000, 0x33400, 0x4000, 0x204400, 0x44000, 0x146400,
    0x400000, 0x45400, 0x4000, 0x847400, 0, 0x500000)
  const B_TURNS48 := Words(0x4125266d, 0x764e68d7, 0x96044b8a, 0x35ea73b0, 0x9c01d2b0, 0x1525a33a, 0x9e659133,
    0x68feedd, 0xf5d9e616, 0xf8f6c532, 0x1917b21f, 0x93a6b2c2, 0x9b39d0b5, 0xdb76b517, 0xf10ca69f, 0xcbdeefe5)
  const B_WORDS64 := Words(0x1004000, 0x320000, 0, 0x2040000, 0x440000, 0x14e0800, 0x4000000, 0x404000, 0x141000,
    0x8446000, 0, 0x5206000, 0x10004000, 0x334f800, 0x404000, 0x20440000)
  const B_TURNS64 := Words(0x4d4a2b36, 0x9be907d3, 0x26022f6, 0x8efa8124, 0x94b78c2f, 0xde8da302, 0xbea28900,
    0x37ab0aea, 0xcfc2d230, 0x5fd00b64, 0xe98849eb, 0x11ff7ee5, 0x75caa0f0, 0xb745fab6, 0x972dc8b8, 0xb90a7895)
  const MIDDLE := Words(0, 0, 0, 0, 0, 0, 0, 0, 0, 0, 0, 0x214b06a4, 0xb693f2c8, 0x1a316ead, 0x86fb7441, 0x204f9b96)
  const C_WORDS0 := Words(0, 0, 0, 0, 0, 0, 0, 0, 0, 0, 0, 0, 0, 0, 0, 0x1b8)
  const C_TURNS0 := Words(0x9c5586b9, 0x796726b7, 0xb7af8bd4, 0x9348b225, 0x21c68ede, 0x47c3a2b8, 0x5e3c06f7,
    0x7040ea2a, 0x57e38d16, 0x3115c0c6, 0x233783b8, 0x3612eca6, 0x4dbda95e, 0x3076795e, 0x35bff38, 0x6cb72db6)
  const C_WORDS16 := Words(0, 0, 0x370, 0, 0, 0x6e0, 0, 0x370, 0xdc0, 0, 0, 0x1b80, 0, 0xeb0, 0x3700, 0x590)
  const C_TURNS16 := Words(0xf2a89e6, 0x53e1e078, 0x6ed929d6, 0xc24b5fb1, 0x4d5fa0f7, 0xeb9e21bd, 0x9e11d8ea,
    0x15267545, 0xbbdd32a7, 0x861db3e5, 0x688ca8c, 0x151b30f8, 0xe18292d0, 0x3620fb8, 0x2209f2e7, 0xeffee7ea)
  const C_WORDS32 := Words(0, 0x6e00, 0xdc0, 0x3ac0, 0xdc00, 0xdc0, 0, 0x1b5c0, 0, 0xeb00, 0x37000, 0x5fe0, 0,
    0x6edc0, 0xd1c0, 0x3bca0)
  const C_TURNS32 := Words(0x8eaf8af9, 0xa4d07643, 0x793957d, 0xa6537fc1, 0x8256e422, 0x2be5e77d, 0x7ef1d763,
    0x71dff4b4, 0x9fa12ca5, 0x7fd56b73, 0x747b92d7, 0x7e4058ab, 0xeb982a55, 0x4964993f, 0x7b3d3796, 0x2fc96b3f)
  const C_WORDS48 := Words(0xdc000, 0xdc00, 0x3ac0, 0x1b51c0, 0, 0xede00, 0x370000, 0x5c4c0, 0xdc00, 0x6ed1c0,
    0xd1c00, 0x3a7fc0, 0xdc0000, 0xd26c0, 0xdc00, 0x1b548c0)
  const C_TURNS48 := Words(0xe2642182, 0xf550433c, 0xd663cf50, 0xf4509107, 0xa17140e9, 0xab3c5237, 0xe9417561,
    0xd60571e0, 0x352c4d60, 0x97b5e0a4, 0xa5b45f73, 0xd5b3d8e0, 0x444d6e6a, 0x7a9c804b, 0xdc2daefc, 0x1a1e2ff6)
  const C_WORDS64 := Words(0, 0xeb0000, 0x370dc00, 0x5fe000, 0, 0x6edc000, 0xd1c000, 0x3bcbb80, 0xdc00000, 0xdcdc00,
    0x3af700, 0x1b517200, 0, 0xedeb200, 0x3700dc00, 0x5c5e680)
  const C_TURNS64 := Words(0xd72f8c45, 0x36050a85, 0xd3bf7a95, 0x3f06c2b8, 0x1db87fff, 0x494c386, 0x11e4472b,
    0x4bd3ae34, 0xba09a142, 0xe271754b, 0x675ee38, 0xd6f30336, 0xc23ef77, 0x3c33f0f1, 0x38806d83, 0x2c5ba02c)

  lemma A0()
    ensures Turned(0, START, A_WORDS0, A_TURNS0)
    ensures Follows(A_WORDS0, A_WORDS16)
  {
  }

  lemma A16()
    ensures Turned(16, A_TURNS0, A_WORDS16, A_TURNS16)
    ensures Follows(A_WORDS16, A_WORDS32)
  {
  }

  lemma A32()
    ensures Turned(32, A_TURNS16, A_WORDS32, A_TURNS32)
    ensures Follows(A_WORDS32, A_WORDS48)
  {
  }

  lemma A48()
    ensures Turned(48, A_TURNS32, A_WORDS48, A_TURNS48)
    ensures Follows(A_WORDS48, A_WORDS64)
  {
  }

  lemma A64()
    ensures Turned(64, A_TURNS48, A_WORDS64, A_TURNS64)
  {
  }

  lemma B0()
    ensures Turned(0, START, B_WORDS0, B_TURNS0)
    ensures Follows(B_WORDS0, B_WORDS16)
  {
  }

  lemma B16()
    ensures Turned(16, B_TURNS0, B_WORDS16, B_TURNS16)
    ensures Follows(B_WORDS16, B_WORDS32)
  {
  }

  lemma B32()
    ensures Turned(32, B_TURNS16, B_WORDS32, B_TURNS32)
    ensures Follows(B_WORDS32, B_WORDS48)
  {
  }

  lemma B48()
    ensures Turned(48, B_TURNS32, B_WORDS48, B_TURNS48)
    ensures Follows(B_WORDS48, B_WORDS64)
  {
  }

  lemma B64()
    ensures Turned(64, B_TURNS48, B_WORDS64, B_TURNS64)
  {
  }

  lemma C0()
    ensures Turned(0, MIDDLE, C_WORDS0, C_TURNS0)
    ensures Follows(C_WORDS0, C_WORDS16)
  {
  }

  lemma C16()
    ensures Turned(16, C_TURNS0, C_WORDS16, C_TURNS16)
    ensures Follows(C_WORDS16, C_WORDS32)
  {
  }

  lemma C32()
    ensures Turned(32, C_TURNS16, C_WORDS32, C_TURNS32)
    ensures Follows(C_WORDS32, C_WORDS48)
  {
  }

  lemma C48()
    ensures Turned(48, C_TURNS32, C_WORDS48, C_TURNS48)
    ensures Follows(C_WORDS48, C_WORDS64)
  {
  }

  lemma C64()
    ensures Turned(64, C_TURNS48, C_WORDS64, C_TURNS64)
  {
  }

  lemma ARounds(m: Block, h: Hash)
    requires Window(m, 0, A_WORDS0) && Latest(h, START)
    ensures Latest(Rounds(h, m, 80), A_TURNS64)
  {
    hide Window, Turned, Follows, Latest, Rounds;
    NoRounds(h, m);
    A0();
    SixteenTurns(h, m, 0, START, A_WORDS0, A_TURNS0);
    WindowFollows(m, 0, A_WORDS0, A_WORDS16);
    A16();
    SixteenTurns(h, m, 16, A_TURNS0, A_WORDS16, A_TURNS16);
    WindowFollows(m, 16, A_WORDS16, A_WORDS32);
    A32();
    SixteenTurns(h, m, 32, A_TURNS16, A_WORDS32, A_TURNS32);
    WindowFollows(m, 32, A_WORDS32, A_WORDS48);
    A48();
    SixteenTurns(h, m, 48, A_TURNS32, A_WORDS48, A_TURNS48);
    WindowFollows(m, 48, A_WORDS48, A_WORDS64);
    A64();
    SixteenTurns(h, m, 64, A_TURNS48, A_WORDS64, A_TURNS64);
  }

  lemma BRounds(m: Block, h: Hash)
    requires Window(m, 0, B_WORDS0) && Latest(h, START)
    ensures Latest(Rounds(h, m, 80), B_TURNS64)
  {
    hide Window, Turned, Follows, Latest, Rounds;
    NoRounds(h, m);
    B0();
    SixteenTurns(h, m, 0, START, B_WORDS0, B_TURNS0);
    WindowFollows(m, 0, B_WORDS0, B_WORDS16);
    B16();
    SixteenTurns(h, m, 16, B_TURNS0, B_WORDS16, B_TURNS16);
    WindowFollows(m, 16, B_WORDS16, B_WORDS32);
    B32();
    SixteenTurns(h, m, 32, B_TURNS16, B_WORDS32, B_TURNS32);
    WindowFollows(m, 32, B_WORDS32, B_WORDS48);
    B48();
    SixteenTurns(h, m, 48, B_TURNS32, B_WORDS48, B_TURNS48);
    WindowFollows(m, 48, B_WORDS48, B_WORDS64);
    B64();
    SixteenTurns(h, m, 64, B_TURNS48, B_WORDS64, B_TURNS64);
  }

  lemma CRounds(m: Block, h: Hash)
    requires Window(m, 0, C_WORDS0) && Latest(h, MIDDLE)
    ensures Latest(Rounds(h, m, 80), C_TURNS64)
  {
    hide Window, Turned, Follows, Latest, Rounds;
    NoRounds(h, m);
    C0();
    SixteenTurns(h, m, 0, MIDDLE, C_WORDS0, C_TURNS0);
    WindowFollows(m, 0, C_WORDS0, C_WORDS16);
    C16();
    SixteenTurns(h, m, 16, C_TURNS0, C_WORDS16, C_TURNS16);
    WindowFollows(m, 16, C_WORDS16, C_WORDS32);
    C32();
    SixteenTurns(h, m, 32, C_TURNS16, C_WORDS32, C_TURNS32);
    WindowFollows(m, 32, C_WORDS32, C_WORDS48);
    C48();
    SixteenTurns(h, m, 48, C_TURNS32, C_WORDS48, C_TURNS48);
    WindowFollows(m, 48, C_WORDS48, C_WORDS64);
    C64();
    SixteenTurns(h, m, 64, C_TURNS48, C_WORDS64, C_TURNS64);
  }

  lemma NoRounds(h: Hash, m: Block)
    ensures Rounds(h, m, 0) == h
  {
  }

  // ---------------------------------------------------------------- the two digests

  /** Zeros, with one byte behind the message and two at the end. */
  function Plain(mark: octet, n1: octet, n0: octet): Block
  {
    Fill<octet>(0, 55) + [mark] + Fill<octet>(0, 6) + [n1, n0]
  }

  lemma ZeroWord(m: Block, t: nat)
    requires t < 16 && m[4 * t] == 0 && m[4 * t + 1] == 0 && m[4 * t + 2] == 0 && m[4 * t + 3] == 0
    ensures W(m, t) == 0
  {
  }

  lemma LastWord(m: Block, t: nat)
    requires t < 16 && m[4 * t] == 0 && m[4 * t + 1] == 0
    ensures W(m, t) == BigEndian(0, 0, m[4 * t + 2], m[4 * t + 3])
  {
  }

  lemma PlainWindow(mark: octet, n1: octet, n0: octet)
    ensures var m := Plain(mark, n1, n0);
      Window(m, 0, Words(0, 0, 0, 0, 0, 0, 0, 0, 0, 0, 0, 0, 0, BigEndian(0, 0, 0, mark), 0, BigEndian(0, 0, n1, n0)))
  {
    hide W, BigEndian;
    var m := Plain(mark, n1, n0);
    forall t: nat | t < 16 && t != 13 && t != 15 ensures W(m, t) == 0 { ZeroWord(m, t); }
    LastWord(m, 13);
    LastWord(m, 15);
  }

  lemma Lengths()
    ensures LengthBlock(440) == [0, 0, 0, 0, 0, 0, 1, 0xb8]
  {
    hide Octets;
    OctetsOf(0, 0, 0);
    OctetsOf(440, 1, 0xb8);
    assert 0 as octet == 0 && 1 as octet == 1 && 0xb8 as octet == 0xb8;
  }

  lemma OctetsOf(x: nat, high: nat, low: nat)
    requires x == 256 * high + low && high < 256 && low < 256
    ensures Octets(x) == [0, 0, high as octet, low as octet]
  {
    OctetParts(x, high, low);
  }

  lemma OctetParts(x: nat, high: nat, low: nat)
    requires x == 256 * high + low && high < 256 && low < 256
    ensures x / 0x100_0000 == 0 && x / 0x1_0000 % 0x100 == 0 && x / 0x100 % 0x100 == high && x % 0x100 == low
  {
  }

  lemma StandardBlock()
    ensures Padded(Fill<octet>(0, 55)) == Plain(0x80, 1, 0xb8)
  {
    Lengths();
  }

  lemma CodeBlocks()
    ensures Sha1.CodePadded(Fill<octet>(0, 55)) == Plain(0x80, 0, 0) + Plain(0, 1, 0xb8)
  {
    Lengths();
    hide LengthBlock;
  }

  lemma BlocksHashed(m: Block, n: Block)
    ensures Hashed(m) == Compress(H0, m) && Hashed(m + n) == Compress(Compress(H0, m), n)
  {
    hide Compress;
    Sha1.HashedNothing();
    Sha1.HashedStep([], m);
    Sha1.HashedStep(m, n);
    assert [] + m == m;
  }

  lemma StartIsH0()
    ensures Latest(H0, START)
  {
  }

  lemma FirstBlockDone(v: Hash)
    requires Latest(v, B_TURNS64)
    ensures Latest(Add(H0, v), MIDDLE)
  {
  }

  lemma FirstWord(v: Hash)
    requires Latest(v, A_TURNS64)
    ensures Add(H0, v).a == 0x8e8832c6
  {
  }

  lemma OtherWord(v: Hash, h: Hash)
    requires Latest(v, C_TURNS64) && Latest(h, MIDDLE)
    ensures Add(h, v).a == 0x4cab3bc2
  {
  }

  lemma CompressIs(h: Hash, m: Block)
    ensures Compress(h, m) == Add(h, Rounds(h, m, 80))
  {
    hide Add, Rounds;
  }

  lemma StandardDigest(m: Block)
    requires Window(m, 0, A_WORDS0)
    ensures Compress(H0, m).a == 0x8e8832c6
  {
    hide Rounds, Latest, Window, Add, Compress;
    StartIsH0();
    ARounds(m, H0);
    CompressIs(H0, m);
    FirstWord(Rounds(H0, m, 80));
  }

  lemma CodeDigest(m: Block, n: Block)
    requires Window(m, 0, B_WORDS0) && Window(n, 0, C_WORDS0)
    ensures Compress(Compress(H0, m), n).a == 0x4cab3bc2
  {
    hide Rounds, Latest, Window, Add, Compress;
    StartIsH0();
    BRounds(m, H0);
    CompressIs(H0, m);
    FirstBlockDone(Rounds(H0, m, 80));
    var h := Compress(H0, m);
    CRounds(n, h);
    CompressIs(h, n);
    OtherWord(Rounds(h, n, 80), h);
  }

  /** The digest that SHA1Result leaves for 55 zero bytes is not the one of the standard: they differ in
      the first word already. */
  lemma DigestsDiffer()
    ensures Sha1Spec.Sha1(Fill<octet>(0, 55)).a == 0x8e8832c6
    ensures Hashed(Sha1.CodePadded(Fill<octet>(0, 55))).a == 0x4cab3bc2
    ensures Hashed(Sha1.CodePadded(Fill<octet>(0, 55))) != Sha1Spec.Sha1(Fill<octet>(0, 55))
  {
    hide Window, Plain, Compress, Fill, Hashed, Padded, Sha1.CodePadded;
    StandardBlock();
    CodeBlocks();
    Windows();
    StandardDigest(Plain(0x80, 1, 0xb8));
    CodeDigest(Plain(0x80, 0, 0), Plain(0, 1, 0xb8));
    BlocksHashed(Plain(0x80, 1, 0xb8), Plain(0x80, 1, 0xb8));
    BlocksHashed(Plain(0x80, 0, 0), Plain(0, 1, 0xb8));
  }

  lemma Windows()
    ensures Window(Plain(0x80, 1, 0xb8), 0, A_WORDS0)
    ensures Window(Plain(0x80, 0, 0), 0, B_WORDS0)
    ensures Window(Plain(0, 1, 0xb8), 0, C_WORDS0)
  {
    PlainWindow(0x80, 1, 0xb8);
    PlainWindow(0x80, 0, 0);
    PlainWindow(0, 1, 0xb8);
    hide W, Plain, Window;
    assert BigEndian(0, 0, 0, 0x80) == 0x80 && BigEndian(0, 0, 0, 0) == 0 && BigEndian(0, 0, 1, 0xb8) == 0x1b8;
  }
}
