/** One message of FIPS 180-4's own examples, computed to the end: "abc". */
module Sha1Vector {
  import opened Chunks
  import opened Sha1Spec
  import opened Sha1Example
  import Sha1

  const WORDS0 := Words(0x61626380, 0, 0, 0, 0, 0, 0, 0, 0, 0, 0, 0, 0, 0, 0, 0x18)
  const TURNS0 := Words(0x116fc33, 0x8990536d, 0xa1390f08, 0xcdd8e11b, 0xcfd499de, 0x3fc7ca40, 0x993e30c1, 0x9e8c07d4,
    0x4b6ae328, 0x8351f929, 0xfbda9e89, 0x63188fe4, 0x4607b664, 0x9128f695, 0x196bee77, 0x20bdd62f)
  const WORDS16 := Words(0xc2c4c700, 0, 0x30, 0x85898e01, 0, 0x60, 0xb131c03, 0x30, 0x85898ec1, 0x16263806, 0, 0x180,
    0x2c4c700c, 0xf0, 0x93afb507, 0x5898e048)
  const TURNS16 := Words(0x4e925823, 0x82aa6728, 0xdc64901d, 0xfd9e1d7d, 0x1a37b0ca, 0x33a23bfc, 0x21283486,
    0xd541f12d, 0xc7567dc6, 0x48413ba4, 0xbe35fbd5, 0x4aa84d97, 0x8370b52e, 0xc5fbaf5d, 0x1267b407, 0x3b845d33)
  const WORDS32 := Words(0x8e9a9202, 0x600, 0xb131c0f0, 0x16263bc6, 0x4ebed41e, 0x626380a1, 0x16263806, 0x18c0,
    0xd2e138c4, 0xf00, 0x3afb5079, 0x898e04e5, 0xe2ba3c2b, 0x60c0, 0x53a37cd, 0x74458547)
  const TURNS32 := Words(0x46faa0a, 0x2c0ebc11, 0x21796ad4, 0xdcbbb0cb, 0xf511fd8, 0xdc63973f, 0x4c986405, 0x32de1cba,
    0xfc87dedf, 0x970a0d5c, 0x7f193dc5, 0xee1b1aaf, 0x40f28e09, 0x1c51e1f2, 0xa01b846c, 0xbead02ca)
  const WORDS48 := Words(0xda9415ed, 0x26380a16, 0x626383a1, 0x4ebf54de, 0x3835b44b, 0xf600, 0x1e84c7a3, 0x98e04d98,
    0x651d16a0, 0x62658ca1, 0x458544d6, 0x44584cb7, 0x7ba06619, 0x6380aea2, 0xae55269, 0x627b49a1)
  const TURNS48 := Words(0xbaf39337, 0x120731c5, 0x641db2ce, 0x3847ad66, 0xe490436d, 0x27e9f1d8, 0x7b71f76d,
    0x5e6456af, 0xc846093f, 0xd262ff50, 0x9d785fd, 0x3f52de5a, 0xd756c147, 0x548c9cb2, 0xb66c020b, 0x6b61c9e1)
  const WORDS64 := Words(0x7cd45c9d, 0xf0000, 0xfb50753a, 0xec6765e8, 0xba3c2be2, 0x60c000, 0x3a37cd05, 0x458546f4,
    0xb8599dd6, 0x380a1a26, 0x1e02203, 0xe7cc3456, 0xe6e60b69, 0xf60a00, 0x5795ef4f, 0x822e0879)
  const TURNS64 := Words(0x19dfa7ac, 0x101655f9, 0xc3df2b4, 0x78dd4d2b, 0x497093c0, 0x3f2588c2, 0xc199f8c7,
    0x39859de7, 0xedb42de4, 0x11793f6f, 0x5ee76897, 0x63f7dab7, 0xa079b7d9, 0x860d21cc, 0x5738d5e1, 0x42541b35)

  lemma Rounds0()
    ensures Turned(0, START, WORDS0, TURNS0)
    ensures Follows(WORDS0, WORDS16)
  {
  }

  lemma Rounds16()
    ensures Turned(16, TURNS0, WORDS16, TURNS16)
    ensures Follows(WORDS16, WORDS32)
  {
  }

  lemma Rounds32()
    ensures Turned(32, TURNS16, WORDS32, TURNS32)
    ensures Follows(WORDS32, WORDS48)
  {
  }

  lemma Rounds48()
    ensures Turned(48, TURNS32, WORDS48, TURNS48)
    ensures Follows(WORDS48, WORDS64)
  {
  }

  lemma Rounds64()
    ensures Turned(64, TURNS48, WORDS64, TURNS64)
  {
  }

  lemma AllRounds(m: Block, h: Hash)
    requires Window(m, 0, WORDS0) && Latest(h, START)
    ensures Latest(Rounds(h, m, 80), TURNS64)
  {
    hide Window, Turned, Follows, Latest, Rounds;
    NoRounds(h, m);
    Rounds0();
    SixteenTurns(h, m, 0, START, WORDS0, TURNS0);
    WindowFollows(m, 0, WORDS0, WORDS16);
    Rounds16();
    SixteenTurns(h, m, 16, TURNS0, WORDS16, TURNS16);
    WindowFollows(m, 16, WORDS16, WORDS32);
    Rounds32();
    SixteenTurns(h, m, 32, TURNS16, WORDS32, TURNS32);
    WindowFollows(m, 32, WORDS32, WORDS48);
    Rounds48();
    SixteenTurns(h, m, 48, TURNS32, WORDS48, TURNS48);
    WindowFollows(m, 48, WORDS48, WORDS64);
    Rounds64();
    SixteenTurns(h, m, 64, TURNS48, WORDS64, TURNS64);
  }

  // ---------------------------------------------------------------- the message

  function Message(): seq<octet> { [0x61, 0x62, 0x63] }

  /** Its one block. */
  function Padding(): Block { Message() + [0x80] + Fill<octet>(0, 59) + [0x18] }

  lemma Length()
    ensures LengthBlock(24) == [0, 0, 0, 0, 0, 0, 0, 0x18]
  {
    hide Octets;
    OctetsOf(0, 0, 0);
    OctetsOf(24, 0, 0x18);
    assert 0 as octet == 0 && 0x18 as octet == 0x18;
  }

  lemma MessagePadded()
    ensures Padded(Message()) == Padding()
  {
    Length();
    hide LengthBlock;
    assert (55 - 3) % 64 == 52;
    assert Fill<octet>(0, 52) + Fill<octet>(0, 7) == Fill<octet>(0, 59);
  }

  lemma FirstWordIs()
    ensures BigEndian(0x61, 0x62, 0x63, 0x80) == 0x61626380 && BigEndian(0, 0, 0, 0x18) == 0x18
  {
  }

  lemma MessageWindow()
    ensures Window(Padding(), 0, WORDS0)
  {
    var m := Padding();
    hide BigEndian;
    FirstWordIs();
    hide W;
    FirstBytes(m);
    forall t: nat | 0 < t < 15 ensures W(m, t) == 0 { ZeroWord(m, t); }
    LastWord(m, 15);
  }

  lemma FirstBytes(m: Block)
    ensures W(m, 0) == BigEndian(m[0], m[1], m[2], m[3])
  {
  }

  lemma Sums(v: Hash)
    requires Latest(v, TURNS64)
    ensures Add(H0, v) == Hash(0xa9993e36, 0x4706816a, 0xba3e2571, 0x7850c26c, 0x9cd0d89d)
  {
  }

  /** The digest of "abc", of the standard and of the message as the code pads it. */
  lemma DigestOfAbc()
    ensures Sha1Spec.Sha1(Message()) == Hash(0xa9993e36, 0x4706816a, 0xba3e2571, 0x7850c26c, 0x9cd0d89d)
    ensures Hashed(Sha1.CodePadded(Message())) == Sha1Spec.Sha1(Message())
  {
    hide Rounds, Latest, Window, Add, Compress, Hashed, Padded, Message, Padding, Sha1.CodePadded;
    MessagePadded();
    MessageWindow();
    StartIsH0();
    AllRounds(Padding(), H0);
    CompressIs(H0, Padding());
    Sums(Rounds(H0, Padding(), 80));
    BlocksHashed(Padding(), Padding());
    assert |Message()| == 3 by { MessageLength(); }
    Sha1.PaddingIsStandard(Message());
  }

  lemma MessageLength()
    ensures |Message()| == 3
  {
  }
}
