/** The state-save file of statsave.c on values: a file header, then sections, each a 16-byte header
    and data padded to a multiple of 16 bytes. */
module StatFormat {
  import opened Bytes
  import opened Chunks

  /** A position in the file is a long of 32 bits. */
  const MAXFILE := 0x8000_0000

  type Index = s: seq<byte> | |s| == 10 witness seq(10, i => 0)

  /** NP2FENT */
  datatype Header = Header(index: Index, ver: nat, size: nat)

  predicate Fits(h: Header) { h.ver < WORD16 && h.size < WORD32 }

  /** The 16 bytes of a section header: name, version and size. */
  function HeaderBytes(h: Header): (b: seq<byte>)
    requires Fits(h)
    ensures |b| == 16
  {
    h.index + Le16(h.ver) + Le32(h.size)
  }

  function ReadHeader(b: seq<byte>): Header
    requires |b| == 16
  {
    Header(b[..10], Read16(b[10..12]), Read32(b[12..]))
  }

  lemma ReadHeaderBytes(h: Header)
    requires Fits(h)
    ensures ReadHeader(HeaderBytes(h)) == h
  {
    var b := HeaderBytes(h);
    ReadLe16(h.ver);
    ReadLe32(h.size);
    assert b[..10] == h.index && b[10..12] == Le16(h.ver) && b[12..] == Le32(h.size);
    hide Le16, Le32, Read16, Read32;
  }

  function Text(s: string, n: nat): (b: seq<byte>)
    requires |s| <= n && forall i :: 0 <= i < |s| ==> s[i] as int < 256
    ensures |b| == n
  {
    seq(n, i requires 0 <= i < n => if i < |s| then s[i] as int else 0)
  }

  /** np2flagdef: the program's name, its origin and the version of the format. */
  function FileHeader(): (b: seq<byte>)
    ensures |b| == 48
  {
    Text("Neko Project II", 16) + Text("create by NP2.EXE", 28) + Le32(10850)
  }

  /** One section as it is meant: its name, version and data. */
  datatype Section = Section(index: Index, ver: nat, data: seq<byte>)

  predicate Storable(s: Section) { s.ver < WORD16 && |s.data| < MAXFILE }

  function HeaderOf(s: Section): Header { Header(s.index, s.ver, |s.data|) }

  /** (0 - size) & 15 */
  function Padding(size: nat): nat { (0 - size as int) % 16 }

  /** A header with the given size field, the data, and the padding. */
  function Framed(s: Section, size: nat, padding: nat): (b: seq<byte>)
    requires Storable(s) && size < MAXFILE
    ensures |b| == 16 + |s.data| + padding
  {
    HeaderBytes(Header(s.index, s.ver, size)) + s.data + Fill<byte>(0, padding)
  }

  function SectionBytes(s: Section): (b: seq<byte>)
    requires Storable(s)
    ensures |b| == 16 + |s.data| + Padding(|s.data|)
  {
    Framed(s, |s.data|, Padding(|s.data|))
  }

  /** The file that holds the first n sections. */
  function Image(secs: seq<Section>, n: nat): (b: seq<byte>)
    requires n <= |secs| && forall i :: 0 <= i < n ==> Storable(secs[i])
    ensures |b| >= 48
  {
    if n == 0 then FileHeader() else Image(secs, n - 1) + SectionBytes(secs[n - 1])
  }

  lemma {:induction false} ImageOfMore(secs: seq<Section>, s: Section, n: nat)
    requires n <= |secs| && forall i :: 0 <= i < n ==> Storable(secs[i])
    ensures Image(secs + [s], n) == Image(secs, n)
  {
    if n > 0 { ImageOfMore(secs, s, n - 1); }
  }

  lemma ImageStep(secs: seq<Section>, s: Section)
    requires Storable(s) && forall i :: 0 <= i < |secs| ==> Storable(secs[i])
    ensures Image(secs + [s], |secs| + 1) == Image(secs, |secs|) + SectionBytes(s)
  {
    ImageOfMore(secs, s, |secs|);
  }

  /** Each section stands in the whole file where its own image begins. */
  lemma {:induction false} ImagePrefix(secs: seq<Section>, i: nat, n: nat)
    requires i <= n <= |secs| && forall j :: 0 <= j < n ==> Storable(secs[j])
    ensures |Image(secs, i)| <= |Image(secs, n)|
    ensures Image(secs, n)[..|Image(secs, i)|] == Image(secs, i)
  {
    if i < n {
      ImagePrefix(secs, i, n - 1);
      var a, b := Image(secs, n - 1), SectionBytes(secs[n - 1]);
      assert (a + b)[..|Image(secs, i)|] == a[..|Image(secs, i)|];
    }
  }

  lemma SectionParts(s: Section)
    requires Storable(s)
    ensures SectionBytes(s)[..16] == HeaderBytes(HeaderOf(s))
    ensures SectionBytes(s)[16..16 + |s.data|] == s.data
  {
    hide HeaderBytes;
  }

  /** The layout of a section: ten bytes of name, the version and the size with the lowest byte first, the data,
      and zeros up to a multiple of 16 bytes. */
  lemma SectionLayout(s: Section)
    requires Storable(s)
    ensures var b, n := SectionBytes(s), |s.data|;
      && |b| % 16 == 0 && 16 + n <= |b| < 32 + n
      && b[..10] == s.index && LowFirst(b[10..12]) == s.ver && LowFirst(b[12..16]) == n
      && b[16..16 + n] == s.data && forall i :: 16 + n <= i < |b| ==> b[i] == 0
  {
    SectionParts(s);
    Le16IsLowFirst(s.ver);
    Le32IsLowFirst(|s.data|);
    hide Le16, Le32, LowFirst;
    var h, b := HeaderBytes(HeaderOf(s)), SectionBytes(s);
    assert h[..10] == s.index && h[10..12] == Le16(s.ver) && h[12..] == Le32(|s.data|);
    assert b[..10] == b[..16][..10] && b[10..12] == b[..16][10..12] && b[12..16] == b[..16][12..];
  }

  lemma PartOfJoin(a: seq<byte>, b: seq<byte>, lo: nat, hi: nat)
    requires lo <= hi <= |b|
    ensures (a + b)[|a| + lo..|a| + hi] == b[lo..hi]
  {
  }

  lemma SubOfPrefix(file: seq<byte>, n: nat, lo: nat, hi: nat)
    requires lo <= hi <= n <= |file|
    ensures file[lo..hi] == file[..n][lo..hi]
  {
  }

  /** The section s, header and data, stands in the file at a position. */
  ghost predicate Stands(file: seq<byte>, at: nat, s: Section)
  {
    && Storable(s) && at + 16 + |s.data| <= |file|
    && file[at..at + 16] == HeaderBytes(HeaderOf(s))
    && file[at + 16..at + 16 + |s.data|] == s.data
  }

  lemma StandsBehind(file: seq<byte>, a: seq<byte>, s: Section)
    requires Storable(s) && |a + SectionBytes(s)| <= |file| && file[..|a + SectionBytes(s)|] == a + SectionBytes(s)
    ensures Stands(file, |a|, s)
  {
    SectionParts(s);
    hide SectionBytes, HeaderBytes, Padding;
    PartOfFile(file, a, SectionBytes(s), 0, 16);
    PartOfFile(file, a, SectionBytes(s), 16, 16 + |s.data|);
  }

  /** Every section stands in the whole file where the image of those before it ends. */
  lemma SectionStands(secs: seq<Section>, i: nat)
    requires i < |secs| && forall j :: 0 <= j < |secs| ==> Storable(secs[j])
    ensures Stands(Image(secs, |secs|), |Image(secs, i)|, secs[i])
    ensures |Image(secs, i)| + 16 + |secs[i].data| + Padding(|secs[i].data|) == |Image(secs, i + 1)|
  {
    ImagePrefix(secs, i + 1, |secs|);
    hide SectionBytes, Stands;
    assert Image(secs, i + 1) == Image(secs, i) + SectionBytes(secs[i]);
    StandsBehind(Image(secs, |secs|), Image(secs, i), secs[i]);
  }

  lemma PartOfFile(file: seq<byte>, a: seq<byte>, b: seq<byte>, lo: nat, hi: nat)
    requires lo <= hi <= |b| && |a + b| <= |file| && file[..|a + b|] == a + b
    ensures file[|a| + lo..|a| + hi] == b[lo..hi]
  {
    PartOfJoin(a, b, lo, hi);
    SubOfPrefix(file, |a + b|, |a| + lo, |a| + hi);
  }
}
