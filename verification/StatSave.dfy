/** statsave.c as it works: a handle whose state, section header and positions are updated in place,
    on a file that is a sequence of bytes with a position. */
module StatSave {
  import opened Bytes
  import opened Chunks
  import opened StatFormat

  /** What a write of data at position pos makes of a file. */
  function Overwrite(file: seq<byte>, pos: nat, data: seq<byte>): (r: seq<byte>)
    requires pos <= |file|
    ensures |r| >= |file| && |r| >= pos + |data|
  {
    file[..pos] + data + if pos + |data| < |file| then file[pos + |data|..] else []
  }

  /** SFFILEH_WRITE, SFFILEH_BLOCK, SFFILEH_ERROR */
  datatype Stat = Stat(write: bool, block: bool, error: bool)

  const WRITING := Stat(true, false, false)
  const ERROR := Stat(false, false, true)

  class Handle {
    var hdr: Header
    var pos: nat       // bytes of the section read or written so far
    var stat: Stat
    var secpos: nat    // where the section's header is
    var file: seq<byte>
    var fpos: nat      // the file position
    ghost var done: seq<Section>      // sections closed so far
    ghost var data: seq<byte>         // data of the open section

    // -------------------------------------------------------------- writing

    /** The section being written, if statflag_write has been called since statflag_createsection. */
    ghost function Current(): Section
      reads this
    {
      Section(hdr.index, hdr.ver, data)
    }

    ghost predicate Bounded()
      reads this
    {
      hdr.ver < WORD16 && |data| <= |file| <= MAXFILE && forall i :: 0 <= i < |done| ==> Storable(done[i])
    }

    /** Between sections: the file holds the finished sections and nothing else. */
    ghost predicate Between()
      reads this
    {
      && Bounded() && stat == WRITING && data == []
      && file == Image(done, |done|) && fpos == secpos == |file|
    }

    /** After statflag_createsection: a header is ready, but not yet written. */
    ghost predicate Opened()
      reads this
    {
      Between() && hdr.size == 0
    }

    /** Inside a section: its header still says size 0, its data follow. */
    ghost predicate Inside()
      reads this
    {
      && Bounded() && stat == Stat(true, true, false)
      && hdr.size == pos == |data| && secpos == |Image(done, |done|)| && |file| + 15 <= MAXFILE
      && file == Image(done, |done|) + Framed(Current(), 0, 0) && fpos == |file|
    }

    constructor ()
    {
      stat, secpos, file, fpos := ERROR, 0, [], 0;
      hdr, pos := Header(seq(10, i => 0), 0, 0), 0;
      done, data := [], [];
    }

    /** file_write, which always succeeds. */
    method FileWrite(bytes: seq<byte>)
      requires fpos <= |file|
      modifies this`file, this`fpos
      ensures file == Overwrite(old(file), old(fpos), bytes) && fpos == old(fpos) + |bytes|
    {
      file := Overwrite(file, fpos, bytes);
      fpos := fpos + |bytes|;
    }

    /** statflag_create */
    method Create()
      modifies this
      ensures Between() && done == [] && file == FileHeader()
    {
      hide FileHeader;
      file, fpos := [], 0;
      FileWrite(FileHeader());
      hdr, pos := Header(seq(10, i => 0), 0, 0), 0;
      stat, secpos := WRITING, 48;
      done, data := [], [];
      assert file == FileHeader() == Image(done, 0);
    }

    /** statflag_closesection while writing: pad the data, go back and write the header with its real
        size, and go to the end again. */
    method CloseWritten()
      requires Between() || Inside()
      modifies this
      ensures Between() && |file| <= old(|file|) + 15
      ensures done == if old(stat.block) then old(done) + [old(Current())] else old(done)
    {
      if stat == Stat(true, true, false) {
        FinishSection();
      }
    }

    method FinishSection()
      requires Inside()
      modifies this
      ensures Between() && done == old(done) + [old(Current())] && hdr == old(hdr) && |file| <= old(|file|) + 15
    {
      hide Image, SectionBytes, Padding, Framed;
      ghost var s := Current();
      PadAndPatch();
      ImageStep(done, s);
      PaddedLength(s);
      stat := WRITING;
      secpos := secpos + 16 + (hdr.size + 15) / 16 * 16;
      fpos := secpos;
      RoundedUp(hdr.size);
      done, data := done + [s], [];
    }

    method PadAndPatch()
      requires Inside()
      modifies this`file, this`fpos
      ensures file == Image(done, |done|) + SectionBytes(Current()) && |file| <= old(|file|) + 15
    {
      ghost var s, before := Current(), Image(done, |done|);
      var leng := Padding(hdr.size);
      hide Image, HeaderBytes, Padding, Framed, Overwrite;
      Appended(file, Fill<byte>(0, leng));
      if leng > 0 { FileWrite(Fill<byte>(0, leng)); }
      fpos := secpos;
      FileWrite(HeaderBytes(hdr));
      Patched(before, s, leng);
    }

    /** statflag_createsection */
    method CreateSection(index: Index, ver: nat)
      requires (Between() || Inside()) && ver < WORD16
      modifies this
      ensures Opened() && hdr.index == index && hdr.ver == ver && |file| <= old(|file|) + 15
      ensures done == if old(stat.block) then old(done) + [old(Current())] else old(done)
    {
      CloseWritten();
      hdr := Header(index, ver, 0);
    }

    /** statflag_write: the first call of a section writes a header to be patched later. */
    method Write(buf: seq<byte>)
      requires (Opened() || Inside()) && |file| + (if stat.block then 0 else 16) + |buf| + 15 <= MAXFILE
      modifies this
      ensures Inside() && done == old(done) && data == old(data) + buf
      ensures hdr.index == old(hdr.index) && hdr.ver == old(hdr.ver)
      ensures |file| == old(|file|) + (if old(stat.block) then 0 else 16) + |buf|
    {
      if !stat.block { BeginBlock(); }
      Append(buf);
    }

    method BeginBlock()
      requires Opened() && |file| + 31 <= MAXFILE
      modifies this
      ensures Inside() && done == old(done) && data == old(data) == [] && hdr == old(hdr) && |file| == old(|file|) + 16
    {
      hide Image, HeaderBytes;
      stat := Stat(true, true, false);
      pos := 0;
      Appended(file, HeaderBytes(hdr));
      FileWrite(HeaderBytes(hdr));
      assert file == Image(done, |done|) + Framed(Current(), 0, 0);
    }

    method Append(buf: seq<byte>)
      requires Inside() && |file| + |buf| + 15 <= MAXFILE
      modifies this
      ensures Inside() && done == old(done) && data == old(data) + buf && |file| == old(|file|) + |buf|
      ensures hdr.index == old(hdr.index) && hdr.ver == old(hdr.ver)
    {
      hide Image, HeaderBytes, Overwrite;
      Appended(file, buf);
      if |buf| > 0 {
        FileWrite(buf);
        pos := pos + |buf|;
        if hdr.size < pos {
          hdr := hdr.(size := pos);
        }
      }
      data := data + buf;
      assert file == Image(done, |done|) + Framed(Current(), 0, 0);
    }

    /** statflag_close after writing: the file is complete. */
    method CloseWriter()
      requires Between() || Inside()
      modifies this
      ensures (forall i :: 0 <= i < |done| ==> Storable(done[i])) && file == Image(done, |done|)
      ensures |file| <= old(|file|) + 15
      ensures done == if old(stat.block) then old(done) + [old(Current())] else old(done)
    {
      CloseWritten();
    }

    // -------------------------------------------------------------- reading

    /** Reading the file of secs, of which i section headers have been read: the handle knows where
        the next section begins, wherever in the current one the file position is. */
    ghost predicate Reading(secs: seq<Section>, i: nat)
      reads this
    {
      && i <= |secs| && (forall j :: 0 <= j < |secs| ==> Storable(secs[j]))
      && file == Image(secs, |secs|) && |file| < MAXFILE && !stat.write && !stat.error
      && (if stat.block
          then 0 < i && hdr == HeaderOf(secs[i - 1]) && secpos == |Image(secs, i - 1)| && pos <= hdr.size
          else i == 0 && secpos == fpos == 48)
    }

    /** The file position is where the next byte of the section is. */
    ghost predicate InStep()
      reads this
    {
      stat.block && fpos == secpos + 16 + pos
    }

    /** file_read, which reads what there is. */
    method FileRead(size: nat) returns (bytes: seq<byte>)
      modifies this`fpos
      ensures bytes == Available(file, old(fpos), size) && fpos == old(fpos) + |bytes|
    {
      bytes := Available(file, fpos, size);
      fpos := fpos + |bytes|;
    }

    /** statflag_open */
    method Open(bytes: seq<byte>) returns (ok: bool)
      modifies this
      ensures ok <==> |bytes| >= 48 && bytes[..48] == FileHeader()
      ensures ok ==> file == bytes && fpos == 48 == secpos && stat == Stat(false, false, false)
    {
      hide FileHeader;
      file, fpos := bytes, 0;
      var head := FileRead(48);
      ok := |head| == 48 && head == FileHeader();
      if ok {
        stat, secpos, pos := Stat(false, false, false), 48, 0;
      }
    }

    /** statflag_closesection while reading: on to the next section. */
    method CloseRead(ghost secs: seq<Section>, ghost i: nat)
      requires Reading(secs, i)
      modifies this
      ensures stat == Stat(false, false, false) && file == old(file) && fpos == secpos == |Image(secs, i)|
    {
      hide Image, SectionBytes, Padding;
      if stat.block {
        SectionStands(secs, i - 1);
        RoundedUp(hdr.size);
        stat := Stat(false, false, false);
        secpos := secpos + 16 + (hdr.size + 15) / 16 * 16;
        fpos := secpos;
      } else {
        FirstSection(secs);
      }
    }

    /** statflag_readsection: whatever prefix of the current section has been read, the next one is
        found, with its name, version and size; after the last one it fails. */
    method ReadSection(ghost secs: seq<Section>, ghost i: nat) returns (ok: bool)
      requires Reading(secs, i)
      modifies this
      ensures ok <==> i < |secs|
      ensures ok ==> Reading(secs, i + 1) && InStep() && pos == 0 && hdr == HeaderOf(secs[i])
      ensures !ok ==> stat == ERROR
    {
      hide Image, SectionBytes, Padding, HeaderBytes, ReadHeader, Available;
      CloseRead(secs, i);
      NextHeader(secs, i);
      var bytes := FileRead(16);
      if stat == Stat(false, false, false) && |bytes| == 16 {
        hdr := ReadHeader(bytes);
        stat := Stat(false, true, false);
        pos := 0;
        return true;
      }
      stat := ERROR;
      return false;
    }

    /** statflag_read: the next size bytes of the section, or failure if it has not that many. The
        check is made in 32 bits; a size that wraps it around finds the file too short instead. */
    method Read(size: nat, ghost secs: seq<Section>, ghost i: nat) returns (ok: bool, buf: seq<byte>)
      requires Reading(secs, i) && InStep() && size < WORD32
      modifies this`pos, this`fpos
      ensures Reading(secs, i) && (ok <==> old(pos) + size <= hdr.size)
      ensures ok ==> InStep() && pos == old(pos) + size && buf == secs[i - 1].data[old(pos)..pos]
      ensures !ok ==> pos == old(pos)
    {
      hide Image, Available, Stands, SectionBytes, Padding;
      SectionStands(secs, i - 1);
      ReadOutcome(file, secpos, secs[i - 1], pos, size);
      if (pos + size) % WORD32 > hdr.size { return false, []; }
      if size > 0 {
        buf := FileRead(size);
        if |buf| != size { return false, buf; }
        pos := pos + size;
      } else {
        buf := [];
      }
      return true, buf;
    }
  }

  /** A read that passes the 32-bit check finds all its bytes exactly when the section has them. */
  lemma ReadOutcome(file: seq<byte>, at: nat, s: Section, pos: nat, size: nat)
    requires Stands(file, at, s) && |file| < MAXFILE && pos <= |s.data| && size < WORD32
    ensures (pos + size) % WORD32 > |s.data| ==> pos + size > |s.data|
    ensures (pos + size) % WORD32 <= |s.data| ==>
      (|Available(file, at + 16 + pos, size)| == size <==> pos + size <= |s.data|)
    ensures pos + size <= |s.data| ==> Available(file, at + 16 + pos, size) == s.data[pos..pos + size]
  {
    if pos + size <= |s.data| {
      DataPart(file, at, s, pos, size);
    } else {
      Wrapped(pos, size, |s.data|);
      assert |Available(file, at + 16 + pos, size)| <= |file|;
    }
    hide Stands, Available;
  }

  lemma Wrapped(pos: nat, size: nat, n: nat)
    requires pos <= n < MAXFILE && pos + size > n && size < WORD32
    ensures (pos + size) % WORD32 <= n ==> size >= MAXFILE
  {
  }

  /** The bytes a read of that size finds. */
  function Available(file: seq<byte>, fpos: nat, size: nat): seq<byte>
  {
    if fpos + size <= |file| then file[fpos..fpos + size] else if fpos <= |file| then file[fpos..] else []
  }

  lemma HeaderAt(file: seq<byte>, at: nat, s: Section)
    requires Stands(file, at, s)
    ensures |Available(file, at, 16)| == 16 && ReadHeader(Available(file, at, 16)) == HeaderOf(s)
  {
    ReadHeaderBytes(HeaderOf(s));
    hide HeaderBytes, ReadHeader;
  }

  /** What is found where the next section should begin. */
  lemma NextHeader(secs: seq<Section>, i: nat)
    requires i <= |secs| && forall j :: 0 <= j < |secs| ==> Storable(secs[j])
    ensures |Available(Image(secs, |secs|), |Image(secs, i)|, 16)| == 16 <==> i < |secs|
    ensures i < |secs| ==> ReadHeader(Available(Image(secs, |secs|), |Image(secs, i)|, 16)) == HeaderOf(secs[i])
  {
    hide HeaderBytes, ReadHeader, Image, Stands;
    if i < |secs| {
      SectionStands(secs, i);
      HeaderAt(Image(secs, |secs|), |Image(secs, i)|, secs[i]);
    }
  }

  lemma FirstSection(secs: seq<Section>)
    ensures |Image(secs, 0)| == 48
  {
  }

  lemma DataPart(file: seq<byte>, at: nat, s: Section, pos: nat, size: nat)
    requires Stands(file, at, s) && pos + size <= |s.data|
    ensures at + 16 + pos + size <= |file| && file[at + 16 + pos..at + 16 + pos + size] == s.data[pos..pos + size]
  {
    hide HeaderBytes;
    SliceOfSlice(file, at + 16, at + 16 + |s.data|, pos, pos + size);
  }

  lemma SliceOfSlice(b: seq<byte>, lo: nat, hi: nat, i: nat, j: nat)
    requires lo <= hi <= |b| && i <= j <= hi - lo
    ensures b[lo..hi][i..j] == b[lo + i..lo + j]
  {
    var x, y := b[lo..hi][i..j], b[lo + i..lo + j];
    forall k | 0 <= k < j - i ensures x[k] == y[k] { assert x[k] == b[lo..hi][i + k]; }
  }

  lemma Appended(file: seq<byte>, data: seq<byte>)
    ensures Overwrite(file, |file|, data) == file + data && (data == [] ==> file + data == file)
  {
  }

  lemma PaddedLength(s: Section)
    requires Storable(s)
    ensures |SectionBytes(s)| == 16 + |s.data| + Padding(|s.data|)
  {
  }

  /** (size + 15) & ~15 */
  lemma RoundedUp(size: nat)
    ensures (size + 15) / 16 * 16 == size + Padding(size)
  {
  }

  /** Padding the open section and patching its header gives the finished one. */
  lemma Patched(before: seq<byte>, s: Section, leng: nat)
    requires Storable(s)
    ensures var file := before + Framed(s, 0, 0) + Fill<byte>(0, leng);
      Overwrite(file, |before|, HeaderBytes(HeaderOf(s))) == before + Framed(s, |s.data|, leng)
  {
  }
}
