/** Whole save files: what the writer puts into a file, in however many pieces, the reader gets out
    again, however much of each section it looks at. */
module StatRoundTrip {
  import opened Bytes
  import opened Chunks
  import opened StatFormat
  import opened StatSave

  /** What the caller does for one section: statflag_createsection, and a statflag_write a chunk. */
  datatype Plan = Plan(index: Index, ver: nat, chunks: seq<seq<byte>>)

  function Meant(p: Plan): Section { Section(p.index, p.ver, Flat(p.chunks, |p.chunks|)) }

  /** The sections of the file: those for which statflag_write was called at all. */
  function Written(plans: seq<Plan>, n: nat): (secs: seq<Section>)
    requires n <= |plans|
    ensures |secs| <= n
  {
    if n == 0 then [] else
      Written(plans, n - 1) + if plans[n - 1].chunks == [] then [] else [Meant(plans[n - 1])]
  }

  /** An upper bound of the file size. */
  function Cost(p: Plan): nat { 31 + |Flat(p.chunks, |p.chunks|)| }

  function Costs(plans: seq<Plan>, n: nat): nat
    requires n <= |plans|
  {
    if n == 0 then 48 else Costs(plans, n - 1) + Cost(plans[n - 1])
  }

  lemma {:induction false} CostsGrow(plans: seq<Plan>, n: nat, m: nat)
    requires n <= m <= |plans|
    ensures Costs(plans, n) <= Costs(plans, m)
  {
    if n < m { CostsGrow(plans, n, m - 1); }
  }

  /** The sections the file of a handle will hold when the open one is closed. */
  ghost function Pending(h: Handle): seq<Section>
    reads h
  {
    if h.stat.block then h.done + [h.Current()] else h.done
  }

  /** One section. */
  method SaveSection(h: Handle, p: Plan)
    requires (h.Between() || h.Inside()) && p.ver < WORD16 && |h.file| + Cost(p) + 15 <= MAXFILE
    modifies h
    ensures h.Between() || h.Inside()
    ensures Pending(h) == old(Pending(h)) + if p.chunks == [] then [] else [Meant(p)]
    ensures |h.file| <= old(|h.file|) + Cost(p)
  {
    hide Image;
    h.CreateSection(p.index, p.ver);
    ghost var secs, size := h.done, |h.file|;
    for i := 0 to |p.chunks|
      invariant if i == 0 then h.Opened() else h.Inside()
      invariant h.done == secs && h.data == Flat(p.chunks, i)
      invariant h.hdr.index == p.index && h.hdr.ver == p.ver
      invariant |h.file| == size + (if i == 0 then 0 else 16) + |Flat(p.chunks, i)|
    {
      FlatGrows(p.chunks, i + 1, |p.chunks|);
      h.Write(p.chunks[i]);
    }
  }

  /** A whole save. */
  method Save(plans: seq<Plan>) returns (file: seq<byte>)
    requires Costs(plans, |plans|) + 15 < MAXFILE && forall i :: 0 <= i < |plans| ==> plans[i].ver < WORD16
    ensures |file| < MAXFILE && forall i :: 0 <= i < |Written(plans, |plans|)| ==> Storable(Written(plans, |plans|)[i])
    ensures file == Image(Written(plans, |plans|), |Written(plans, |plans|)|)
  {
    var h := new Handle();
    h.Create();
    for i := 0 to |plans|
      invariant h.Between() || h.Inside()
      invariant Pending(h) == Written(plans, i) && |h.file| <= Costs(plans, i)
    {
      CostsGrow(plans, i + 1, |plans|);
      SaveSection(h, plans[i]);
    }
    h.CloseWriter();
    file := h.file;
  }

  /** What a reader that wants that many bytes of a section gets: them, or nothing if there are fewer. */
  function Prefix(s: Section, want: nat): seq<byte>
  {
    if want <= |s.data| then s.data[..want] else []
  }

  datatype Loaded = Loaded(hdr: Header, bytes: seq<byte>)

  method OpenImage(h: Handle, file: seq<byte>, ghost secs: seq<Section>) returns (ok: bool)
    requires forall i :: 0 <= i < |secs| ==> Storable(secs[i])
    requires file == Image(secs, |secs|) && |file| < MAXFILE
    modifies h
    ensures ok && h.Reading(secs, 0)
  {
    ImagePrefix(secs, 0, |secs|);
    ok := h.Open(file);
  }

  method LoadSection(h: Handle, want: nat, ghost secs: seq<Section>, ghost i: nat) returns (one: Loaded)
    requires i < |secs| && h.Reading(secs, i + 1) && h.InStep() && h.pos == 0 && h.hdr == HeaderOf(secs[i])
    requires want < WORD32
    modifies h`pos, h`fpos
    ensures h.Reading(secs, i + 1) && one == Loaded(HeaderOf(secs[i]), Prefix(secs[i], want))
  {
    hide Image;
    var found, bytes := h.Read(want, secs, i + 1);
    one := Loaded(h.hdr, if found then bytes else []);
  }

  /** A whole load that takes the first wants[i] bytes of the i-th section, and none of the others. */
  method Load(file: seq<byte>, wants: seq<nat>, ghost secs: seq<Section>) returns (ok: bool, got: seq<Loaded>)
    requires forall i :: 0 <= i < |secs| ==> Storable(secs[i])
    requires file == Image(secs, |secs|) && |file| < MAXFILE && forall i :: 0 <= i < |wants| ==> wants[i] < WORD32
    ensures ok && |got| == |secs|
    ensures forall i :: 0 <= i < |secs| ==>
      got[i] == Loaded(HeaderOf(secs[i]), Prefix(secs[i], if i < |wants| then wants[i] else 0))
  {
    hide Image;
    got := [];
    var h := new Handle();
    ok := OpenImage(h, file, secs);
    var more := h.ReadSection(secs, 0);
    while more
      invariant |got| <= |secs| && (more <==> |got| < |secs|)
      invariant more ==> h.Reading(secs, |got| + 1) && h.InStep() && h.pos == 0 && h.hdr == HeaderOf(secs[|got|])
      invariant forall i :: 0 <= i < |got| ==>
        got[i] == Loaded(HeaderOf(secs[i]), Prefix(secs[i], if i < |wants| then wants[i] else 0))
      decreases |secs| - |got|
    {
      var one := LoadSection(h, if |got| < |wants| then wants[|got|] else 0, secs, |got|);
      got := got + [one];
      more := h.ReadSection(secs, |got|);
    }
  }

  /** The round trip: whatever sections are saved, in whatever pieces, come back with the same names,
      versions, sizes and bytes, in order, whatever prefix of each is read before going on; sections
      for which nothing was written are absent. */
  method SaveAndLoad(plans: seq<Plan>, wants: seq<nat>) returns (ok: bool, got: seq<Loaded>)
    requires Costs(plans, |plans|) + 15 < MAXFILE && forall i :: 0 <= i < |plans| ==> plans[i].ver < WORD16
    requires forall i :: 0 <= i < |wants| ==> wants[i] < WORD32
    ensures var secs := Written(plans, |plans|);
      ok && |got| == |secs| && forall i :: 0 <= i < |secs| ==>
        got[i] == Loaded(HeaderOf(secs[i]), Prefix(secs[i], if i < |wants| then wants[i] else 0))
  {
    var file := Save(plans);
    ok, got := Load(file, wants, Written(plans, |plans|));
  }
}
