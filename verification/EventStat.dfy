/** Saving and loading the scheduler: statsave.c's event section, written through statflag_write and
    read back through statflag_read into the scheduler's own arrays. */
module EventStat {
  import opened Bytes
  import opened Chunks
  import opened EventQueue
  import opened EventSave
  import opened Scheduler
  import opened StatFormat
  import opened StatSave
  import opened StatRoundTrip

  /** The search loops of proc2num and nevent_write. */
  method SearchWhat<T(==)>(rows: seq<Row<T>>, what: T) returns (id: nat)
    ensures id == NumberOf(rows, what)
  {
    var i := 0;
    while i < |rows|
      invariant i <= |rows| && FindWhat(rows, what, 0) == FindWhat(rows, what, i)
    {
      if rows[i].what == what { return rows[i].id; }
      i := i + 1;
    }
    return 0;
  }

  /** The search loops of num2proc and nevent_read. */
  method SearchId<T>(rows: seq<Row<T>>, id: nat) returns (k: nat)
    ensures k == FindId(rows, id, 0)
  {
    k := 0;
    while k < |rows| && rows[k].id != id
      invariant k <= |rows| && FindId(rows, id, 0) == FindId(rows, id, k)
    {
      k := k + 1;
    }
  }

  // ---------------------------------------------------------------- saving

  ghost predicate Saveable(t: Tables, s: State)
  {
    && Sound(t) && |s.item| == MAXEVENTS && |s.level| <= MAXEVENTS && |s.waiting| <= MAXEVENTS
    && forall x: EventId :: Sint32(s.item[x].clock)
  }

  ghost function Ready(t: Tables, s: State): (r: seq<Record>)
    requires |s.item| == MAXEVENTS
    ensures |r| == |s.level|
  {
    RecordsOf(t, s.item, s.level)
  }

  ghost function Waiting(t: Tables, s: State): (r: seq<Record>)
    requires |s.item| == MAXEVENTS
    ensures |r| == |s.waiting|
  {
    RecordsOf(t, s.item, s.waiting)
  }

  lemma OwnRecordFits(t: Tables, x: Item, num: EventId)
    requires Sound(t) && Sint32(x.clock)
    ensures RecordFits(RecordOf(t, x, num))
  {
    NumberFindsBack(t.nums, num);
    NumberFindsBack(t.procs, x.proc);
  }

  lemma RecordsFit(t: Tables, s: State)
    requires Saveable(t, s)
    ensures forall i :: 0 <= i < |Ready(t, s) + Waiting(t, s)| ==> RecordFits((Ready(t, s) + Waiting(t, s))[i])
  {
    hide Sound, RecordFits, RecordOf;
    forall i | 0 <= i < |Ready(t, s) + Waiting(t, s)| ensures RecordFits((Ready(t, s) + Waiting(t, s))[i]) {
      var num := if i < |s.level| then s.level[i] else s.waiting[i - |s.level|];
      OwnRecordFits(t, s.item[num], num);
    }
  }

  /** The data of the event section of a scheduler. */
  ghost function EventData(t: Tables, s: State): (b: seq<byte>)
    requires Saveable(t, s)
    ensures |b| == 8 + 16 * (|s.level| + |s.waiting|)
  {
    RecordsFit(t, s);
    SectionData(Ready(t, s), Waiting(t, s))
  }

  /** nevent_write */
  method NeventWrite(h: Handle, q: Nevent, t: Tables, num: EventId)
    requires h.Inside() && |h.file| + 31 <= MAXFILE && q.Valid() && Saveable(t, q.View())
    modifies h
    ensures RecordFits(RecordOf(t, q.item[num], num))
    ensures h.Inside() && h.done == old(h.done) && h.data == old(h.data) + RecordBytes(RecordOf(t, q.item[num], num))
    ensures h.hdr.index == old(h.hdr.index) && h.hdr.ver == old(h.hdr.ver) && |h.file| == old(|h.file|) + 16
  {
    hide RecordBytes, Image, Sound;
    var x := q.item[num];
    OwnRecordFits(t, x, num);
    var id := SearchWhat(t.nums, num);
    var proc := SearchWhat(t.procs, x.proc);
    h.Write(RecordBytes(Record(id, x.clock, x.enable, x.setEvent, x.wait, proc)));
  }

  /** The records of a list of events stand among others, from the n-th on. */
  ghost predicate Stretch(t: Tables, item: seq<Item>, ids: seq<EventId>, all: seq<Record>, n: nat)
    requires |item| == MAXEVENTS
  {
    n + |ids| <= |all| && forall i :: 0 <= i < |ids| ==> all[n + i] == RecordOf(t, item[ids[i]], ids[i])
  }

  lemma Stretches(t: Tables, s: State)
    requires |s.item| == MAXEVENTS
    ensures Stretch(t, s.item, s.level, Ready(t, s) + Waiting(t, s), 0)
    ensures Stretch(t, s.item, s.waiting, Ready(t, s) + Waiting(t, s), |s.level|)
  {
    hide RecordOf;
  }

  /** One of the loops of flagsave_evt: the records of a list, which come after n others. */
  method WriteList(h: Handle, q: Nevent, t: Tables, list: array<EventId>, count: nat,
                   ghost head: seq<byte>, ghost all: seq<Record>, ghost n: nat)
    requires h.Inside() && q.Valid() && Saveable(t, q.View()) && count <= list.Length && n + count <= |all|
    requires |h.file| + 15 + 16 * count <= MAXFILE
    requires forall i :: 0 <= i < |all| ==> RecordFits(all[i])
    requires Stretch(t, q.item[..], list[..count], all, n)
    requires h.data == head + Packed(all, n)
    modifies h
    ensures h.Inside() && h.done == old(h.done) && h.data == head + Packed(all, n + count)
    ensures h.hdr.index == old(h.hdr.index) && h.hdr.ver == old(h.hdr.ver) && |h.file| == old(|h.file|) + 16 * count
  {
    hide Image, RecordBytes, RecordFits, RecordOf, Sound, Saveable, Distinct;
    for i := 0 to count
      invariant h.Inside() && h.done == old(h.done) && h.data == head + Packed(all, n + i)
      invariant h.hdr.index == old(h.hdr.index) && h.hdr.ver == old(h.hdr.ver)
      invariant |h.file| == old(|h.file|) + 16 * i
    {
      NeventWrite(h, q, t, list[i]);
      JoinAgain(head, Packed(all, n + i), RecordBytes(all[n + i]));
    }
  }

  /** flagsave_evt */
  method FlagSaveEvt(h: Handle, q: Nevent, t: Tables)
    requires h.Opened() && q.Valid() && Saveable(t, q.View())
    requires |h.file| + 39 + 16 * (q.readyevents + q.waitevents) <= MAXFILE
    modifies h
    ensures h.Inside() && h.done == old(h.done) && h.data == EventData(t, q.View())
    ensures h.hdr.index == old(h.hdr.index) && h.hdr.ver == old(h.hdr.ver)
  {
    ghost var s := q.View();
    ghost var all := Ready(t, s) + Waiting(t, s);
    RecordsFit(t, s);
    Stretches(t, s);
    hide Image, RecordBytes, RecordFits, RecordOf, Sound, Le32, Distinct, Saveable, Ready, Waiting, Stretch;
    var head := Le32(q.readyevents) + Le32(q.waitevents);
    h.Write(head);
    WriteLists(h, q, t, head, all);
  }

  method WriteLists(h: Handle, q: Nevent, t: Tables, ghost head: seq<byte>, ghost all: seq<Record>)
    requires h.Inside() && q.Valid() && Saveable(t, q.View()) && |all| == q.readyevents + q.waitevents
    requires |h.file| + 15 + 16 * |all| <= MAXFILE && h.data == head
    requires forall i :: 0 <= i < |all| ==> RecordFits(all[i])
    requires Stretch(t, q.item[..], q.level[..q.readyevents], all, 0)
    requires Stretch(t, q.item[..], q.waitevent[..q.waitevents], all, q.readyevents)
    modifies h
    ensures h.Inside() && h.done == old(h.done) && h.data == head + Packed(all, |all|)
    ensures h.hdr.index == old(h.hdr.index) && h.hdr.ver == old(h.hdr.ver)
  {
    hide Image, RecordBytes, RecordFits, RecordOf, Sound, Distinct, Saveable, Stretch;
    assert head + Packed(all, 0) == head;
    WriteList(h, q, t, q.level, q.readyevents, head, all, 0);
    WriteList(h, q, t, q.waitevent, q.waitevents, head, all, q.readyevents);
  }

  // ---------------------------------------------------------------- loading

  /** The next bytes of section i - 1 are those of record r. */
  ghost predicate NextIs(h: Handle, secs: seq<Section>, i: nat, r: Record)
    reads h
  {
    && h.Reading(secs, i) && h.InStep() && RecordFits(r)
    && h.pos + 16 <= h.hdr.size && secs[i - 1].data[h.pos..h.pos + 16] == RecordBytes(r)
  }

  /** nevent_read: the item goes into place, the event to the end of the list; or a warning. */
  method NeventRead(h: Handle, t: Tables, item: array<Item>, list: array<EventId>, pos: nat,
                    ghost secs: seq<Section>, ghost i: nat, ghost r: Record)
    returns (end: nat, warning: bool)
    requires NextIs(h, secs, i, r) && item.Length == MAXEVENTS && pos < list.Length
    modifies h`pos, h`fpos, item, list
    ensures h.Reading(secs, i) && h.InStep() && h.pos == old(h.pos) + 16
    ensures end <= list.Length && list[pos + 1..] == old(list[pos + 1..])
    ensures Partial(item[..], list[..end]) == Receive(t, Partial(old(item[..]), old(list[..pos])), r)
    ensures end == if warning then pos else pos + 1
  {
    hide Image, RecordBytes, ReadRecord, RecordFits;
    var ok, bytes := h.Read(16, secs, i);
    ReadRecordBytes(r);
    var nit := ReadRecord(bytes);
    end, warning := pos, true;
    var k := SearchId(t.nums, nit.id);
    if k < |t.nums| {
      end, warning := Store(t, item, list, pos, t.nums[k].what, nit);
    }
  }

  ghost function Arrived(t: Tables, r: Record): Item
  {
    var c := FindId(t.procs, r.proc, 0);
    Item(r.clock, r.enable, r.setEvent, r.wait,
         if c < |t.procs| then t.procs[c].what else if r.proc == 0 then NoProc else Proc(r.proc))
  }

  method Store(t: Tables, item: array<Item>, list: array<EventId>, pos: nat, num: EventId, nit: Record)
    returns (end: nat, warning: bool)
    requires item.Length == MAXEVENTS && pos < list.Length
    modifies item, list
    ensures end == if warning then pos else pos + 1
    ensures list[..pos] == old(list[..pos]) && list[pos + 1..] == old(list[pos + 1..])
    ensures !warning ==> list[pos] == num
    ensures warning <==> FindId(t.procs, nit.proc, 0) == |t.procs|
    ensures item[..] == old(item[..])[num := Arrived(t, nit)]
  {
    item[num] := Item(nit.clock, nit.enable, nit.setEvent, nit.wait, if nit.proc == 0 then NoProc else Proc(nit.proc));
    end, warning := pos, false;
    var c := SearchId(t.procs, nit.proc);
    if c == |t.procs| {
      warning := true;
    } else {
      item[num] := item[num].(proc := t.procs[c].what);
      list[end] := num;
      end := end + 1;
    }
  }

  /** The records follow the two counts in the data of the section. */
  ghost predicate Holds(data: seq<byte>, all: seq<Record>)
  {
    |data| == 8 + 16 * |all| && forall k :: 0 <= k < |all| ==>
      (RecordFits(all[k]) && data[8 + 16 * k..8 + 16 * k + 16] == RecordBytes(all[k]))
  }

  lemma Behind(a: seq<byte>, b: seq<byte>, i: nat, j: nat)
    requires |a| == 8 && i <= j <= |b|
    ensures (a + b)[8 + i..8 + j] == b[i..j]
  {
  }

  lemma SectionHolds(ready: seq<Record>, waiting: seq<Record>)
    requires |ready| < WORD32 && |waiting| < WORD32
    requires forall i :: 0 <= i < |ready + waiting| ==> RecordFits((ready + waiting)[i])
    ensures Holds(SectionData(ready, waiting), ready + waiting)
  {
    hide Packed, RecordBytes, RecordFits, Le32;
    var all := ready + waiting;
    forall k | 0 <= k < |all|
      ensures SectionData(ready, waiting)[8 + 16 * k..8 + 16 * k + 16] == RecordBytes(all[k])
    {
      PackedAt(all, |all|, k);
      Behind(Le32(|ready|) + Le32(|waiting|), Packed(all, |all|), 16 * k, 16 * k + 16);
    }
  }

  lemma SectionCounts(ready: seq<Record>, waiting: seq<Record>)
    requires |ready| < WORD32 && |waiting| < WORD32
    requires forall i :: 0 <= i < |ready + waiting| ==> RecordFits((ready + waiting)[i])
    ensures var data := SectionData(ready, waiting);
      |data| >= 8 && Read32(data[..8][..4]) == |ready| && Read32(data[..8][4..]) == |waiting|
  {
    ReadLe32(|ready|);
    ReadLe32(|waiting|);
    hide Packed, RecordFits, Le32, Read32;
    var data := SectionData(ready, waiting);
    assert data[..8][..4] == Le32(|ready|) && data[..8][4..] == Le32(|waiting|);
  }

  /** One of the loops of flagload_evt: count records from the n-th on fill one list. */
  method ReadList(h: Handle, t: Tables, item: array<Item>, list: array<EventId>, count: nat,
                  ghost secs: seq<Section>, ghost i: nat, ghost all: seq<Record>, ghost n: nat)
    returns (end: nat, warning: bool)
    requires h.Reading(secs, i) && h.InStep() && Holds(secs[i - 1].data, all) && h.pos == 8 + 16 * n
    requires item.Length == MAXEVENTS && n + count <= |all| && count <= list.Length
    modifies h`pos, h`fpos, item, list
    ensures h.Reading(secs, i) && h.InStep() && h.pos == 8 + 16 * (n + count) && end <= list.Length
    ensures Partial(item[..], list[..end]) == ReceiveAll(t, Partial(old(item[..]), []), all[n..n + count], count)
    ensures warning <==> end < count
  {
    hide Image, RecordBytes, RecordFits, Receive;
    end, warning := 0, false;
    ghost var p := Partial(item[..], []);
    for k := 0 to count
      invariant h.Reading(secs, i) && h.InStep() && h.pos == 8 + 16 * (n + k)
      invariant end <= k && (warning <==> end < k)
      invariant Partial(item[..], list[..end]) == ReceiveAll(t, p, all[n..n + count], k)
    {
      var missing;
      end, missing := NeventRead(h, t, item, list, end, secs, i, all[n + k]);
      warning := warning || missing;
    }
  }

  /** Both loops of flagload_evt. */
  method ReadLists(h: Handle, q: Nevent, t: Tables, ghost secs: seq<Section>, ghost i: nat,
                   ghost ready: seq<Record>, ghost waiting: seq<Record>, m: nat, n: nat)
    returns (warning: bool)
    requires h.Reading(secs, i) && h.InStep() && h.pos == 8 && Holds(secs[i - 1].data, ready + waiting)
    requires m == |ready| <= MAXEVENTS && n == |waiting| <= MAXEVENTS
    requires q.level.Length == q.waitevent.Length == q.item.Length == MAXEVENTS && q.level != q.waitevent
    modifies h`pos, h`fpos, q`readyevents, q`waitevents, q.level, q.waitevent, q.item
    ensures h.Reading(secs, i) && h.InStep() && q.readyevents <= m && q.waitevents <= n
    ensures var a := ReceiveAll(t, Partial(old(q.item[..]), []), ready, m);
      q.level[..q.readyevents] == a.list &&
      Partial(q.item[..], q.waitevent[..q.waitevents]) == ReceiveAll(t, Partial(a.item, []), waiting, n)
    ensures warning <==> q.readyevents < m || q.waitevents < n
  {
    hide Image, RecordBytes, RecordFits, Receive, ReceiveAll, Holds;
    ghost var all := ready + waiting;
    assert all[0..m] == ready && all[m..m + n] == waiting;
    var missing;
    q.readyevents, warning := ReadList(h, t, q.item, q.level, m, secs, i, all, 0);
    q.waitevents, missing := ReadList(h, t, q.item, q.waitevent, n, secs, i, all, m);
    warning := warning || missing;
  }

  /** The two counts at the beginning of the section. */
  method ReadCounts(h: Handle, ghost secs: seq<Section>, ghost i: nat,
                    ghost ready: seq<Record>, ghost waiting: seq<Record>)
    returns (m: nat, n: nat)
    requires h.Reading(secs, i) && h.InStep() && h.pos == 0 && |ready| < WORD32 && |waiting| < WORD32
    requires forall k :: 0 <= k < |ready + waiting| ==> RecordFits((ready + waiting)[k])
    requires secs[i - 1].data == SectionData(ready, waiting)
    modifies h`pos, h`fpos
    ensures h.Reading(secs, i) && h.InStep() && h.pos == 8 && m == |ready| && n == |waiting|
  {
    SectionCounts(ready, waiting);
    hide Image, RecordFits, SectionData, Read32;
    var found, nevt := h.Read(8, secs, i);
    m, n := Read32(nevt[..4]), Read32(nevt[4..]);
  }

  /** flagload_evt on a section that holds the records ready and waiting. It warns exactly when an event
      did not find its place. */
  method FlagLoadEvt(h: Handle, q: Nevent, t: Tables, ghost secs: seq<Section>, ghost i: nat,
                     ghost ready: seq<Record>, ghost waiting: seq<Record>)
    returns (warning: bool)
    requires h.Reading(secs, i) && h.InStep() && h.pos == 0 && q.Valid()
    requires |ready| <= MAXEVENTS && |waiting| <= MAXEVENTS
    requires forall k :: 0 <= k < |ready + waiting| ==> RecordFits((ready + waiting)[k])
    requires secs[i - 1].data == SectionData(ready, waiting)
    modifies h`pos, h`fpos, q`readyevents, q`waitevents, q.level, q.waitevent, q.item
    ensures h.Reading(secs, i) && h.InStep()
    ensures Distinct(Reload(t, old(q.View()), ready, waiting).level) ==>
      (q.Valid() && q.View() == Reload(t, old(q.View()), ready, waiting))
    ensures q.readyevents == |Reload(t, old(q.View()), ready, waiting).level|
    ensures q.waitevents == |Reload(t, old(q.View()), ready, waiting).waiting|
    ensures warning <==> (q.readyevents < |ready| || q.waitevents < |waiting|)
  {
    SectionHolds(ready, waiting);
    hide Image, RecordBytes, RecordFits, ReceiveAll, Holds, SectionData, Distinct;
    q.readyevents, q.waitevents := 0, 0;
    var m, n := ReadCounts(h, secs, i, ready, waiting);
    warning := ReadLists(h, q, t, secs, i, ready, waiting, m, n);
  }

  // ---------------------------------------------------------------- there and back

  /** The event section of a save file, in its place behind the file header. */
  ghost function EventSection(t: Tables, s: State, index: Index): Section
    requires Saveable(t, s)
  {
    Section(index, 0, EventData(t, s))
  }

  /** A save file with just the event section. */
  method Snapshot(q: Nevent, t: Tables, index: Index) returns (file: seq<byte>)
    requires q.Valid() && Saveable(t, q.View())
    ensures Storable(EventSection(t, q.View(), index)) && |file| < MAXFILE
    ensures file == Image([EventSection(t, q.View(), index)], 1)
  {
    hide Image, RecordFits, Sound, EventData, Distinct;
    var h := new Handle();
    h.Create();
    h.CreateSection(index, 0);
    FlagSaveEvt(h, q, t);
    assert h.Current() == EventSection(t, q.View(), index);
    h.CloseWriter();
    assert h.done == [EventSection(t, q.View(), index)];
    file := h.file;
  }

  /** Loading such a file. */
  method Restore(p: Nevent, t: Tables, file: seq<byte>, ghost saved: State, ghost index: Index) returns (warning: bool)
    requires p.Valid() && Saveable(t, saved) && Storable(EventSection(t, saved, index)) && |file| < MAXFILE
    requires file == Image([EventSection(t, saved, index)], 1)
    modifies p`readyevents, p`waitevents, p.level, p.waitevent, p.item
    ensures Distinct(SaveAndReload(t, saved, old(p.View())).level) ==>
      (p.Valid() && p.View() == SaveAndReload(t, saved, old(p.View())))
    ensures p.readyevents == |SaveAndReload(t, saved, old(p.View())).level|
    ensures p.waitevents == |SaveAndReload(t, saved, old(p.View())).waiting|
    ensures warning <==> (p.readyevents < |saved.level| || p.waitevents < |saved.waiting|)
  {
    ghost var secs := [EventSection(t, saved, index)];
    RecordsFit(t, saved);
    hide Image, RecordFits, Sound, Distinct, SectionData, Reload;
    var h := new Handle();
    var ok := OpenImage(h, file, secs);
    ok := h.ReadSection(secs, 0);
    warning := FlagLoadEvt(h, p, t, secs, 1, Ready(t, saved), Waiting(t, saved));
  }

  /** Saving one scheduler and loading the file into another: the other takes over the events that are
      in the tables, is fit to go on, and warns exactly when there are events that are not. */
  method Transfer(q: Nevent, p: Nevent, t: Tables, index: Index) returns (warning: bool)
    requires q.Valid() && p.Valid() && Saveable(t, q.View()) && Idle(q.View()) && Idle(p.View())
    modifies p`readyevents, p`waitevents, p.level, p.waitevent, p.item
    ensures p.Valid() && p.View() == SaveAndReload(t, old(q.View()), old(p.View()))
    ensures Idle(WithCounters(p.View(), old(q.View())))
    ensures warning <==>
      exists k :: 0 <= k < |old(q.View()).level| && !Known(t, old(q.View()).item, old(q.View()).level[k])
  {
    ghost var saved, s := q.View(), p.View();
    ReloadKeepsIdle(t, saved, s);
    ReloadedLists(t, saved, s);
    KeepsAll(t, saved.item, saved.level, |saved.level|);
    hide Image, Sound, SaveAndReload, Known, Keep, Saveable, Sorted;
    var file := Snapshot(q, t, index);
    warning := Restore(p, t, file, saved, index);
  }
}
