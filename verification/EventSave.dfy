/** The event section of statsave.c on values: how the scheduler's two lists are stored as records
    with table numbers instead of event numbers and callback addresses, and reloaded. */
module EventSave {
  import opened Bytes
  import opened Chunks
  import EventDispatch
  import opened CInt
  import opened EventQueue

  /** A row of evtnum or evtproc: a four-letter number and what it stands for. */
  datatype Row<T> = Row(id: nat, what: T)

  datatype Tables = Tables(nums: seq<Row<EventId>>, procs: seq<Row<Proc>>)

  /** statsave.tbl: the numbers of a table are distinct, positive and fit in 32 bits. */
  ghost predicate Injective<T>(rows: seq<Row<T>>)
  {
    && (forall i :: 0 <= i < |rows| ==> 0 < rows[i].id < WORD32)
    && forall i, j :: 0 <= i < j < |rows| ==> rows[i].id != rows[j].id
  }

  ghost predicate Sound(t: Tables)
  {
    Injective(t.nums) && Injective(t.procs) && forall i :: 0 <= i < |t.procs| ==> t.procs[i].what != NoProc
  }

  function FindId<T>(rows: seq<Row<T>>, id: nat, i: nat): (k: nat)
    requires i <= |rows|
    ensures i <= k <= |rows|
    ensures k < |rows| ==> rows[k].id == id
    ensures forall j :: i <= j < k ==> rows[j].id != id
    decreases |rows| - i
  {
    if i == |rows| || rows[i].id == id then i else FindId(rows, id, i + 1)
  }

  function FindWhat<T(==)>(rows: seq<Row<T>>, what: T, i: nat): (k: nat)
    requires i <= |rows|
    ensures i <= k <= |rows|
    ensures k < |rows| ==> rows[k].what == what
    ensures forall j :: i <= j < k ==> rows[j].what != what
    decreases |rows| - i
  {
    if i == |rows| || rows[i].what == what then i else FindWhat(rows, what, i + 1)
  }

  /** The number of a thing; 0 if the table does not have it. */
  function NumberOf<T(==)>(rows: seq<Row<T>>, what: T): nat
  {
    var k := FindWhat(rows, what, 0);
    if k < |rows| then rows[k].id else 0
  }

  predicate Has<T(==)>(rows: seq<Row<T>>, what: T)
  {
    FindWhat(rows, what, 0) < |rows|
  }

  /** Looking the number of a thing up again finds the thing, and no number is found for others. */
  lemma NumberFindsBack<T>(rows: seq<Row<T>>, what: T)
    requires Injective(rows)
    ensures NumberOf(rows, what) < WORD32
    ensures var k := FindId(rows, NumberOf(rows, what), 0);
      if Has(rows, what) then k < |rows| && rows[k].what == what else k == |rows|
  {
    var p, k := FindWhat(rows, what, 0), FindId(rows, NumberOf(rows, what), 0);
    assert p < |rows| ==> k <= p;
  }

  /** NEVTITEM */
  datatype Record = Record(id: nat, clock: int, enable: bool, setEvent: bool, wait: bool, proc: nat)

  predicate Sint32(x: int) { -0x8000_0000 <= x < 0x8000_0000 }

  predicate RecordFits(r: Record) { r.id < WORD32 && Sint32(r.clock) && r.proc < WORD32 }

  function Flag(r: Record): nat
  {
    (if r.enable then 1 else 0) + (if r.setEvent then 2 else 0) + if r.wait then 4 else 0
  }

  function RecordBytes(r: Record): (b: seq<byte>)
    requires RecordFits(r)
    ensures |b| == 16
  {
    Le32(r.id) + Le32(r.clock % WORD32) + Le32(Flag(r)) + Le32(r.proc)
  }

  function ReadRecord(b: seq<byte>): Record
    requires |b| == 16
  {
    var flag := Read32(b[8..12]);
    Record(Read32(b[..4]), ToSint32(Read32(b[4..8])), flag % 2 == 1, flag / 2 % 2 == 1, flag / 4 % 2 == 1,
           Read32(b[12..]))
  }

  lemma Sint32Back(x: int)
    requires Sint32(x)
    ensures ToSint32(x % WORD32) == x
  {
  }

  lemma FlagBack(r: Record)
    ensures var f := Flag(r); (f % 2 == 1) == r.enable && (f / 2 % 2 == 1) == r.setEvent && (f / 4 % 2 == 1) == r.wait
  {
  }

  lemma ReadRecordBytes(r: Record)
    requires RecordFits(r)
    ensures ReadRecord(RecordBytes(r)) == r
  {
    ReadLe32(r.id);
    ReadLe32(r.clock % WORD32);
    ReadLe32(Flag(r));
    ReadLe32(r.proc);
    Sint32Back(r.clock);
    FlagBack(r);
    hide Le32, Read32, ToSint32, Flag;
    var b := RecordBytes(r);
    assert b[..4] == Le32(r.id) && b[4..8] == Le32(r.clock % WORD32);
    assert b[8..12] == Le32(Flag(r)) && b[12..] == Le32(r.proc);
  }

  /** The layout of a record: four words with the lowest byte first, the clock in two's complement, the flags in
      the three lowest bits. */
  lemma RecordLayout(r: Record)
    requires RecordFits(r)
    ensures var b := RecordBytes(r);
      && LowFirst(b[..4]) == r.id && LowFirst(b[12..]) == r.proc
      && LowFirst(b[4..8]) == (if r.clock < 0 then r.clock + 0x1_0000_0000 else r.clock)
      && LowFirst(b[8..12]) == (if r.enable then 1 else 0) + (if r.setEvent then 2 else 0) + if r.wait then 4 else 0
  {
    Le32IsLowFirst(r.id);
    Le32IsLowFirst(r.clock % WORD32);
    Le32IsLowFirst(Flag(r));
    Le32IsLowFirst(r.proc);
    hide Le32, LowFirst;
    var b := RecordBytes(r);
    assert b[..4] == Le32(r.id) && b[4..8] == Le32(r.clock % WORD32);
    assert b[8..12] == Le32(Flag(r)) && b[12..] == Le32(r.proc);
  }

  // ---------------------------------------------------------------- saving

  /** nevent_write */
  function RecordOf(t: Tables, x: Item, num: EventId): Record
  {
    Record(NumberOf(t.nums, num), x.clock, x.enable, x.setEvent, x.wait, NumberOf(t.procs, x.proc))
  }

  /** The records of a list of events. */
  function RecordsOf(t: Tables, item: seq<Item>, ids: seq<EventId>): (r: seq<Record>)
    requires |item| == MAXEVENTS
    ensures |r| == |ids|
  {
    seq(|ids|, i requires 0 <= i < |ids| => RecordOf(t, item[ids[i]], ids[i]))
  }

  // ---------------------------------------------------------------- loading

  /** The items and one list of the scheduler while records are read. */
  datatype Partial = Partial(item: seq<Item>, list: seq<EventId>)

  /** nevent_read: an event without a number is skipped; one without a callback gets its item but
      not its place in the list. */
  function Receive(t: Tables, p: Partial, r: Record): (q: Partial)
    requires |p.item| == MAXEVENTS
    ensures |q.item| == MAXEVENTS && |p.list| <= |q.list| <= |p.list| + 1
  {
    var k, c := FindId(t.nums, r.id, 0), FindId(t.procs, r.proc, 0);
    if k == |t.nums| then p else
      var num := t.nums[k].what;
      if c == |t.procs| then
        var proc := if r.proc == 0 then NoProc else Proc(r.proc);
        p.(item := p.item[num := Item(r.clock, r.enable, r.setEvent, r.wait, proc)])
      else
        Partial(p.item[num := Item(r.clock, r.enable, r.setEvent, r.wait, t.procs[c].what)], p.list + [num])
  }

  function ReceiveAll(t: Tables, p: Partial, records: seq<Record>, n: nat): (q: Partial)
    requires |p.item| == MAXEVENTS && n <= |records|
    ensures |q.item| == MAXEVENTS && |q.list| <= |p.list| + n
  {
    if n == 0 then p else Receive(t, ReceiveAll(t, p, records, n - 1), records[n - 1])
  }

  /** flagload_evt, reading what flagsave_evt wrote of the records of both lists, into scheduler s. */
  function Reload(t: Tables, s: State, ready: seq<Record>, waiting: seq<Record>): (r: State)
    requires |s.item| == MAXEVENTS
    ensures |r.item| == MAXEVENTS
  {
    var a := ReceiveAll(t, Partial(s.item, []), ready, |ready|);
    var b := ReceiveAll(t, Partial(a.item, []), waiting, |waiting|);
    s.(item := b.item, level := a.list, waiting := b.list)
  }

  function SaveAndReload(t: Tables, saved: State, s: State): (r: State)
    requires |saved.item| == |s.item| == MAXEVENTS
    ensures |r.item| == MAXEVENTS
  {
    Reload(t, s, RecordsOf(t, saved.item, saved.level), RecordsOf(t, saved.item, saved.waiting))
  }

  // ---------------------------------------------------------------- what comes back

  predicate Known(t: Tables, item: seq<Item>, id: EventId)
    requires |item| == MAXEVENTS
  {
    Has(t.nums, id) && Has(t.procs, item[id].proc)
  }

  /** Of the first n events, those that are in both tables, in the same order. */
  function Keep(t: Tables, item: seq<Item>, ids: seq<EventId>, n: nat): (r: seq<EventId>)
    requires |item| == MAXEVENTS && n <= |ids|
    ensures |r| <= n
  {
    if n == 0 then [] else
      Keep(t, item, ids, n - 1) + if Known(t, item, ids[n - 1]) then [ids[n - 1]] else []
  }

  /** The item an event's own record leaves. */
  function ItemBack(t: Tables, x: Item): Item
  {
    if Has(t.procs, x.proc) then x else x.(proc := NoProc)
  }

  lemma ReceiveOwn(t: Tables, p: Partial, x: Item, num: EventId)
    requires Sound(t) && |p.item| == MAXEVENTS
    ensures Receive(t, p, RecordOf(t, x, num)) == if !Has(t.nums, num) then p else
      Partial(p.item[num := ItemBack(t, x)], p.list + if Has(t.procs, x.proc) then [num] else [])
  {
    NumberFindsBack(t.nums, num);
    NumberFindsBack(t.procs, x.proc);
    hide FindId, FindWhat, Injective;
    if !Has(t.procs, x.proc) { assert p.list + [] == p.list; }
  }

  /** One more record. */
  lemma ReceiveStep(t: Tables, p: Partial, item: seq<Item>, ids: seq<EventId>, n: nat)
    requires Sound(t) && |p.item| == |item| == MAXEVENTS && n < |ids|
    ensures var all, id := RecordsOf(t, item, ids), ids[n];
      var q, r := ReceiveAll(t, p, all, n), ReceiveAll(t, p, all, n + 1);
      && r.list == q.list + (if Known(t, item, id) then [id] else [])
      && r.item == if Has(t.nums, id) then q.item[id := ItemBack(t, item[id])] else q.item
  {
    var q := ReceiveAll(t, p, RecordsOf(t, item, ids), n);
    ReceiveOwn(t, q, item[ids[n]], ids[n]);
    hide Receive, RecordOf, Has, ItemBack, Sound;
    assert q.list + [] == q.list;
  }

  lemma {:induction false} ReceiveList(t: Tables, p: Partial, item: seq<Item>, ids: seq<EventId>, n: nat)
    requires Sound(t) && |p.item| == |item| == MAXEVENTS && n <= |ids|
    ensures ReceiveAll(t, p, RecordsOf(t, item, ids), n).list == p.list + Keep(t, item, ids, n)
  {
    hide Receive, RecordsOf, Known, Sound, Has, ItemBack;
    if n > 0 {
      ReceiveList(t, p, item, ids, n - 1);
      ReceiveStep(t, p, item, ids, n - 1);
      JoinAgain(p.list, Keep(t, item, ids, n - 1), if Known(t, item, ids[n - 1]) then [ids[n - 1]] else []);
    }
  }

  /** An item is the saved one once the event's record has been read, if its number is known, and as
      it was otherwise. */
  lemma {:induction false} ReceiveItem(t: Tables, p: Partial, item: seq<Item>, ids: seq<EventId>, n: nat, x: EventId)
    requires Sound(t) && |p.item| == |item| == MAXEVENTS && n <= |ids|
    ensures ReceiveAll(t, p, RecordsOf(t, item, ids), n).item[x]
         == if IndexOf(ids, x, 0) < n && Has(t.nums, x) then ItemBack(t, item[x]) else p.item[x]
  {
    hide Receive, RecordsOf, Known, Sound, Has, ItemBack, IndexOf;
    if n > 0 {
      ReceiveItem(t, p, item, ids, n - 1, x);
      ReceiveStep(t, p, item, ids, n - 1);
      OneMoreKnown(ids, n, x);
    }
  }

  lemma OneMoreKnown(ids: seq<EventId>, n: nat, x: EventId)
    requires 0 < n <= |ids|
    ensures IndexOf(ids, x, 0) < n <==> IndexOf(ids, x, 0) < n - 1 || ids[n - 1] == x
  {
    hide IndexOf;
  }

  /** What a scheduler is after reloading: the saved lists without the events that are not in the
      tables, and the saved items of the others. */
  lemma ReloadedItem(t: Tables, saved: State, s: State, x: EventId)
    requires Sound(t) && |saved.item| == |s.item| == MAXEVENTS
    ensures SaveAndReload(t, saved, s).item[x] ==
      if (Works(saved.level, x) || Works(saved.waiting, x)) && Has(t.nums, x) then ItemBack(t, saved.item[x])
      else s.item[x]
  {
    hide Sound, Has, ItemBack, IndexOf, RecordsOf;
    var a := ReceiveAll(t, Partial(s.item, []), RecordsOf(t, saved.item, saved.level), |saved.level|);
    ReceiveItem(t, Partial(s.item, []), saved.item, saved.level, |saved.level|, x);
    ReceiveItem(t, Partial(a.item, []), saved.item, saved.waiting, |saved.waiting|, x);
  }

  lemma ReloadedLists(t: Tables, saved: State, s: State)
    requires Sound(t) && |saved.item| == |s.item| == MAXEVENTS
    ensures SaveAndReload(t, saved, s).level == Keep(t, saved.item, saved.level, |saved.level|)
    ensures SaveAndReload(t, saved, s).waiting == Keep(t, saved.item, saved.waiting, |saved.waiting|)
  {
    hide Sound, Keep, RecordsOf;
    var a := ReceiveAll(t, Partial(s.item, []), RecordsOf(t, saved.item, saved.level), |saved.level|);
    ReceiveList(t, Partial(s.item, []), saved.item, saved.level, |saved.level|);
    ReceiveList(t, Partial(a.item, []), saved.item, saved.waiting, |saved.waiting|);
  }

  /** Where the k-th kept event stood. */
  function Origin(t: Tables, item: seq<Item>, ids: seq<EventId>, n: nat, k: nat): (i: nat)
    requires |item| == MAXEVENTS && n <= |ids| && k < |Keep(t, item, ids, n)|
    ensures i < n && Keep(t, item, ids, n)[k] == ids[i] && Known(t, item, ids[i])
  {
    if k == |Keep(t, item, ids, n - 1)| then n - 1 else Origin(t, item, ids, n - 1, k)
  }

  /** What is kept is a subsequence. */
  lemma {:induction false} KeepsOrder(t: Tables, item: seq<Item>, ids: seq<EventId>, n: nat, k: nat, m: nat)
    requires |item| == MAXEVENTS && n <= |ids| && k < m < |Keep(t, item, ids, n)|
    ensures Origin(t, item, ids, n, k) < Origin(t, item, ids, n, m)
  {
    hide Known;
    if m < |Keep(t, item, ids, n - 1)| { KeepsOrder(t, item, ids, n - 1, k, m); }
  }

  /** Every known event is kept. */
  lemma {:induction false} KeepsKnown(t: Tables, item: seq<Item>, ids: seq<EventId>, n: nat, i: nat) returns (k: nat)
    requires |item| == MAXEVENTS && i < n <= |ids| && Known(t, item, ids[i])
    ensures k < |Keep(t, item, ids, n)| && Keep(t, item, ids, n)[k] == ids[i]
  {
    hide Known;
    if i < n - 1 { k := KeepsKnown(t, item, ids, n - 1, i); } else { k := |Keep(t, item, ids, n - 1)|; }
  }

  /** Nothing is lost exactly when every event is known. */
  lemma {:induction false} KeepsAll(t: Tables, item: seq<Item>, ids: seq<EventId>, n: nat)
    requires |item| == MAXEVENTS && n <= |ids|
    ensures Keep(t, item, ids, n) == ids[..n] <==> (forall i :: 0 <= i < n ==> Known(t, item, ids[i]))
    ensures Keep(t, item, ids, n) == ids[..n] <==> |Keep(t, item, ids, n)| == n
  {
    hide Known;
    if n > 0 {
      KeepsAll(t, item, ids, n - 1);
      OneMore(ids, n);
    }
  }

  /** The reloaded ready list is a subsequence of the saved one: distinct events, in the same order, with
      the clocks and callbacks they were saved with. */
  lemma ReloadKeepsEvents(t: Tables, saved: State, s: State, k: nat)
    requires Sound(t) && |saved.item| == |s.item| == MAXEVENTS && k < |SaveAndReload(t, saved, s).level|
    ensures var r := SaveAndReload(t, saved, s);
      && k < |Keep(t, saved.item, saved.level, |saved.level|)|
      && r.level[k] == saved.level[Origin(t, saved.item, saved.level, |saved.level|, k)]
      && r.item[r.level[k]] == saved.item[r.level[k]]
  {
    ReloadedLists(t, saved, s);
    hide Sound, SaveAndReload, Keep, Works;
    var i := Origin(t, saved.item, saved.level, |saved.level|, k);
    ReloadedItem(t, saved, s, saved.level[i]);
    EventDispatch.Listed(saved.level, i);
  }

  /** The table has a row for this. */
  ghost predicate InTable<T>(rows: seq<Row<T>>, what: T)
  {
    exists i :: 0 <= i < |rows| && rows[i].what == what
  }

  lemma KnownIsInTables(t: Tables, item: seq<Item>, id: EventId)
    requires |item| == MAXEVENTS
    ensures Known(t, item, id) <==> InTable(t.nums, id) && InTable(t.procs, item[id].proc)
  {
    var i, j := FindWhat(t.nums, id, 0), FindWhat(t.procs, item[id].proc, 0);
    hide FindWhat;
  }

  /** An event of the saved ready list is in the reloaded one, with its saved clock, flags and callback, if and only
      if the tables have both it and its callback. */
  lemma ReloadFinds(t: Tables, saved: State, s: State, i: nat)
    requires Sound(t) && |saved.item| == |s.item| == MAXEVENTS && i < |saved.level|
    ensures var x, r := saved.level[i], SaveAndReload(t, saved, s);
      && (InTable(t.nums, x) && InTable(t.procs, saved.item[x].proc) <==> Works(r.level, x))
      && (Works(r.level, x) ==> r.item[x] == saved.item[x])
  {
    var x, r := saved.level[i], SaveAndReload(t, saved, s);
    ReloadedLists(t, saved, s);
    KnownIsInTables(t, saved.item, x);
    hide SaveAndReload, Sound, Known, Keep, Origin, InTable, Sorted;
    if Known(t, saved.item, x) {
      var k := KeepsKnown(t, saved.item, saved.level, |saved.level|, i);
      assert r.level[k] == x;
    }
    if Works(r.level, x) {
      var k := IndexOf(r.level, x, 0);
      ReloadKeepsEvents(t, saved, s, k);
      assert Known(t, saved.item, saved.level[Origin(t, saved.item, saved.level, |saved.level|, k)]);
    }
  }

  /** The scheduler's state with the CPU counters that the CPU section of the file restores. */
  function WithCounters(r: State, saved: State): State
  {
    r.(cpuClock := saved.cpuClock, base := saved.base, rem := saved.rem)
  }

  lemma ReloadedMarks(t: Tables, saved: State, s: State, x: EventId)
    requires Sound(t) && Idle(saved) && Idle(s)
    ensures var y := SaveAndReload(t, saved, s).item[x]; !y.wait && !y.setEvent
  {
    ReloadedItem(t, saved, s, x);
    hide SaveAndReload, Sorted, Distinct, Has, Sound, Works;
  }

  /** Two reloaded events were two different, equally ordered events of the saved list. */
  lemma ReloadedPair(t: Tables, saved: State, s: State, k: nat, m: nat)
    requires Sound(t) && Queued(saved) && |s.item| == MAXEVENTS && k < m < |SaveAndReload(t, saved, s).level|
    ensures var r := SaveAndReload(t, saved, s);
      r.level[k] != r.level[m] && r.item[r.level[k]].clock <= r.item[r.level[m]].clock
  {
    ReloadKeepsEvents(t, saved, s, k);
    ReloadKeepsEvents(t, saved, s, m);
    KeepsOrder(t, saved.item, saved.level, |saved.level|, k, m);
    hide SaveAndReload, Keep, Origin, Sound;
  }

  lemma ReloadedHead(t: Tables, saved: State, s: State)
    requires Sound(t) && Queued(saved) && |s.item| == MAXEVENTS && SaveAndReload(t, saved, s).level != []
    ensures var r := SaveAndReload(t, saved, s); saved.base <= r.item[r.level[0]].clock
  {
    ReloadKeepsEvents(t, saved, s, 0);
    hide SaveAndReload, Keep, Origin, Sound, Distinct;
    var i := Origin(t, saved.item, saved.level, |saved.level|, 0);
    assert saved.item[saved.level[0]].clock <= saved.item[saved.level[i]].clock;
  }

  /** So the scheduler may go on from a reloaded state: it satisfies the invariant again, though events
      may be missing. */
  lemma ReloadKeepsIdle(t: Tables, saved: State, s: State)
    requires Sound(t) && Idle(saved) && Idle(s)
    ensures Idle(WithCounters(SaveAndReload(t, saved, s), saved))
  {
    var r := SaveAndReload(t, saved, s);
    ReloadedLists(t, saved, s);
    forall x: EventId ensures !r.item[x].wait && !r.item[x].setEvent { ReloadedMarks(t, saved, s, x); }
    if r.level != [] { ReloadedHead(t, saved, s); }
    forall k: nat, m: nat | k < m < |r.level|
      ensures r.level[k] != r.level[m] && r.item[r.level[k]].clock <= r.item[r.level[m]].clock
    {
      ReloadedPair(t, saved, s, k, m);
    }
    hide SaveAndReload, Keep, Sound;
  }

  // ---------------------------------------------------------------- the section's bytes

  function Packed(records: seq<Record>, n: nat): (b: seq<byte>)
    requires n <= |records| && forall i :: 0 <= i < n ==> RecordFits(records[i])
    ensures |b| == 16 * n
  {
    if n == 0 then [] else Packed(records, n - 1) + RecordBytes(records[n - 1])
  }

  lemma {:induction false} PackedAt(records: seq<Record>, n: nat, k: nat)
    requires k < n <= |records| && forall i :: 0 <= i < n ==> RecordFits(records[i])
    ensures Packed(records, n)[16 * k..16 * k + 16] == RecordBytes(records[k])
  {
    hide RecordBytes;
    var a, b := Packed(records, n - 1), RecordBytes(records[n - 1]);
    if k < n - 1 {
      PackedAt(records, n - 1, k);
      assert (a + b)[16 * k..16 * k + 16] == a[16 * k..16 * k + 16];
    } else {
      assert (a + b)[16 * k..16 * k + 16] == b;
    }
  }

  /** NEVTSAVE, then a record for each event of both lists. */
  function SectionData(ready: seq<Record>, waiting: seq<Record>): (b: seq<byte>)
    requires |ready| < WORD32 && |waiting| < WORD32
    requires forall i :: 0 <= i < |ready + waiting| ==> RecordFits((ready + waiting)[i])
    ensures |b| == 8 + 16 * (|ready| + |waiting|)
  {
    Le32(|ready|) + Le32(|waiting|) + Packed(ready + waiting, |ready + waiting|)
  }
}
