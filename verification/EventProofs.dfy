/** What the scheduler promises of one call: it never moves the current time or another event's due time,
    and it keeps the ready list in due order. */
module EventProofs {
  import opened EventQueue

  // ---------------------------------------------------------------- lists of events

  ghost predicate Absent(level: seq<EventId>, id: EventId)
  {
    forall i :: 0 <= i < |level| ==> level[i] != id
  }

  lemma CutDistinct(level: seq<EventId>, p: nat)
    requires Distinct(level) && p < |level|
    ensures Distinct(level[..p] + level[p + 1..]) && Absent(level[..p] + level[p + 1..], level[p])
  {
  }

  /** A list without repetition holds at most MAXEVENTS events, so the arrays never overflow. */
  lemma {:induction false} Pigeonhole(level: seq<EventId>, m: nat)
    requires Distinct(level) && forall i :: 0 <= i < |level| ==> level[i] < m
    ensures |level| <= m
  {
    assert level != [] ==> level[0] < m;
    if m > 0 {
      if p :| 0 <= p < |level| && level[p] == m - 1 {
        CutDistinct(level, p);
        Pigeonhole(level[..p] + level[p + 1..], m - 1);
      } else {
        Pigeonhole(level, m - 1);
      }
    }
  }

  lemma RoomForOneMore(level: seq<EventId>, id: EventId)
    requires Distinct(level) && Absent(level, id)
    ensures |level| < MAXEVENTS
  {
    Pigeonhole(level + [id], MAXEVENTS);
  }

  lemma CutSorted(level: seq<EventId>, item: seq<Item>, p: nat)
    requires |item| == MAXEVENTS && p < |level| && Sorted(level, item)
    ensures Sorted(level[..p] + level[p + 1..], item)
  {
    var r := level[..p] + level[p + 1..];
    assert forall i :: 0 <= i < |r| ==> r[i] == level[if i < p then i else i + 1];
  }

  lemma InsertSorted(level: seq<EventId>, item: seq<Item>, k: nat, id: EventId)
    requires |item| == MAXEVENTS && k <= |level| && Sorted(level, item)
    requires forall i :: 0 <= i < k ==> item[level[i]].clock <= item[id].clock
    requires forall i :: k <= i < |level| ==> item[id].clock <= item[level[i]].clock
    ensures Sorted(level[..k] + [id] + level[k..], item)
  {
    var r := level[..k] + [id] + level[k..];
    forall i, j | 0 <= i < j < |r| ensures item[r[i]].clock <= item[r[j]].clock {
      assert r[i] == if i < k then level[i] else if i == k then id else level[i - 1];
      assert r[j] == if j < k then level[j] else if j == k then id else level[j - 1];
    }
  }

  lemma SortedElsewhere(level: seq<EventId>, item: seq<Item>, id: EventId, x: Item)
    requires |item| == MAXEVENTS && Sorted(level, item) && Absent(level, id)
    ensures Sorted(level, item[id := x])
  {
    forall i, j | 0 <= i < j < |level| ensures item[id := x][level[i]].clock <= item[id := x][level[j]].clock {
      assert level[i] != id && level[j] != id;
    }
  }

  /** The insertion point splits a sorted list by due time. */
  lemma InsertAtSplits(level: seq<EventId>, item: seq<Item>, clock: int)
    requires |item| == MAXEVENTS && Sorted(level, item)
    ensures forall i :: InsertAt(level, item, clock, 0) <= i < |level| ==> clock < item[level[i]].clock
  {
    var k := InsertAt(level, item, clock, 0);
    forall i | k <= i < |level| ensures clock < item[level[i]].clock {
      assert i == k || item[level[k]].clock <= item[level[i]].clock;
    }
  }

  // ---------------------------------------------------------------- nevent_reset, nevent_forceexit

  lemma WithoutFacts(level: seq<EventId>, id: EventId)
    requires Distinct(level)
    ensures Distinct(Without(level, id)) && Absent(Without(level, id), id)
    ensures forall i :: 0 <= i < |Without(level, id)| ==>
      Without(level, id)[i] == level[if i < IndexOf(level, id, 0) then i else i + 1]
  {
    hide IndexOf;
    var p := IndexOf(level, id, 0);
    if p < |level| { CutDistinct(level, p); }
  }

  lemma ResetKeepsInOrder(s: State, id: EventId)
    requires InOrder(s)
    ensures InOrder(ResetEvent(s, id)) && Absent(ResetEvent(s, id).level, id)
  {
    var p := IndexOf(s.level, id, 0);
    WithoutFacts(s.level, id);
    if p < |s.level| { CutSorted(s.level, s.item, p); }
    hide Without, Distinct, Sorted;
  }

  /** The event is gone; the others stay queued in the same order, at the same due times, and time and
      counters stand. */
  lemma ResetKeepsQueued(s: State, id: EventId)
    requires Queued(s)
    ensures var r := ResetEvent(s, id);
      && Queued(r) && Absent(r.level, id) && Now(r) == Now(s) && r.base == s.base && r.rem == s.rem
      && Omit(r.level, {id}) == Omit(s.level, {id})
      && (forall x: EventId :: r.item[x] == s.item[x] && Due(r, x) == Due(s, x))
  {
    var p, w := IndexOf(s.level, id, 0), Without(s.level, id);
    ResetKeepsInOrder(s, id);
    WithoutOmits(s.level, id, {id});
    WithoutFacts(s.level, id);
    assert w != [] ==> w[0] == s.level[if 0 < p then 0 else 1];
    hide Without, Distinct, Omit;
  }

  /** nevent_forceexit ends the slice at the current time, unless it has ended. */
  lemma ExitKeepsQueued(s: State)
    requires Queued(s)
    ensures var r := ExitNow(s);
      && Queued(r) && Now(r) == Now(s) && r.rem <= 0 && r == s.(base := r.base, rem := r.rem)
      && (s.rem > 0 ==> r.rem == 0 && r.cpuClock + r.base == Now(s))
      && (s.rem <= 0 ==> r == s)
  {
  }

  /** The CPU core's own steps: CPU_REMCLOCK gets its new value, and time does not move. */
  lemma AdjustMovesTheEnd(s: State, c: int)
    ensures var r, t := AdjustRemain(s, c), NextOpcode(s);
      && r.rem == c && Now(r) == Now(s) && r == s.(base := r.base, rem := r.rem)
      && Now(t) == Now(s) && t == s.(base := t.base, rem := t.rem)
      && t.rem == if s.rem >= 1 then s.rem else 1
  {
  }

  /** nevent_get1stevent sets the CPU to stop exactly where the first event is due, or after MAXCLOCK
      clocks, counting from CPU_CLOCK; whatever it was set to do before. */
  lemma FirstStop(s: State)
    requires InOrder(s)
    ensures var r := Get1stEvent(s);
      && Queued(r) && r.rem == r.base && Now(r) == s.cpuClock && r.level == s.level && r.item == s.item
      && s.cpuClock + r.base == if r.level == [] then s.cpuClock + MAXCLOCK else Due(s, s.level[0])
  {
  }

  // ---------------------------------------------------------------- nevent_set

  /** The item nevent_set writes. */
  function NewItem(s: State, id: EventId, eventclock: int, proc: Proc, absolute: bool): Item
    requires |s.item| == MAXEVENTS
  {
    Item(SetClock(s, id, eventclock, absolute), false, false, false, proc)
  }

  lemma SetKeepsSorted(s: State, id: EventId, eventclock: int, proc: Proc, absolute: bool)
    requires InOrder(s)
    ensures var r := SetEvent(s, id, eventclock, proc, absolute); Sorted(r.level, r.item)
  {
    var w, x := Without(s.level, id), NewItem(s, id, eventclock, proc, absolute);
    var item := s.item[id := x];
    ResetKeepsInOrder(s, id);
    SortedElsewhere(w, s.item, id, x);
    InsertAtSplits(w, item, x.clock);
    InsertSorted(w, item, InsertAt(w, item, x.clock, 0), id);
  }

  lemma InsertDistinct(level: seq<EventId>, k: nat, id: EventId)
    requires Distinct(level) && Absent(level, id) && k <= |level|
    ensures Distinct(level[..k] + [id] + level[k..])
  {
  }

  lemma InsertUnfired(level: seq<EventId>, item: seq<Item>, k: nat, id: EventId, x: Item)
    requires |item| == MAXEVENTS && k <= |level| && !x.setEvent
    requires forall i :: 0 <= i < |level| ==> !item[level[i]].setEvent
    ensures var r := level[..k] + [id] + level[k..];
      forall i :: 0 <= i < |r| ==> !item[id := x][r[i]].setEvent
  {
    var r := level[..k] + [id] + level[k..];
    forall i | 0 <= i < |r| ensures !item[id := x][r[i]].setEvent {
      assert r[i] == if i < k then level[i] else if i == k then id else level[i - 1];
    }
  }

  lemma SetIs(s: State, id: EventId, eventclock: int, proc: Proc, absolute: bool)
    requires |s.item| == MAXEVENTS
    ensures var r, w := SetEvent(s, id, eventclock, proc, absolute), Without(s.level, id);
      var x := NewItem(s, id, eventclock, proc, absolute);
      var k := InsertAt(w, s.item[id := x], x.clock, 0);
      r.item == s.item[id := x] && r.level == w[..k] + [id] + w[k..] && r.waiting == s.waiting
  {
  }

  lemma SetKeepsInOrder(s: State, id: EventId, eventclock: int, proc: Proc, absolute: bool)
    requires InOrder(s)
    ensures InOrder(SetEvent(s, id, eventclock, proc, absolute))
  {
    var w, x := Without(s.level, id), NewItem(s, id, eventclock, proc, absolute);
    var k := InsertAt(w, s.item[id := x], x.clock, 0);
    hide Without, Sorted, Distinct, SetEvent, InsertAt;
    SetIs(s, id, eventclock, proc, absolute);
    SetKeepsSorted(s, id, eventclock, proc, absolute);
    ResetKeepsInOrder(s, id);
    InsertDistinct(w, k, id);
    InsertUnfired(w, s.item, k, id, x);
  }

  lemma SetKeepsQueued(s: State, id: EventId, eventclock: int, proc: Proc, absolute: bool)
    requires Queued(s)
    ensures Queued(SetEvent(s, id, eventclock, proc, absolute))
  {
    var w, x := Without(s.level, id), NewItem(s, id, eventclock, proc, absolute);
    var k := InsertAt(w, s.item[id := x], x.clock, 0);
    SetKeepsInOrder(s, id, eventclock, proc, absolute);
    ResetKeepsQueued(s, id);
    hide InOrder;
    assert (w[..k] + [id] + w[k..])[0] == if k == 0 then id else w[0];
  }

  /** id was put into a ready list behind every event due no later, ahead of every event due later. */
  ghost predicate PutInOrder(before: seq<EventId>, r: State, id: EventId, k: nat)
    requires |r.item| == MAXEVENTS
  {
    && k <= |before| && r.level == before[..k] + [id] + before[k..]
    && (forall i :: 0 <= i < k ==> Due(r, before[i]) <= Due(r, id))
    && (forall i :: k <= i < |before| ==> Due(r, id) < Due(r, before[i]))
  }

  lemma SetMakesDue(s: State, id: EventId, eventclock: int, proc: Proc, absolute: bool)
    requires |s.item| == MAXEVENTS
    ensures var r := SetEvent(s, id, eventclock, proc, absolute);
      && Now(r) == Now(s)
      && Due(r, id) == (if absolute then Now(s) else Due(s, id)) + eventclock
      && r.item[id] == NewItem(s, id, eventclock, proc, absolute) == Item(r.item[id].clock, false, false, false, proc)
      && (forall x: EventId :: x != id ==> r.item[x] == s.item[x] && Due(r, x) == Due(s, x))
  {
  }

  lemma SetKeepsOrder(s: State, id: EventId, eventclock: int, proc: Proc, absolute: bool)
    requires InOrder(s)
    ensures var r, w := SetEvent(s, id, eventclock, proc, absolute), Without(s.level, id);
      PutInOrder(w, r, id, InsertAt(w, r.item, r.item[id].clock, 0))
  {
    var w, x := Without(s.level, id), NewItem(s, id, eventclock, proc, absolute);
    ResetKeepsInOrder(s, id);
    SortedElsewhere(w, s.item, id, x);
    PlaceKeepsOrder(s.(item := s.item[id := x], level := w), id);
  }

  lemma PlaceKeepsOrder(s: State, id: EventId)
    requires |s.item| == MAXEVENTS && Sorted(s.level, s.item)
    ensures PutInOrder(s.level, Place(s, id), id, InsertAt(s.level, s.item, s.item[id].clock, 0))
  {
    InsertAtSplits(s.level, s.item, s.item[id].clock);
  }

  lemma PlaceStops(s: State, id: EventId)
    requires |s.item| == MAXEVENTS && Absent(s.level, id)
    ensures var r := Place(s, id);
      && r.level != [] && r.item == s.item && r.cpuClock == s.cpuClock
      && (r.level[0] == id ==> r.base == s.item[id].clock)
      && (r.level[0] != id ==> r.base == s.base && r.rem == s.rem)
  {
    var k := InsertAt(s.level, s.item, s.item[id].clock, 0);
    assert (s.level[..k] + [id] + s.level[k..])[0] == if k == 0 then id else s.level[0];
  }

  /** The CPU is set to stop exactly at an event that has become the head, and otherwise where it was. */
  lemma SetStops(s: State, id: EventId, eventclock: int, proc: Proc, absolute: bool)
    requires InOrder(s)
    ensures var r := SetEvent(s, id, eventclock, proc, absolute);
      && r.level != []
      && (r.level[0] == id ==> r.cpuClock + r.base == Due(r, id))
      && (r.level[0] != id ==> r.base == s.base && r.rem == s.rem)
  {
    ResetKeepsInOrder(s, id);
    hide InOrder, Without, Place, Absent;
    PlaceStops(s.(item := s.item[id := NewItem(s, id, eventclock, proc, absolute)], level := Without(s.level, id)), id);
  }

  /** nevent_set leaves the current time and the due time of every other event alone and makes id
      due at Now + eventclock (absolute), or eventclock after Due (relative). For a queued event that is
      when it was due; for one out of the list it moves on with CPU_CLOCK (EventPeriods.RearmedLate). The
      ready list is the old one without id, with id put back behind every event due no later and ahead
      of every event due later. */
  lemma SetSchedules(s: State, id: EventId, eventclock: int, proc: Proc, absolute: bool)
    requires InOrder(s)
    ensures var r, w := SetEvent(s, id, eventclock, proc, absolute), Without(s.level, id);
      && InOrder(r) && (Queued(s) ==> Queued(r)) && Now(r) == Now(s)
      && Due(r, id) == (if absolute then Now(s) else Due(s, id)) + eventclock && r.item[id].proc == proc
      && (forall x: EventId :: x != id ==> Due(r, x) == Due(s, x) && r.item[x].proc == s.item[x].proc)
      && exists k :: PutInOrder(w, r, id, k)
  {
    SetMakesDue(s, id, eventclock, proc, absolute);
    SetKeepsOrder(s, id, eventclock, proc, absolute);
    SetKeepsInOrder(s, id, eventclock, proc, absolute);
    if Queued(s) { SetKeepsQueued(s, id, eventclock, proc, absolute); }
    hide Queued, InOrder, PutInOrder, SetEvent;
  }

  /** What nevent_getremain returns: the time left until id is due, and -1 if it is not queued. A caller
      cannot tell -1 from a queued event that is overdue by one clock. */
  function Remaining(s: State, id: EventId): (r: int)
    requires |s.item| == MAXEVENTS
    ensures Works(s.level, id) ==> Now(s) + r == Due(s, id)
    ensures r == -1 <==> !Works(s.level, id) || Due(s, id) == Now(s) - 1
  {
    if Works(s.level, id) then s.item[id].clock - (s.base - s.rem) else -1
  }

  // ---------------------------------------------------------------- the order of the others

  /** A ready list without the events of a set. */
  function Omit(level: seq<EventId>, ids: set<EventId>): (r: seq<EventId>)
    decreases |level|
  {
    if level == [] then [] else
      var n := |level| - 1;
      Omit(level[..n], ids) + if level[n] in ids then [] else [level[n]]
  }

  lemma OmitLast(level: seq<EventId>, id: EventId, ids: set<EventId>)
    ensures Omit(level + [id], ids) == Omit(level, ids) + if id in ids then [] else [id]
  {
    assert (level + [id])[..|level|] == level;
  }

  lemma {:induction false} OmitJoin(a: seq<EventId>, b: seq<EventId>, ids: set<EventId>)
    ensures Omit(a + b, ids) == Omit(a, ids) + Omit(b, ids)
    decreases |b|
  {
    if b == [] {
      assert a + b == a;
    } else {
      var front, last := b[..|b| - 1], b[|b| - 1];
      OmitJoin(a, front, ids);
      OmitLast(a + front, last, ids);
      OmitLast(front, last, ids);
      hide Omit;
      assert b == front + [last] && a + b == a + front + [last];
    }
  }

  lemma OmitSkips(a: seq<EventId>, id: EventId, b: seq<EventId>, ids: set<EventId>)
    requires id in ids
    ensures Omit(a + [id] + b, ids) == Omit(a + b, ids)
  {
    OmitJoin(a + [id], b, ids);
    OmitJoin(a, [id], ids);
    OmitJoin(a, b, ids);
    assert [id][..0] == [];
    assert Omit([id], ids) == [];
  }

  lemma WithoutOmits(level: seq<EventId>, id: EventId, ids: set<EventId>)
    requires id in ids
    ensures Omit(Without(level, id), ids) == Omit(level, ids)
  {
    var p := IndexOf(level, id, 0);
    if p < |level| {
      OmitSkips(level[..p], id, level[p + 1..], ids);
      assert level == level[..p] + [id] + level[p + 1..];
    }
  }

  // ---------------------------------------------------------------- calls made by callbacks

  /** The events the first n calls of a callback set or reset. */
  function Mentioned(calls: seq<Call>, n: nat): (ids: set<EventId>)
    requires n <= |calls|
  {
    if n == 0 then {} else Mentioned(calls, n - 1) + if calls[n - 1].ForceExit? then {} else {calls[n - 1].id}
  }

  /** s2 comes from s1 by calls that mention only events of ids: the current time is the same, and
      so is everything about the other events, including their order in the ready list. */
  ghost predicate TouchesOnly(s1: State, s2: State, ids: set<EventId>)
  {
    && |s1.item| == |s2.item| == MAXEVENTS
    && Now(s2) == Now(s1) && s2.cpuClock == s1.cpuClock && s2.waiting == s1.waiting
    && Omit(s2.level, ids) == Omit(s1.level, ids)
    && (forall x: EventId :: x !in ids ==> s2.item[x] == s1.item[x].(setEvent := s2.item[x].setEvent))
    && (forall x: EventId :: s2.item[x].setEvent ==> s1.item[x].setEvent)
  }

  lemma TouchesCompose(s1: State, s2: State, s3: State, ids: set<EventId>)
    requires TouchesOnly(s1, s2, ids) && TouchesOnly(s2, s3, ids)
    ensures TouchesOnly(s1, s3, ids)
  {
  }

  lemma SetOmits(s: State, id: EventId, eventclock: int, proc: Proc, absolute: bool, ids: set<EventId>)
    requires InOrder(s) && id in ids
    ensures Omit(SetEvent(s, id, eventclock, proc, absolute).level, ids) == Omit(s.level, ids)
  {
    SetKeepsOrder(s, id, eventclock, proc, absolute);
    var r, w := SetEvent(s, id, eventclock, proc, absolute), Without(s.level, id);
    var k := InsertAt(w, r.item, r.item[id].clock, 0);
    OmitSkips(w[..k], id, w[k..], ids);
    assert w == w[..k] + w[k..];
    WithoutOmits(s.level, id, ids);
  }

  lemma SetTouches(s: State, id: EventId, eventclock: int, proc: Proc, absolute: bool, ids: set<EventId>)
    requires InOrder(s) && id in ids
    ensures TouchesOnly(s, SetEvent(s, id, eventclock, proc, absolute), ids)
  {
    SetMakesDue(s, id, eventclock, proc, absolute);
    SetOmits(s, id, eventclock, proc, absolute, ids);
  }

  lemma ApplyKeepsQueued(s: State, call: Call)
    requires Queued(s)
    ensures Queued(Apply(s, call))
  {
    match call
    case Set(id, eventclock, proc, absolute) => SetKeepsQueued(s, id, eventclock, proc, absolute);
    case Reset(id) => ResetKeepsQueued(s, id);
    case ForceExit => ExitKeepsQueued(s);
  }

  lemma ApplyKeepsInOrder(s: State, call: Call)
    requires InOrder(s)
    ensures InOrder(Apply(s, call))
  {
    match call
    case Set(id, eventclock, proc, absolute) => SetKeepsInOrder(s, id, eventclock, proc, absolute);
    case Reset(id) => ResetKeepsInOrder(s, id);
    case ForceExit =>
  }

  lemma ApplyTouches(s: State, call: Call, ids: set<EventId>)
    requires InOrder(s) && (call.ForceExit? || call.id in ids)
    ensures TouchesOnly(s, Apply(s, call), ids)
  {
    match call
    case Set(id, eventclock, proc, absolute) => SetTouches(s, id, eventclock, proc, absolute, ids);
    case Reset(id) => WithoutOmits(s.level, id, ids);
    case ForceExit =>
  }

  lemma {:induction false} ApplyAllTouches(s: State, calls: seq<Call>, n: nat, ids: set<EventId>)
    requires Queued(s) && n <= |calls| && Mentioned(calls, n) <= ids
    ensures TouchesOnly(s, ApplyAll(s, calls, n), ids) && Queued(ApplyAll(s, calls, n))
  {
    if n > 0 {
      var t := ApplyAll(s, calls, n - 1);
      ApplyAllTouches(s, calls, n - 1, ids);
      ApplyKeepsQueued(t, calls[n - 1]);
      ApplyTouches(t, calls[n - 1], ids);
      TouchesCompose(s, t, ApplyAll(s, calls, n), ids);
    }
  }

  lemma {:induction false} OmitKeepsPresence(level: seq<EventId>, ids: set<EventId>, x: EventId)
    requires x !in ids
    ensures Absent(Omit(level, ids), x) <==> Absent(level, x)
    decreases |level|
  {
    if level != [] {
      var n := |level| - 1;
      OmitKeepsPresence(level[..n], ids, x);
      assert level == level[..n] + [level[n]];
      AbsentJoin(level[..n], [level[n]], x);
      AbsentJoin(Omit(level[..n], ids), if level[n] in ids then [] else [level[n]], x);
    }
  }

  lemma AbsentJoin(a: seq<EventId>, b: seq<EventId>, x: EventId)
    ensures Absent(a + b, x) <==> Absent(a, x) && Absent(b, x)
  {
    if Absent(a + b, x) {
      assert forall i :: 0 <= i < |a| ==> (a + b)[i] == a[i];
      assert forall i :: 0 <= i < |b| ==> (a + b)[|a| + i] == b[i];
    }
  }
}
