/** nevent.c as it works: arrays and counters updated in place. Every method is proved to compute
    the function of module EventQueue that bears its name. */
module Scheduler {
  import opened Bytes
  import opened CInt
  import opened EventQueue
  import opened EventProofs
  import opened EventDispatch

  /** What a callback asks for does not depend on the wait list. */
  lemma PlaceIgnoresWaiting(s: State, id: EventId, waiting: seq<EventId>)
    requires |s.item| == MAXEVENTS
    ensures Place(s.(waiting := waiting), id) == Place(s, id).(waiting := waiting)
  {
  }

  lemma ApplyIgnoresWaiting(s: State, call: Call, waiting: seq<EventId>)
    requires |s.item| == MAXEVENTS
    ensures Apply(s.(waiting := waiting), call) == Apply(s, call).(waiting := waiting)
  {
    hide Place;
    if call.Set? {
      var clock := SetClock(s, call.id, call.eventclock, call.absolute);
      var item := s.item[call.id := Item(clock, false, false, false, call.proc)];
      PlaceIgnoresWaiting(s.(item := item, level := Without(s.level, call.id)), call.id, waiting);
    }
  }

  lemma {:induction false} ApplyAllIgnoresWaiting(s: State, calls: seq<Call>, n: nat, waiting: seq<EventId>)
    requires |s.item| == MAXEVENTS && n <= |calls|
    ensures ApplyAll(s.(waiting := waiting), calls, n) == ApplyAll(s, calls, n).(waiting := waiting)
  {
    hide Apply;
    if n > 0 {
      ApplyAllIgnoresWaiting(s, calls, n - 1, waiting);
      ApplyIgnoresWaiting(ApplyAll(s, calls, n - 1), calls[n - 1], waiting);
    }
  }

  lemma WrapAround(clock: int, base: int)
    ensures (clock % WORD32 + base) % WORD32 == (clock + base) % WORD32
  {
  }

  lemma OnePlace(level: seq<EventId>, i: nat)
    requires Distinct(level) && i < |level|
    ensures IndexOf(level, level[i], 0) == i
    ensures forall x: EventId :: x != level[i] ==> (IndexOf(level, x, 0) < i + 1 <==> IndexOf(level, x, 0) < i)
  {
  }

  lemma {:induction false} LaterIsDistinct(level: seq<EventId>, item: seq<Item>, base: int, n: nat)
    requires |item| == MAXEVENTS && n <= |level| && Distinct(level)
    ensures Distinct(Later(level, item, base, n))
    ensures forall j :: n <= j < |level| ==> Absent(Later(level, item, base, n), level[j])
  {
    if n > 0 { LaterIsDistinct(level, item, base, n - 1); }
  }

  /** The wait list's array holds what is carried over and what falls due, which nevent_progress takes for
      granted. */
  ghost predicate RoomToWait(s: State)
    requires |s.item| == MAXEVENTS
  {
    |s.waiting| + |DueNow(s.level, s.item, s.base, |s.level|)| <= MAXEVENTS
  }

  /** It always does when nothing is carried over. */
  lemma RestingHasRoom(s: State)
    requires Resting(s)
    ensures RoomToWait(s)
  {
    Pigeonhole(s.level, MAXEVENTS);
    hide DueNow;
  }

  lemma {:induction false} DueNowGrows(level: seq<EventId>, item: seq<Item>, base: int, n: nat, m: nat)
    requires |item| == MAXEVENTS && n <= m <= |level|
    ensures |DueNow(level, item, base, n)| <= |DueNow(level, item, base, m)|
  {
    if n < m { DueNowGrows(level, item, base, n, m - 1); }
  }

  lemma WaitOneMore(s: State, i: nat)
    requires |s.item| == MAXEVENTS && i < |s.level|
    ensures var x, due := s.item[s.level[i]], DueNow(s.level, s.item, s.base, i);
      s.waiting + DueNow(s.level, s.item, s.base, i + 1)
        == (s.waiting + due) + if x.clock - s.base > 0 || x.setEvent || x.wait then [] else [s.level[i]]
  {
  }

  lemma LaterOneMore(s: State, i: nat)
    requires |s.item| == MAXEVENTS && i < |s.level|
    ensures var c := s.item[s.level[i]].clock - s.base;
      Later(s.level, s.item, s.base, i + 1) == Later(s.level, s.item, s.base, i) + if c > 0 then [s.level[i]] else []
    ensures var c, next := s.item[s.level[i]].clock - s.base, NextBase(s.level, s.item, s.base, i);
      NextBase(s.level, s.item, s.base, i + 1) == if 0 < c <= next then c else next
  {
    if s.item[s.level[i]].clock - s.base <= 0 {
      assert Later(s.level, s.item, s.base, i) + [] == Later(s.level, s.item, s.base, i);
    }
  }

  class Nevent {
    var readyevents: nat
    var waitevents: nat
    const level: array<EventId>
    const waitevent: array<EventId>
    const item: array<Item>
    var cpuClock: int     // CPU_CLOCK, an unsigned 32-bit counter
    var baseClock: int    // CPU_BASECLOCK
    var remClock: int     // CPU_REMCLOCK
    ghost var clock: int  // CPU_CLOCK without wrap-around

    ghost predicate Valid()
      reads this, level, waitevent, item
    {
      && level.Length == waitevent.Length == item.Length == MAXEVENTS && level != waitevent
      && readyevents <= MAXEVENTS && waitevents <= MAXEVENTS
      && cpuClock == clock % WORD32
      && Distinct(level[..readyevents])
    }

    ghost function View(): (s: State)
      requires Valid()
      reads this, level, waitevent, item
      ensures |s.item| == MAXEVENTS
    {
      State(level[..readyevents], waitevent[..waitevents], item[..], clock, baseClock, remClock)
    }

    /** nevent_allreset on counters already set to zero. */
    constructor ()
      ensures Valid() && fresh(level) && fresh(waitevent) && fresh(item)
      ensures Idle(View()) && View().level == [] && Now(View()) == 0
    {
      readyevents, waitevents := 0, 0;
      level := new EventId[MAXEVENTS](_ => 0);
      waitevent := new EventId[MAXEVENTS](_ => 0);
      item := new Item[MAXEVENTS](_ => Item(0, false, false, false, NoProc));
      cpuClock, baseClock, remClock, clock := 0, 0, 0, 0;
    }

    /** nevent_get1stevent: the CPU may run up to the first event, or MAXCLOCK clocks. */
    method Get1stEvent()
      requires Valid()
      modifies this`baseClock, this`remClock
      ensures Valid() && View() == EventQueue.Get1stEvent(old(View()))
    {
      baseClock := if readyevents > 0 then item[level[0]].clock else MAXCLOCK;
      remClock := baseClock;
    }

    /** nevent_iswork */
    method IsWork(id: EventId) returns (working: bool)
      requires Valid()
      ensures working == Works(View().level, id)
    {
      var i := 0;
      while i < readyevents
        invariant i <= readyevents
        invariant IndexOf(View().level, id, 0) == IndexOf(View().level, id, i)
      {
        if level[i] == id { return true; }
        i := i + 1;
      }
      return false;
    }

    /** nevent_getremain */
    method GetRemain(id: EventId) returns (result: int)
      requires Valid()
      ensures result == Remaining(View(), id)
    {
      var i := 0;
      while i < readyevents
        invariant i <= readyevents
        invariant IndexOf(View().level, id, 0) == IndexOf(View().level, id, i)
      {
        if level[i] == id { return item[id].clock - (baseClock - remClock); }
        i := i + 1;
      }
      return -1;
    }

    /** nevent_forceexit */
    method ForceExit()
      requires Valid()
      modifies this`baseClock, this`remClock
      ensures Valid() && View() == ExitNow(old(View()))
    {
      if remClock > 0 {
        baseClock := baseClock - remClock;
        remClock := 0;
      }
    }

    /** REMAIN_ADJUST(c) of the CPU core, which shares the counters */
    method AdjustRemain(c: int)
      requires Valid()
      modifies this`baseClock, this`remClock
      ensures Valid() && View() == EventQueue.AdjustRemain(old(View()), c)
    {
      if remClock != c {
        baseClock := baseClock + (c - remClock);
        remClock := c;
      }
    }

    /** NEXT_OPCODE of the CPU core */
    method NextOpcode()
      requires Valid()
      modifies this`baseClock, this`remClock
      ensures Valid() && View() == EventQueue.NextOpcode(old(View()))
    {
      if remClock < 1 {
        baseClock := baseClock + (1 - remClock);
        remClock := 1;
      }
    }

    /** nevent_reset: find the event and close the gap it leaves. */
    method ResetEvent(id: EventId)
      requires Valid()
      modifies this`readyevents, level
      ensures Valid() && View() == EventQueue.ResetEvent(old(View()), id)
    {
      ghost var was := level[..readyevents];
      var i := 0;
      while i < readyevents && level[i] != id
        invariant i <= readyevents
        invariant IndexOf(was, id, 0) == IndexOf(was, id, i)
      {
        i := i + 1;
      }
      WithoutFacts(was, id);
      if i < readyevents {
        readyevents := readyevents - 1;
        CloseGap(i);
        assert level[..readyevents] == was[..i] + was[i + 1..];
      }
    }

    /** Move the events behind place k one place down. */
    method CloseGap(k: nat)
      requires level.Length == MAXEVENTS && k <= readyevents < MAXEVENTS
      modifies level
      ensures forall j :: 0 <= j < k ==> level[j] == old(level[j])
      ensures forall j :: k <= j < readyevents ==> level[j] == old(level[j + 1])
    {
      var i := k;
      while i < readyevents
        invariant k <= i <= readyevents
        invariant forall j :: 0 <= j < k ==> level[j] == old(level[j])
        invariant forall j :: k <= j < i ==> level[j] == old(level[j + 1])
        invariant forall j :: i <= j <= readyevents ==> level[j] == old(level[j])
      {
        level[i] := level[i + 1];
        i := i + 1;
      }
    }

    /** nevent_set: write the item, take the event off the list, put it back in its place. */
    method SetEvent(id: EventId, eventclock: int, proc: Proc, absolute: bool)
      requires Valid()
      modifies this`readyevents, this`baseClock, this`remClock, level, item
      ensures Valid() && View() == EventQueue.SetEvent(old(View()), id, eventclock, proc, absolute)
    {
      ghost var s := View();
      var clk := baseClock - remClock;
      item[id] := Item(if absolute then eventclock + clk else item[id].clock + eventclock, false, false, false, proc);
      assert item[..] == s.item[id := Item(SetClock(s, id, eventclock, absolute), false, false, false, proc)];
      WithoutFacts(s.level, id);
      ResetEvent(id);
      Place(id);
    }

    /** The second half of nevent_set. */
    method Place(id: EventId)
      requires Valid() && Absent(level[..readyevents], id)
      modifies this`readyevents, this`baseClock, this`remClock, level
      ensures Valid() && View() == EventQueue.Place(old(View()), id)
    {
      var eventId := FindPlace(item[id].clock);
      Insert(eventId, id, level[..readyevents]);
      if eventId == 0 {
        var clk := baseClock - item[id].clock;
        baseClock := baseClock - clk;
        remClock := remClock - clk;
      }
    }

    /** The place behind every event not later than clk. */
    method FindPlace(clk: int) returns (eventId: nat)
      requires Valid()
      ensures eventId == InsertAt(View().level, View().item, clk, 0)
    {
      ghost var s := View();
      eventId := 0;
      while eventId < readyevents && clk >= item[level[eventId]].clock
        invariant eventId <= readyevents
        invariant InsertAt(s.level, s.item, clk, 0) == InsertAt(s.level, s.item, clk, eventId)
      {
        eventId := eventId + 1;
      }
    }

    /** Open a gap at place k and put id there. */
    method Insert(k: nat, id: EventId, ghost was: seq<EventId>)
      requires Valid() && was == level[..readyevents] && Absent(was, id) && k <= |was|
      modifies this`readyevents, level
      ensures Valid() && level[..readyevents] == was[..k] + [id] + was[k..]
    {
      RoomForOneMore(was, id);
      OpenGap(k);
      level[k] := id;
      readyevents := readyevents + 1;
      InsertDistinct(was, k, id);
      assert level[..readyevents] == was[..k] + [id] + was[k..];
    }

    /** Move the events from place k on one place up. */
    method OpenGap(k: nat)
      requires level.Length == MAXEVENTS && k <= readyevents < MAXEVENTS
      modifies level
      ensures forall j :: 0 <= j < k ==> level[j] == old(level[j])
      ensures forall j :: k < j <= readyevents ==> level[j] == old(level[j - 1])
    {
      var i := readyevents;
      while i > k
        invariant k <= i <= readyevents
        invariant forall j :: 0 <= j <= i ==> level[j] == old(level[j])
        invariant forall j :: i < j <= readyevents ==> level[j] == old(level[j - 1])
      {
        level[i] := level[i - 1];
        i := i - 1;
      }
    }

    /** What a callback asks for. */
    method Obey(call: Call)
      requires Valid()
      modifies this`readyevents, this`baseClock, this`remClock, level, item
      ensures Valid() && View() == Apply(old(View()), call)
    {
      match call
      case Set(id, eventclock, proc, absolute) => SetEvent(id, eventclock, proc, absolute);
      case Reset(id) => ResetEvent(id);
      case ForceExit => ForceExit();
    }

    /** item->proc(item) */
    method CallBack(calls: seq<Call>)
      requires Valid()
      modifies this`readyevents, this`baseClock, this`remClock, level, item
      ensures Valid() && View() == ApplyAll(old(View()), calls, |calls|)
    {
      for i := 0 to |calls|
        invariant Valid() && View() == ApplyAll(old(View()), calls, i)
      {
        Obey(calls[i]);
      }
    }

    /** Where the loop of nevent_progress stands after i events of the ready list of s. */
    ghost predicate Passed(s: State, i: nat, nEvents: nat, nextbase: int)
      requires |s.item| == MAXEVENTS
      reads this, level, waitevent, item
    {
      && level.Length == waitevent.Length == item.Length == MAXEVENTS && level != waitevent
      && nEvents <= i <= |s.level| == readyevents <= MAXEVENTS && waitevents <= MAXEVENTS && baseClock == s.base
      && level[..nEvents] == Later(s.level, s.item, s.base, i)
      && (forall j :: i <= j < readyevents ==> level[j] == s.level[j])
      && waitevent[..waitevents] == s.waiting + DueNow(s.level, s.item, s.base, i)
      && nextbase == NextBase(s.level, s.item, s.base, i)
      && (forall x: EventId :: item[x] == if IndexOf(s.level, x, 0) < i then Elapsed(s.item[x], s.base) else s.item[x])
    }

    /** One turn of that loop. */
    method Pass(ghost s: State, i: nat, nEvents0: nat, nextbase0: int) returns (nEvents: nat, nextbase: int)
      requires |s.item| == MAXEVENTS && Distinct(s.level) && i < |s.level| && RoomToWait(s)
      requires Passed(s, i, nEvents0, nextbase0)
      modifies this`waitevents, level, waitevent, item
      ensures Passed(s, i + 1, nEvents, nextbase)
    {
      hide Later, DueNow, NextBase, IndexOf;
      nEvents, nextbase := nEvents0, nextbase0;
      LaterOneMore(s, i);
      WaitOneMore(s, i);
      var id := level[i];
      assert id == s.level[i];
      OnePlace(s.level, i);
      assert item[id] == s.item[id];
      DueNowGrows(s.level, s.item, s.base, i + 1, |s.level|);
      item[id] := item[id].(clock := item[id].clock - baseClock);
      if item[id].clock > 0 {
        nEvents, nextbase := Stay(id, i, nEvents0, nextbase0);
        assert item[id] == Elapsed(s.item[id], s.base);
      } else {
        Fire(id);
        assert item[id] == Elapsed(s.item[id], s.base);
      }
    }

    /** An event is still to come: it moves to the front of the list, and the CPU is to stop for it. */
    method Stay(id: EventId, i: nat, nEvents0: nat, nextbase0: int) returns (nEvents: nat, nextbase: int)
      requires level.Length == item.Length == MAXEVENTS && nEvents0 <= i < readyevents <= MAXEVENTS
      modifies level
      ensures nEvents == nEvents0 + 1 && level[..nEvents] == old(level[..nEvents0]) + [id]
      ensures forall j :: i < j < readyevents ==> level[j] == old(level[j])
      ensures nextbase == if nextbase0 >= item[id].clock then item[id].clock else nextbase0
    {
      level[nEvents0] := id;
      nEvents, nextbase := nEvents0 + 1, nextbase0;
      if nextbase >= item[id].clock {
        nextbase := item[id].clock;
      }
    }

    /** An event is due: to the wait list, unless it is there already, and mark it. */
    method Fire(id: EventId)
      requires waitevent.Length == item.Length == MAXEVENTS && waitevents <= MAXEVENTS
      requires item[id].setEvent || item[id].wait || waitevents < MAXEVENTS
      modifies this`waitevents, waitevent, item
      ensures waitevents <= MAXEVENTS
      ensures waitevent[..waitevents] ==
        old(waitevent[..waitevents]) + if old(item[id].setEvent) || old(item[id].wait) then [] else [id]
      ensures item[id] == old(item[id]).(setEvent := true, enable := false)
      ensures forall x: EventId :: x != id ==> item[x] == old(item[x])
    {
      if !(item[id].setEvent || item[id].wait) {
        waitevent[waitevents] := id;
        waitevents := waitevents + 1;
      }
      item[id] := item[id].(setEvent := true, enable := false);
    }

    /** The whole loop. */
    method PassAll(ghost s: State) returns (nEvents: nat, nextbase: int)
      requires |s.item| == MAXEVENTS && Distinct(s.level) && RoomToWait(s) && Passed(s, 0, 0, MAXCLOCK)
      modifies this`waitevents, level, waitevent, item
      ensures Passed(s, |s.level|, nEvents, nextbase)
    {
      hide Later, DueNow, NextBase, Distinct, IndexOf, RoomToWait;
      nEvents, nextbase := 0, MAXCLOCK;
      for i := 0 to readyevents
        invariant Passed(s, i, nEvents, nextbase)
      {
        nEvents, nextbase := Pass(s, i, nEvents, nextbase);
      }
    }

    /** The first half of nevent_progress: CPU_BASECLOCK clocks go by. */
    method Advance()
      requires Valid() && RoomToWait(View())
      modifies this, level, waitevent, item
      ensures Valid() && View() == EventQueue.Advance(old(View()))
    {
      ghost var s := View();
      assert s.waiting + [] == s.waiting;
      WrapAround(clock, baseClock);
      cpuClock := (cpuClock + baseClock) % WORD32;
      clock := clock + baseClock;
      var nEvents, nextbase := PassAll(s);
      assert item[..] == EventQueue.Advance(s).item;
      LaterIsDistinct(s.level, s.item, s.base, |s.level|);
      assert waitevent[..waitevents] == s.waiting + DueNow(s.level, s.item, s.base, |s.level|);
      readyevents := nEvents;
      baseClock := nextbase;
      remClock := remClock + nextbase;
    }

    /** Where nevent_execute stands after k of the events waiting in s, and the record so far. */
    ghost predicate Executed(s: State, scripts: Scripts, k: nat, nEvents: nat, log: seq<Dispatch>)
      reads this, level, waitevent, item
    {
      && Valid() && |s.item| == MAXEVENTS && nEvents <= k <= |s.waiting| == waitevents
      && View().(waiting := s.waiting) == Dispatched(s, scripts, k)
      && waitevent[..nEvents] == CarriedOver(s, scripts, k)
      && waitevent[k..waitevents] == s.waiting[k..]
      && log == DispatchLog(s, scripts, k)
    }

    /** One turn of nevent_execute: run the callback, keep the event if it asks to wait. */
    method DispatchNext(ghost s: State, scripts: Scripts, k: nat, nEvents0: nat, log0: seq<Dispatch>)
      returns (nEvents: nat, log: seq<Dispatch>)
      requires Executed(s, scripts, k, nEvents0, log0) && k < waitevents
      modifies this`readyevents, this`baseClock, this`remClock, level, waitevent, item
      ensures Executed(s, scripts, k + 1, nEvents, log)
    {
      nEvents := nEvents0;
      var id := waitevent[k];
      ghost var t := Dispatched(s, scripts, k);
      assert id == s.waiting[k] && waitevent[k + 1..waitevents] == s.waiting[k + 1..];
      log := log0 + [Dispatch(id, item[id].proc)];
      if item[id].proc != NoProc {
        ApplyAllIgnoresWaiting(View(), scripts[id], |scripts[id]|, s.waiting);
        CallBack(scripts[id]);
        assert View().(waiting := s.waiting) == RunCallback(t, scripts, id);
        if item[id].wait {
          waitevent[nEvents] := id;
          nEvents := nEvents + 1;
        }
      } else {
        item[id] := item[id].(wait := false);
      }
      Unmark(id);
    }

    /** item->flag &= ~(NEVENT_SETEVENT) */
    method Unmark(id: EventId)
      requires Valid()
      modifies item
      ensures Valid() && View() == Unmarked(old(View()), id)
    {
      item[id] := item[id].(setEvent := false);
    }

    /** nevent_execute */
    method Execute(scripts: Scripts) returns (log: seq<Dispatch>)
      requires Valid()
      modifies this, level, waitevent, item
      ensures Valid() && View() == EventQueue.Execute(old(View()), scripts)
      ensures log == DispatchLog(old(View()), scripts, old(waitevents))
    {
      ghost var s := View();
      var nEvents;
      nEvents, log := DispatchEach(s, scripts);
      waitevents := nEvents;
    }

    method DispatchEach(ghost s: State, scripts: Scripts) returns (nEvents: nat, log: seq<Dispatch>)
      requires Valid() && s == View()
      modifies this`readyevents, this`baseClock, this`remClock, level, waitevent, item
      ensures Executed(s, scripts, waitevents, nEvents, log)
    {
      nEvents, log := 0, [];
      for i := 0 to waitevents
        invariant Executed(s, scripts, i, nEvents, log)
      {
        nEvents, log := DispatchNext(s, scripts, i, nEvents, log);
      }
    }

    /** nevent_progress; log records the callbacks in the order they ran. */
    method Progress(scripts: Scripts) returns (log: seq<Dispatch>)
      requires Valid() && RoomToWait(View())
      modifies this, level, waitevent, item
      ensures Valid() && View() == EventQueue.Progress(old(View()), scripts)
      ensures log == ProgressLog(old(View()), scripts)
    {
      Advance();
      log := Execute(scripts);
    }

    /** nevent_changeclock */
    method ChangeClock(oldclock: nat, newclock: nat)
      requires Valid()
      modifies this`baseClock, this`remClock, item
      ensures Valid() && View() == EventQueue.ChangeClock(old(View()), oldclock, newclock)
    {
      ghost var s := View();
      if oldclock > 0 && readyevents > 0 {
        RescaleAll(oldclock, newclock);
        assert item[..] == EventQueue.ChangeClock(s, oldclock, newclock).item;
        if baseClock == remClock {
          baseClock := item[level[0]].clock;
          remClock := baseClock;
        } else {
          baseClock := ToSint32(Quotient(baseClock * newclock + oldclock / 2, oldclock));
          remClock := ToSint32(Quotient(remClock * newclock + oldclock / 2, oldclock));
        }
      }
    }

    method RescaleAll(oldclock: nat, newclock: nat)
      requires Valid() && oldclock > 0
      modifies item
      ensures forall x: EventId :: item[x] == if Works(level[..readyevents], x)
        then old(item[x]).(clock := Rescaled(old(item[x]).clock, oldclock, newclock)) else old(item[x])
    {
      hide Rescaled;
      ghost var s := View();
      for i := 0 to readyevents
        invariant forall x: EventId :: item[x] == if IndexOf(s.level, x, 0) < i
          then s.item[x].(clock := Rescaled(s.item[x].clock, oldclock, newclock)) else s.item[x]
      {
        OnePlace(s.level, i);
        RescaleItem(level[i], oldclock, newclock);
      }
    }

    method RescaleItem(id: EventId, oldclock: nat, newclock: nat)
      requires Valid() && oldclock > 0
      modifies item
      ensures forall x: EventId :: item[x] == if x == id
        then old(item[x]).(clock := Rescaled(old(item[x]).clock, oldclock, newclock)) else old(item[x])
    {
      if item[id].clock > 0 {
        var newClock := Quotient(item[id].clock * newclock + oldclock / 2, oldclock);
        if newClock <= 0 { newClock := 1; }
        if newClock > INT_MAX { newClock := INT_MAX; }
        item[id] := item[id].(clock := newClock);
      }
    }
  }
}
