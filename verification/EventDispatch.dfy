/** What nevent_progress promises: time moves on by a slice, and exactly the events that have fallen due are
    dispatched, once each, in order, whatever their callbacks schedule meanwhile. */
module EventDispatch {
  import opened EventQueue
  import opened EventProofs

  // ---------------------------------------------------------------- nevent_progress: time moves on

  /** How many events are due by the end of the current slice of CPU_BASECLOCK clocks. */
  function DueCount(s: State): (n: nat)
    requires |s.item| == MAXEVENTS
    ensures n <= |s.level|
  {
    InsertAt(s.level, s.item, s.base, 0)
  }

  /** In due order, the events not later than the slice are exactly the first DueCount ones. The head is
      late by what the CPU has run past it, the others by no more. */
  lemma DueCountSplits(s: State)
    requires InOrder(s)
    ensures forall i :: 0 <= i < DueCount(s) ==> s.base - Overrun(s) <= s.item[s.level[i]].clock <= s.base
    ensures forall i :: DueCount(s) <= i < |s.level| ==> s.base < s.item[s.level[i]].clock
    ensures DueCount(s) > 0 ==> s.item[s.level[0]].clock == s.base - Overrun(s)
  {
    InsertAtSplits(s.level, s.item, s.base);
    forall i | 0 <= i < DueCount(s) ensures s.base - Overrun(s) <= s.item[s.level[i]].clock {
      assert i == 0 || s.item[s.level[0]].clock <= s.item[s.level[i]].clock;
    }
  }

  lemma {:induction false} LaterIsSuffix(level: seq<EventId>, item: seq<Item>, base: int, n: nat, m: nat)
    requires |item| == MAXEVENTS && n <= m <= |level|
    requires forall i :: 0 <= i < n ==> item[level[i]].clock <= base
    requires forall i :: n <= i < |level| ==> base < item[level[i]].clock
    ensures Later(level, item, base, m) == level[n..m]
    decreases m
  {
    if m > n {
      LaterIsSuffix(level, item, base, n, m - 1);
      assert level[n..m] == level[n..m - 1] + [level[m - 1]];
    } else {
      NothingLater(level, item, base, m);
    }
  }

  lemma {:induction false} NothingLater(level: seq<EventId>, item: seq<Item>, base: int, m: nat)
    requires |item| == MAXEVENTS && m <= |level|
    requires forall i :: 0 <= i < m ==> item[level[i]].clock <= base
    ensures Later(level, item, base, m) == []
  {
    if m > 0 { NothingLater(level, item, base, m - 1); }
  }

  lemma {:induction false} DueNowIsPrefix(level: seq<EventId>, item: seq<Item>, base: int, n: nat, m: nat)
    requires |item| == MAXEVENTS && n <= m <= |level|
    requires forall i :: 0 <= i < n ==> item[level[i]].clock <= base
    requires forall i :: n <= i < |level| ==> base < item[level[i]].clock
    requires forall i :: 0 <= i < |level| ==> !item[level[i]].setEvent && !item[level[i]].wait
    ensures DueNow(level, item, base, m) == level[..n]
    decreases m
  {
    if m > n {
      DueNowIsPrefix(level, item, base, n, m - 1);
    } else if n > 0 {
      AllDueNow(level, item, base, n);
    }
  }

  lemma {:induction false} AllDueNow(level: seq<EventId>, item: seq<Item>, base: int, m: nat)
    requires |item| == MAXEVENTS && m <= |level|
    requires forall i :: 0 <= i < m ==> item[level[i]].clock <= base
    requires forall i :: 0 <= i < |level| ==> !item[level[i]].setEvent && !item[level[i]].wait
    ensures DueNow(level, item, base, m) == level[..m]
  {
    if m > 0 {
      AllDueNow(level, item, base, m - 1);
      assert level[..m] == level[..m - 1] + [level[m - 1]];
    }
  }

  lemma {:induction false} NextBaseIsSafe(level: seq<EventId>, item: seq<Item>, base: int, n: nat)
    requires |item| == MAXEVENTS && n <= |level|
    ensures 0 < NextBase(level, item, base, n) <= MAXCLOCK
    ensures forall i :: 0 <= i < n && base < item[level[i]].clock ==>
      NextBase(level, item, base, n) <= item[level[i]].clock - base
  {
    if n > 0 { NextBaseIsSafe(level, item, base, n - 1); }
  }

  /** The events due move to the wait list, in order; the others stay, in order. */
  lemma AdvanceMoves(s: State)
    requires Resting(s)
    ensures Advance(s).level == s.level[DueCount(s)..]
    ensures Advance(s).waiting == s.level[..DueCount(s)]
    ensures Now(Advance(s)) == Now(s)
  {
    hide Later, DueNow, NextBase, DueCount, Sorted, Distinct;
    var n := |s.level|;
    DueCountSplits(s);
    LaterIsSuffix(s.level, s.item, s.base, DueCount(s), n);
    DueNowIsPrefix(s.level, s.item, s.base, DueCount(s), n);
    assert s.level[DueCount(s)..n] == s.level[DueCount(s)..];
    assert Advance(s).waiting == [] + s.level[..DueCount(s)];
  }

  lemma Listed(level: seq<EventId>, i: nat)
    requires i < |level|
    ensures Works(level, level[i])
  {
  }

  lemma AdvanceKeepsDue(s: State, x: EventId)
    requires |s.item| == MAXEVENTS
    ensures Works(s.level, x) ==> Due(Advance(s), x) == Due(s, x)
    ensures Advance(s).item[x].proc == s.item[x].proc && Advance(s).item[x].wait == s.item[x].wait
  {
  }

  lemma AdvanceItem(s: State, i: nat)
    requires InOrder(s) && i < |s.level|
    ensures Advance(s).item[s.level[i]] == Elapsed(s.item[s.level[i]], s.base)
  {
    assert Works(s.level, s.level[i]);
  }

  lemma AdvanceMarksWaiting(s: State, x: EventId)
    requires Resting(s) && Advance(s).item[x].setEvent
    ensures Works(s.level[..DueCount(s)], x)
  {
    var p := IndexOf(s.level, x, 0);
    DueCountSplits(s);
    assert p < DueCount(s);
    assert s.level[..DueCount(s)][p] == x;
  }

  lemma AdvanceItems(s: State)
    requires Resting(s)
    ensures var r, n := Advance(s), DueCount(s);
      |r.level| == |s.level| - n && forall i :: 0 <= i < |r.level| ==>
        r.item[r.level[i]].clock == s.item[s.level[n + i]].clock - s.base > 0 && !r.item[r.level[i]].setEvent
  {
    hide Advance, DueCount, Sorted, Distinct, Overrun;
    var r, n := Advance(s), DueCount(s);
    AdvanceMoves(s);
    DueCountSplits(s);
    forall i | 0 <= i < |r.level|
      ensures r.item[r.level[i]].clock == s.item[s.level[n + i]].clock - s.base > 0 && !r.item[r.level[i]].setEvent
    {
      AdvanceItem(s, n + i);
    }
  }

  lemma AdvanceKeepsInOrder(s: State)
    requires Resting(s)
    ensures InOrder(Advance(s))
  {
    var r, n := Advance(s), DueCount(s);
    AdvanceMoves(s);
    AdvanceItems(s);
    forall i, j | 0 <= i < j < |r.level| ensures r.item[r.level[i]].clock <= r.item[r.level[j]].clock {
      assert s.item[s.level[n + i]].clock <= s.item[s.level[n + j]].clock;
    }
    forall x: EventId ensures !r.item[x].wait { AdvanceKeepsDue(s, x); }
  }

  /** Whatever the CPU was set to do, it is not set to run past the next head. */
  lemma AdvanceKeepsQueued(s: State)
    requires Resting(s)
    ensures Queued(Advance(s))
  {
    assert |s.item| == MAXEVENTS;
    hide InOrder;
    AdvanceKeepsInOrder(s);
    AdvanceMoves(s);
    AdvanceItems(s);
    NextBaseIsSafe(s.level, s.item, s.base, |s.level|);
  }

  lemma {:induction false} NextBaseAt(level: seq<EventId>, item: seq<Item>, base: int, k: nat, n: nat)
    requires |item| == MAXEVENTS && k <= n <= |level| && Sorted(level, item)
    requires forall i :: 0 <= i < k ==> item[level[i]].clock <= base
    requires forall i :: k <= i < |level| ==> base < item[level[i]].clock
    ensures NextBase(level, item, base, n) ==
      if k == n || item[level[k]].clock - base > MAXCLOCK then MAXCLOCK else item[level[k]].clock - base
    decreases n
  {
    if n > k { NextBaseAt(level, item, base, k, n - 1); } else if n > 0 { NextBasePast(level, item, base, n); }
  }

  lemma {:induction false} NextBasePast(level: seq<EventId>, item: seq<Item>, base: int, n: nat)
    requires |item| == MAXEVENTS && n <= |level| && forall i :: 0 <= i < n ==> item[level[i]].clock <= base
    ensures NextBase(level, item, base, n) == MAXCLOCK
  {
    if n > 0 { NextBasePast(level, item, base, n - 1); }
  }

  /** Then the CPU runs exactly to the nearest event left, or MAXCLOCK clocks if that is nearer, counting from the
      new CPU_CLOCK; what it has overshot is taken off. */
  lemma AdvanceStops(s: State)
    requires Resting(s)
    ensures var r := Advance(s);
      && r.cpuClock == s.cpuClock + s.base && r.rem == s.rem + r.base
      && r.base == if r.level == [] || r.item[r.level[0]].clock > 0x40_0000 then 0x40_0000
                   else r.item[r.level[0]].clock
  {
    hide Later, DueNow, NextBase, DueCount, Distinct;
    AdvanceMoves(s);
    AdvanceItems(s);
    DueCountSplits(s);
    NextBaseAt(s.level, s.item, s.base, DueCount(s), |s.level|);
  }

  /** What it leaves of each event: a queued one has its clock moved, a due one is marked and disabled; the rest
      of it, and the others, stay as they are. */
  lemma AdvanceMarks(s: State, x: EventId)
    requires Resting(s)
    ensures var was, r := s.item[x], Advance(s).item[x];
      if !Works(s.level, x) then r == was
      else if was.clock > s.base then r == was.(clock := was.clock - s.base)
      else r == was.(clock := was.clock - s.base, setEvent := true, enable := false)
  {
  }

  // ---------------------------------------------------------------- nevent_execute

  /** All events the callbacks of the first k waiting events mention. */
  function Disturbed(waiting: seq<EventId>, scripts: Scripts, k: nat): set<EventId>
    requires k <= |waiting|
  {
    if k == 0 then {} else
      Disturbed(waiting, scripts, k - 1) + Mentioned(scripts[waiting[k - 1]], |scripts[waiting[k - 1]]|)
  }

  lemma UnmarkedKeepsQueued(s: State, id: EventId)
    requires Queued(s)
    ensures Queued(Unmarked(s, id))
  {
    var item := Unmarked(s, id).item;
    assert forall x: EventId :: item[x].clock == s.item[x].clock;
  }

  lemma DispatchOneKeepsQueued(s: State, scripts: Scripts, id: EventId)
    requires Queued(s)
    ensures Queued(RunCallback(s, scripts, id))
    ensures DispatchOne(s, scripts, id)
      == Unmarked(if s.item[id].proc == NoProc then s else RunCallback(s, scripts, id), id)
    ensures Queued(DispatchOne(s, scripts, id))
  {
    ApplyAllTouches(s, scripts[id], |scripts[id]|, Mentioned(scripts[id], |scripts[id]|));
    UnmarkedKeepsQueued(if s.item[id].proc == NoProc then s else RunCallback(s, scripts, id), id);
    assert s.item[id := s.item[id].(wait := false)] == s.item;
  }

  lemma UnmarkedTouches(s: State, id: EventId, ids: set<EventId>)
    requires |s.item| == MAXEVENTS
    ensures TouchesOnly(s, Unmarked(s, id), ids)
  {
  }

  lemma DispatchOneTouches(s: State, scripts: Scripts, id: EventId, ids: set<EventId>)
    requires Queued(s) && Mentioned(scripts[id], |scripts[id]|) <= ids
    ensures TouchesOnly(s, DispatchOne(s, scripts, id), ids)
  {
    var t := if s.item[id].proc == NoProc then s else RunCallback(s, scripts, id);
    DispatchOneKeepsQueued(s, scripts, id);
    ApplyAllTouches(s, scripts[id], |scripts[id]|, ids);
    UnmarkedTouches(t, id, ids);
    if s.item[id].proc != NoProc {
      TouchesCompose(s, t, Unmarked(t, id), ids);
    }
  }

  /** Dispatching, whatever the callbacks schedule, touches only the events they mention. */
  lemma {:induction false} DispatchTouches(s: State, scripts: Scripts, k: nat, ids: set<EventId>)
    requires Queued(s) && k <= |s.waiting| && Disturbed(s.waiting, scripts, k) <= ids
    ensures TouchesOnly(s, Dispatched(s, scripts, k), ids) && Queued(Dispatched(s, scripts, k))
  {
    if k > 0 {
      var id, t := s.waiting[k - 1], Dispatched(s, scripts, k - 1);
      DispatchTouches(s, scripts, k - 1, ids);
      DispatchOneKeepsQueued(t, scripts, id);
      DispatchOneTouches(t, scripts, id, ids);
      TouchesCompose(s, t, DispatchOne(t, scripts, id), ids);
    }
  }

  /** No dispatched event stays marked as fired, and nothing is carried over to the next round. */
  lemma {:induction false} DispatchClears(s: State, scripts: Scripts, k: nat, i: nat)
    requires Queued(s) && i < k <= |s.waiting|
    ensures !Dispatched(s, scripts, k).item[s.waiting[i]].setEvent
  {
    var t, id := Dispatched(s, scripts, k - 1), s.waiting[k - 1];
    DispatchTouches(s, scripts, k - 1, Disturbed(s.waiting, scripts, k - 1));
    DispatchOneTouches(t, scripts, id, Mentioned(scripts[id], |scripts[id]|));
    if i < k - 1 { DispatchClears(s, scripts, k - 1, i); }
  }

  /** The k-th callback leaves its event to be carried over. */
  predicate AsksToWait(s: State, scripts: Scripts, k: nat)
    requires |s.item| == MAXEVENTS && k < |s.waiting|
  {
    RunCallback(Dispatched(s, scripts, k), scripts, s.waiting[k]).item[s.waiting[k]].wait
  }

  lemma CallbackNeverWaits(s: State, scripts: Scripts, k: nat)
    requires Queued(s) && k < |s.waiting|
    ensures !AsksToWait(s, scripts, k)
  {
    DispatchTouches(s, scripts, k, Disturbed(s.waiting, scripts, k));
    DispatchOneKeepsQueued(Dispatched(s, scripts, k), scripts, s.waiting[k]);
  }

  lemma {:induction false} CarriesNothing(s: State, scripts: Scripts, k: nat)
    requires |s.item| == MAXEVENTS && k <= |s.waiting|
    requires forall i :: 0 <= i < k ==> !AsksToWait(s, scripts, i)
    ensures CarriedOver(s, scripts, k) == []
  {
    hide RunCallback, Dispatched;
    if k > 0 {
      assert !AsksToWait(s, scripts, k - 1);
      CarriesNothing(s, scripts, k - 1);
    }
  }

  lemma NothingCarriedOver(s: State, scripts: Scripts, k: nat)
    requires Queued(s) && k <= |s.waiting|
    ensures CarriedOver(s, scripts, k) == []
  {
    assert |s.item| == MAXEVENTS;
    hide Queued, CarriedOver, AsksToWait;
    forall i | 0 <= i < k ensures !AsksToWait(s, scripts, i) { CallbackNeverWaits(s, scripts, i); }
    CarriesNothing(s, scripts, k);
  }

  lemma UndisturbedKeepsProc(s: State, scripts: Scripts, k: nat, x: EventId)
    requires Queued(s) && k <= |s.waiting| && x !in Disturbed(s.waiting, scripts, k)
    ensures Dispatched(s, scripts, k).item[x].proc == s.item[x].proc
  {
    hide Queued, Dispatched, Omit, Now, Disturbed;
    DispatchTouches(s, scripts, k, Disturbed(s.waiting, scripts, k));
  }

  lemma {:induction false} LogEntry(s: State, scripts: Scripts, k: nat, i: nat)
    requires |s.item| == MAXEVENTS && i < k <= |s.waiting|
    ensures DispatchLog(s, scripts, k)[i] ==
      Dispatch(s.waiting[i], Dispatched(s, scripts, i).item[s.waiting[i]].proc)
  {
    hide Dispatched;
    if i < k - 1 { LogEntry(s, scripts, k - 1, i); }
  }

  /** The dispatch record follows the wait list, and an event that no earlier callback mentions
      runs the callback it had when the round began. */
  lemma LogFollowsWaitList(s: State, scripts: Scripts, k: nat, i: nat)
    requires Queued(s) && i < k <= |s.waiting|
    ensures DispatchLog(s, scripts, k)[i].id == s.waiting[i]
    ensures s.waiting[i] !in Disturbed(s.waiting, scripts, i) ==>
      DispatchLog(s, scripts, k)[i].proc == s.item[s.waiting[i]].proc
  {
    assert |s.item| == MAXEVENTS;
    hide Queued, Dispatched, Disturbed, DispatchLog;
    LogEntry(s, scripts, k, i);
    if s.waiting[i] !in Disturbed(s.waiting, scripts, i) { UndisturbedKeepsProc(s, scripts, i, s.waiting[i]); }
  }

  // ---------------------------------------------------------------- one whole nevent_progress

  lemma ProgressDispatchesAll(s: State, scripts: Scripts)
    requires Resting(s)
    ensures var a, r := Advance(s), Dispatched(Advance(s), scripts, |Advance(s).waiting|);
      && a.waiting == s.level[..DueCount(s)] && Queued(a) && Queued(r) && Now(r) == Now(s)
      && Progress(s, scripts) == r.(waiting := [])
  {
    var a := Advance(s);
    AdvanceMoves(s);
    AdvanceKeepsQueued(s);
    DispatchTouches(a, scripts, |a.waiting|, Disturbed(a.waiting, scripts, |a.waiting|));
    NothingCarriedOver(a, scripts, |a.waiting|);
  }

  /** One nevent_progress restores the invariant, wherever the CPU was set to run. */
  lemma ProgressRestores(s: State, scripts: Scripts)
    requires Resting(s)
    ensures Idle(Progress(s, scripts)) && Now(Progress(s, scripts)) == Now(s)
  {
    hide Progress, Dispatched, Advance;
    ProgressDispatchesAll(s, scripts);
    forall x: EventId ensures !Progress(s, scripts).item[x].setEvent { MarkIsCleared(s, scripts, x); }
  }

  lemma MarkIsCleared(s: State, scripts: Scripts, x: EventId)
    requires Resting(s)
    ensures |Advance(s).waiting| == DueCount(s) && !Dispatched(Advance(s), scripts, DueCount(s)).item[x].setEvent
  {
    var a, n := Advance(s), DueCount(s);
    AdvanceMoves(s);
    AdvanceKeepsQueued(s);
    if a.item[x].setEvent {
      AdvanceMarksWaiting(s, x);
      DispatchClears(a, scripts, n, IndexOf(a.waiting, x, 0));
    } else {
      DispatchTouches(a, scripts, n, Disturbed(a.waiting, scripts, n));
    }
  }

  /** One nevent_progress, for any callbacks, wherever the CPU was set to run. With t the new CPU_CLOCK
      and n the number of events due by t: the dispatch record names exactly the first n events of the
      ready list, once each and in that order, and everything behind them is due later. The first is late
      by exactly what the CPU has run past it and none by more, so all are due exactly at t if and only
      if the CPU has not run past the head. */
  lemma ProgressDispatches(s: State, scripts: Scripts)
    requires Resting(s)
    ensures var log, n, t := ProgressLog(s, scripts), DueCount(s), s.cpuClock + s.base;
      && Progress(s, scripts).cpuClock == t && |log| == n
      && (forall i :: 0 <= i < n ==> log[i].id == s.level[i] && t - Overrun(s) <= Due(s, s.level[i]) <= t)
      && (n > 0 ==> Due(s, s.level[0]) == t - Overrun(s))
      && (forall i :: n <= i < |s.level| ==> t < Due(s, s.level[i]))
  {
    var n := DueCount(s);
    AdvanceMoves(s);
    AdvanceKeepsQueued(s);
    DueCountSplits(s);
    forall i | 0 <= i < n ensures ProgressLog(s, scripts)[i].id == s.level[i] {
      LogFollowsWaitList(Advance(s), scripts, n, i);
    }
  }

  /** An event that no callback dispatched before it mentions runs the callback it was queued with. */
  lemma ProgressRunsQueuedCallback(s: State, scripts: Scripts, i: nat)
    requires Resting(s) && i < DueCount(s)
    requires s.level[i] !in Disturbed(s.level[..DueCount(s)], scripts, i)
    ensures i < |ProgressLog(s, scripts)| && ProgressLog(s, scripts)[i] == Dispatch(s.level[i], s.item[s.level[i]].proc)
  {
    AdvanceMoves(s);
    AdvanceKeepsQueued(s);
    LogFollowsWaitList(Advance(s), scripts, DueCount(s), i);
    AdvanceKeepsDue(s, s.level[i]);
  }

  /** Every event that is not itself due and that no dispatched callback mentions stays queued at
      the same due time, in the same order. */
  lemma ProgressLeavesOthers(s: State, scripts: Scripts)
    requires Resting(s)
    ensures var n, r := DueCount(s), Progress(s, scripts);
      var ids := Disturbed(s.level[..n], scripts, n);
      && Omit(r.level, ids) == Omit(s.level[n..], ids)
      && (forall i :: n <= i < |s.level| && s.level[i] !in ids ==> Due(r, s.level[i]) == Due(s, s.level[i]))
  {
    hide Advance, Dispatched, Omit, IndexOf;
    var a, n := Advance(s), DueCount(s);
    AdvanceMoves(s);
    AdvanceKeepsQueued(s);
    DispatchTouches(a, scripts, n, Disturbed(a.waiting, scripts, n));
    forall i | 0 <= i < |s.level| ensures Due(a, s.level[i]) == Due(s, s.level[i]) {
      Listed(s.level, i);
      AdvanceKeepsDue(s, s.level[i]);
    }
  }
}
