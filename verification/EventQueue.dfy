/** The scheduler of nevent.c on values: what every operation does to the ready list,
    the items and the three CPU counters. Class Scheduler.Nevent works in place on arrays and
    is proved to compute these functions; what they promise is proved in EventProofs, EventDispatch,
    EventRuns and EventPeriods. */
module EventQueue {
  import opened CInt

  const MAXCLOCK := 0x400000
  const MAXEVENTS := 35
  const INT_MAX := 0x7fff_ffff

  type EventId = i: int | 0 <= i < MAXEVENTS

  /** A callback pointer: a function, or NULL. */
  datatype Proc = NoProc | Proc(address: nat)

  /** One event: clocks until it is due counted from CPU_CLOCK, the three flag bits, the callback. */
  datatype Item = Item(clock: int, enable: bool, setEvent: bool, wait: bool, proc: Proc)

  /** level is the ready list, waiting the list of events whose callbacks are about to run. */
  datatype State = State(level: seq<EventId>, waiting: seq<EventId>, item: seq<Item>,
                         cpuClock: int, base: int, rem: int)

  /** What a callback may ask of the scheduler while events are being dispatched. */
  datatype Call =
    | Set(id: EventId, eventclock: int, proc: Proc, absolute: bool)
    | Reset(id: EventId)
    | ForceExit

  /** scripts[id] lists the calls the callback of event id makes, in order. */
  type Scripts = s: seq<seq<Call>> | |s| == MAXEVENTS witness seq(MAXEVENTS, i => [])

  /** An entry of the dispatch record: the event taken from the wait list and its callback then. */
  datatype Dispatch = Dispatch(id: EventId, proc: Proc)

  // ---------------------------------------------------------------- the operations

  /** Where id stands in the ready list, searching from i; |level| if it is not there. */
  function IndexOf(level: seq<EventId>, id: EventId, i: nat): (p: nat)
    requires i <= |level|
    ensures i <= p <= |level|
    ensures p < |level| ==> level[p] == id
    ensures forall j :: i <= j < p ==> level[j] != id
    decreases |level| - i
  {
    if i == |level| || level[i] == id then i else IndexOf(level, id, i + 1)
  }

  /** What nevent_iswork answers: whether id is in the ready list. */
  predicate Works(level: seq<EventId>, id: EventId)
  {
    IndexOf(level, id, 0) < |level|
  }

  /** The ready list without id. */
  function Without(level: seq<EventId>, id: EventId): seq<EventId>
  {
    var p := IndexOf(level, id, 0);
    if p < |level| then level[..p] + level[p + 1..] else level
  }

  /** Where nevent_set inserts: before the first event, from i on, that is later than clock. */
  function InsertAt(level: seq<EventId>, item: seq<Item>, clock: int, i: nat): (k: nat)
    requires |item| == MAXEVENTS && i <= |level|
    ensures i <= k <= |level|
    ensures k < |level| ==> clock < item[level[k]].clock
    ensures forall j :: i <= j < k ==> item[level[j]].clock <= clock
    decreases |level| - i
  {
    if i == |level| || clock < item[level[i]].clock then i else InsertAt(level, item, clock, i + 1)
  }

  function SetClock(s: State, id: EventId, eventclock: int, absolute: bool): int
    requires |s.item| == MAXEVENTS
  {
    if absolute then eventclock + (s.base - s.rem) else s.item[id].clock + eventclock
  }

  /** The event id, whose item is written and which is not in the list, put in its place; if that
      is the head, the counters are moved so that the CPU stops there. */
  function Place(s: State, id: EventId): (r: State)
    requires |s.item| == MAXEVENTS
    ensures |r.item| == MAXEVENTS
  {
    var clock := s.item[id].clock;
    var k := InsertAt(s.level, s.item, clock, 0);
    var late := if k == 0 then s.base - clock else 0;
    s.(level := s.level[..k] + [id] + s.level[k..], base := s.base - late, rem := s.rem - late)
  }

  function SetEvent(s: State, id: EventId, eventclock: int, proc: Proc, absolute: bool): (r: State)
    requires |s.item| == MAXEVENTS
    ensures |r.item| == MAXEVENTS
  {
    var item := Item(SetClock(s, id, eventclock, absolute), false, false, false, proc);
    Place(s.(item := s.item[id := item], level := Without(s.level, id)), id)
  }

  function ResetEvent(s: State, id: EventId): State
  {
    s.(level := Without(s.level, id))
  }

  function ExitNow(s: State): State
  {
    if s.rem > 0 then s.(base := s.base - s.rem, rem := 0) else s
  }

  /** REMAIN_ADJUST of the CPU core: CPU_REMCLOCK becomes c, and the end of the slice moves with it. */
  function AdjustRemain(s: State, c: int): State
  {
    s.(base := s.base + (c - s.rem), rem := c)
  }

  /** NEXT_OPCODE of the CPU core: one more instruction runs before the slice ends. */
  function NextOpcode(s: State): State
  {
    if s.rem < 1 then AdjustRemain(s, 1) else s
  }

  function Apply(s: State, call: Call): (r: State)
    requires |s.item| == MAXEVENTS
    ensures |r.item| == MAXEVENTS && r.waiting == s.waiting && r.cpuClock == s.cpuClock
  {
    match call
    case Set(id, eventclock, proc, absolute) => SetEvent(s, id, eventclock, proc, absolute)
    case Reset(id) => ResetEvent(s, id)
    case ForceExit => ExitNow(s)
  }

  /** The first n calls of a callback, one after another. */
  function ApplyAll(s: State, calls: seq<Call>, n: nat): (r: State)
    requires |s.item| == MAXEVENTS && n <= |calls|
    ensures |r.item| == MAXEVENTS && r.waiting == s.waiting && r.cpuClock == s.cpuClock
  {
    if n == 0 then s else Apply(ApplyAll(s, calls, n - 1), calls[n - 1])
  }

  /** The callback of event id, run to its end. */
  function RunCallback(s: State, scripts: Scripts, id: EventId): (r: State)
    requires |s.item| == MAXEVENTS
    ensures |r.item| == MAXEVENTS && r.waiting == s.waiting && r.cpuClock == s.cpuClock
  {
    ApplyAll(s, scripts[id], |scripts[id]|)
  }

  /** The event as nevent_progress leaves it, once CPU_BASECLOCK clocks have gone by. */
  function Elapsed(x: Item, base: int): Item
  {
    if x.clock - base > 0 then x.(clock := x.clock - base)
    else x.(clock := x.clock - base, setEvent := true, enable := false)
  }

  /** Of the first n events, those still in the future, and those that fall due. */
  function Later(level: seq<EventId>, item: seq<Item>, base: int, n: nat): (r: seq<EventId>)
    requires |item| == MAXEVENTS && n <= |level|
    ensures |r| <= n
  {
    if n == 0 then [] else
      Later(level, item, base, n - 1) + if item[level[n - 1]].clock - base > 0 then [level[n - 1]] else []
  }

  function DueNow(level: seq<EventId>, item: seq<Item>, base: int, n: nat): (r: seq<EventId>)
    requires |item| == MAXEVENTS && n <= |level|
    ensures |r| <= n
  {
    if n == 0 then [] else
      var x := item[level[n - 1]];
      DueNow(level, item, base, n - 1) + if x.clock - base > 0 || x.setEvent || x.wait then [] else [level[n - 1]]
  }

  /** The next stop of the CPU: the nearest remaining event, or MAXCLOCK clocks. */
  function NextBase(level: seq<EventId>, item: seq<Item>, base: int, n: nat): int
    requires |item| == MAXEVENTS && n <= |level|
  {
    if n == 0 then MAXCLOCK else
      var next, c := NextBase(level, item, base, n - 1), item[level[n - 1]].clock - base;
      if 0 < c <= next then c else next
  }

  /** The loop of nevent_progress: time moves on by CPU_BASECLOCK, due events move to the wait list. */
  function Advance(s: State): (r: State)
    requires |s.item| == MAXEVENTS
    ensures |r.item| == MAXEVENTS
  {
    var next := NextBase(s.level, s.item, s.base, |s.level|);
    State(Later(s.level, s.item, s.base, |s.level|),
          s.waiting + DueNow(s.level, s.item, s.base, |s.level|),
          seq(MAXEVENTS, i requires 0 <= i < MAXEVENTS =>
            if Works(s.level, i) then Elapsed(s.item[i], s.base) else s.item[i]),
          s.cpuClock + s.base, next, s.rem + next)
  }

  /** The state with the fired mark of one event taken off. */
  function Unmarked(s: State, id: EventId): (r: State)
    requires |s.item| == MAXEVENTS
    ensures |r.item| == MAXEVENTS && r.waiting == s.waiting && r.cpuClock == s.cpuClock
  {
    s.(item := s.item[id := s.item[id].(setEvent := false)])
  }

  /** One turn of nevent_execute for event id. */
  function DispatchOne(s: State, scripts: Scripts, id: EventId): (r: State)
    requires |s.item| == MAXEVENTS
    ensures |r.item| == MAXEVENTS && r.waiting == s.waiting && r.cpuClock == s.cpuClock
  {
    if s.item[id].proc != NoProc then Unmarked(RunCallback(s, scripts, id), id)
    else Unmarked(s.(item := s.item[id := s.item[id].(wait := false)]), id)
  }

  /** After the first k events of the wait list have been dispatched. */
  function Dispatched(s: State, scripts: Scripts, k: nat): (r: State)
    requires |s.item| == MAXEVENTS && k <= |s.waiting|
    ensures |r.item| == MAXEVENTS && r.waiting == s.waiting && r.cpuClock == s.cpuClock
  {
    if k == 0 then s else DispatchOne(Dispatched(s, scripts, k - 1), scripts, s.waiting[k - 1])
  }

  function DispatchLog(s: State, scripts: Scripts, k: nat): (log: seq<Dispatch>)
    requires |s.item| == MAXEVENTS && k <= |s.waiting|
    ensures |log| == k
  {
    if k == 0 then [] else
      var id := s.waiting[k - 1];
      DispatchLog(s, scripts, k - 1) + [Dispatch(id, Dispatched(s, scripts, k - 1).item[id].proc)]
  }

  /** Events whose flag word asks to be kept on the wait list for the next round. */
  function CarriedOver(s: State, scripts: Scripts, k: nat): (r: seq<EventId>)
    requires |s.item| == MAXEVENTS && k <= |s.waiting|
    ensures |r| <= k
  {
    if k == 0 then [] else
      var id := s.waiting[k - 1];
      var before := Dispatched(s, scripts, k - 1);
      CarriedOver(s, scripts, k - 1) +
      if before.item[id].proc != NoProc && RunCallback(before, scripts, id).item[id].wait then [id] else []
  }

  function Execute(s: State, scripts: Scripts): (r: State)
    requires |s.item| == MAXEVENTS
    ensures |r.item| == MAXEVENTS
  {
    Dispatched(s, scripts, |s.waiting|).(waiting := CarriedOver(s, scripts, |s.waiting|))
  }

  function Progress(s: State, scripts: Scripts): (r: State)
    requires |s.item| == MAXEVENTS
    ensures |r.item| == MAXEVENTS
  {
    Execute(Advance(s), scripts)
  }

  function ProgressLog(s: State, scripts: Scripts): seq<Dispatch>
    requires |s.item| == MAXEVENTS
  {
    DispatchLog(Advance(s), scripts, |Advance(s).waiting|)
  }

  function Scaled(clock: int, oldclock: nat, newclock: nat): int
    requires oldclock > 0
  {
    Quotient(clock * newclock + oldclock / 2, oldclock)
  }

  /** A queued event's clock after a change of CPU clock. */
  function Rescaled(clock: int, oldclock: nat, newclock: nat): int
    requires oldclock > 0
  {
    if clock <= 0 then clock else
      var c := Scaled(clock, oldclock, newclock);
      if c <= 0 then 1 else if c > INT_MAX then INT_MAX else c
  }

  function ChangeClock(s: State, oldclock: nat, newclock: nat): (r: State)
    requires |s.item| == MAXEVENTS
    ensures |r.item| == MAXEVENTS
  {
    if oldclock == 0 || s.level == [] then s else
      var item := seq(MAXEVENTS, i requires 0 <= i < MAXEVENTS =>
        if Works(s.level, i) then s.item[i].(clock := Rescaled(s.item[i].clock, oldclock, newclock)) else s.item[i]);
      if s.base == s.rem then s.(item := item, base := item[s.level[0]].clock, rem := item[s.level[0]].clock)
      else s.(item := item, base := ToSint32(Scaled(s.base, oldclock, newclock)),
              rem := ToSint32(Scaled(s.rem, oldclock, newclock)))
  }

  /** nevent_get1stevent: the CPU may run up to the first event, or MAXCLOCK clocks. */
  function Get1stEvent(s: State): State
    requires |s.item| == MAXEVENTS
  {
    var base := if s.level == [] then MAXCLOCK else s.item[s.level[0]].clock;
    s.(base := base, rem := base)
  }

  // ---------------------------------------------------------------- what a state means

  /** The current time: CPU_CLOCK + CPU_BASECLOCK - CPU_REMCLOCK. */
  function Now(s: State): int { s.cpuClock + s.base - s.rem }

  /** The absolute time at which event id is due. */
  function Due(s: State, id: EventId): int
    requires |s.item| == MAXEVENTS
  {
    s.cpuClock + s.item[id].clock
  }

  ghost predicate Distinct(ids: seq<EventId>)
  {
    forall i, j :: 0 <= i < j < |ids| ==> ids[i] != ids[j]
  }

  ghost predicate Sorted(level: seq<EventId>, item: seq<Item>)
    requires |item| == MAXEVENTS
  {
    forall i, j :: 0 <= i < j < |level| ==> item[level[i]].clock <= item[level[j]].clock
  }

  /** The ready list by itself: each event once, in order of due time, none of them marked as fired. */
  ghost predicate InOrder(s: State)
  {
    && |s.item| == MAXEVENTS
    && Distinct(s.level)
    && Sorted(s.level, s.item)
    && (forall id: EventId :: !s.item[id].wait)
    && (forall i :: 0 <= i < |s.level| ==> !s.item[s.level[i]].setEvent)
  }

  /** How many clocks the CPU is set to run past the head of the ready list. */
  function Overrun(s: State): nat
    requires |s.item| == MAXEVENTS
  {
    if s.level == [] || s.base <= s.item[s.level[0]].clock then 0 else s.base - s.item[s.level[0]].clock
  }

  /** The invariant of the ready list: in order, and the CPU not set to run past its head. */
  ghost predicate Queued(s: State)
  {
    InOrder(s) && Overrun(s) == 0
  }

  /** Between calls, nothing waiting to be dispatched: whatever the CPU is set to do. */
  ghost predicate Resting(s: State)
  {
    InOrder(s) && s.waiting == [] && forall id: EventId :: !s.item[id].setEvent
  }

  /** The invariant between calls: nothing is waiting to be dispatched. */
  ghost predicate Idle(s: State)
  {
    Queued(s) && s.waiting == [] && forall id: EventId :: !s.item[id].setEvent
  }
}
