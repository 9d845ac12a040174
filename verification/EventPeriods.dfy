/** One event over whole runs: re-armed relatively by its callback it never drifts, and out of the list its
    clock stands still. */
module EventPeriods {
  import opened EventQueue
  import opened EventProofs
  import opened EventDispatch
  import opened EventRuns

  // ---------------------------------------------------------------- a periodic event

  predicate On(call: Call, e: EventId)
  {
    !call.ForceExit? && call.id == e
  }

  /** The first call, from i on, that sets or resets e. */
  function FirstOn(calls: seq<Call>, e: EventId, i: nat): (k: nat)
    requires i <= |calls|
    ensures i <= k <= |calls|
    ensures forall j :: i <= j < k ==> !On(calls[j], e)
    ensures k < |calls| ==> On(calls[k], e)
    decreases |calls| - i
  {
    if i == |calls| || On(calls[i], e) then i else FirstOn(calls, e, i + 1)
  }

  /** A callback that touches e once, to re-arm it relatively. */
  predicate Rearms(calls: seq<Call>, e: EventId)
  {
    var k := FirstOn(calls, e, 0);
    k < |calls| && FirstOn(calls, e, k + 1) == |calls| &&
    calls[k].Set? && !calls[k].absolute && calls[k].proc != NoProc
  }

  function Period(calls: seq<Call>, e: EventId): int
  {
    if Rearms(calls, e) then calls[FirstOn(calls, e, 0)].eventclock else 0
  }

  /** Steps of a run in which only e's own callback touches e, to re-arm it. The other
      steps and callbacks are free: they may set, reset and force exits at will. */
  predicate Periodic(step: Step, e: EventId)
  {
    match step
    case Tick(_) => true
    case Adjust(_) => true
    case OneMore => true
    case Ask(call) => !On(call, e)
    case Elapse(scripts) => (
      Rearms(scripts[e], e) && forall x: EventId :: x != e ==> FirstOn(scripts[x], e, 0) == |scripts[x]|)
  }

  /** e is queued, with a callback. */
  predicate Armed(s: State, e: EventId)
    requires |s.item| == MAXEVENTS
  {
    Works(s.level, e) && s.item[e].proc != NoProc
  }

  lemma NotMentioned(calls: seq<Call>, n: nat, e: EventId)
    requires n <= |calls| && forall j :: 0 <= j < n ==> !On(calls[j], e)
    ensures e !in Mentioned(calls, n)
  {
    if n > 0 { NotMentioned(calls, n - 1, e); }
  }

  lemma TouchesKeepsArmed(s: State, r: State, ids: set<EventId>, e: EventId)
    requires TouchesOnly(s, r, ids) && e !in ids
    ensures Due(r, e) == Due(s, e) && (Armed(r, e) <==> Armed(s, e)) && r.item[e].proc == s.item[e].proc
  {
    OmitKeepsPresence(s.level, ids, e);
    OmitKeepsPresence(r.level, ids, e);
    assert Works(s.level, e) <==> !Absent(s.level, e);
    assert Works(r.level, e) <==> !Absent(r.level, e);
  }

  /** What the rest of a run needs to know of e: when it is due, whether it is armed, its callback. */
  ghost predicate Alike(s: State, r: State, e: EventId)
    requires |s.item| == MAXEVENTS && |r.item| == MAXEVENTS
  {
    Due(r, e) == Due(s, e) && (Armed(s, e) ==> Armed(r, e)) && r.item[e].proc == s.item[e].proc
  }

  lemma OtherCallLeavesAlone(s: State, call: Call, e: EventId)
    requires InOrder(s) && !On(call, e)
    ensures Alike(s, Apply(s, call), e)
  {
    var ids := if call.ForceExit? then {} else {call.id};
    ApplyTouches(s, call, ids);
    TouchesKeepsArmed(s, Apply(s, call), ids, e);
  }

  lemma {:induction false} ApplyAllKeepsQueued(s: State, calls: seq<Call>, n: nat)
    requires Queued(s) && n <= |calls|
    ensures Queued(ApplyAll(s, calls, n))
  {
    if n > 0 {
      ApplyAllKeepsQueued(s, calls, n - 1);
      ApplyKeepsQueued(ApplyAll(s, calls, n - 1), calls[n - 1]);
    }
  }

  /** Calls on other events leave e alone. */
  lemma {:induction false} OthersLeaveAlone(s: State, calls: seq<Call>, i: nat, n: nat, e: EventId)
    requires Queued(s) && i <= n <= |calls| && forall j :: i <= j < n ==> !On(calls[j], e)
    ensures Alike(ApplyAll(s, calls, i), ApplyAll(s, calls, n), e)
  {
    hide Apply;
    if i < n {
      OthersLeaveAlone(s, calls, i, n - 1, e);
      ApplyAllKeepsQueued(s, calls, n - 1);
      OtherCallLeavesAlone(ApplyAll(s, calls, n - 1), calls[n - 1], e);
    }
  }

  /** r is s with e re-armed: due one period later. */
  ghost predicate Rearmed(s: State, r: State, e: EventId, period: int)
    requires |s.item| == MAXEVENTS && |r.item| == MAXEVENTS
  {
    Armed(r, e) && Due(r, e) == Due(s, e) + period
  }

  lemma SetArms(s: State, e: EventId, eventclock: int, proc: Proc)
    requires Queued(s) && proc != NoProc
    ensures Rearmed(s, SetEvent(s, e, eventclock, proc, false), e, eventclock)
  {
    SetKeepsOrder(s, e, eventclock, proc, false);
    SetMakesDue(s, e, eventclock, proc, false);
    var r, w := SetEvent(s, e, eventclock, proc, false), Without(s.level, e);
    var k := InsertAt(w, r.item, r.item[e].clock, 0);
    assert r.level[k] == e;
  }

  lemma AlikeRearmed(s: State, t: State, u: State, r: State, e: EventId, period: int)
    requires |s.item| == MAXEVENTS && |t.item| == MAXEVENTS && |u.item| == MAXEVENTS && |r.item| == MAXEVENTS
    requires Alike(s, t, e) && Rearmed(t, u, e, period) && Alike(u, r, e)
    ensures Rearmed(s, r, e, period)
  {
  }

  /** The re-arming callback moves e's due time by its period, whatever else it does. */
  lemma CallbackRearms(s: State, scripts: Scripts, e: EventId)
    requires Queued(s) && Rearms(scripts[e], e)
    ensures Rearmed(s, RunCallback(s, scripts, e), e, Period(scripts[e], e))
  {
    hide SetEvent, Alike, Rearmed;
    var calls := scripts[e];
    var k := FirstOn(calls, e, 0);
    var t := ApplyAll(s, calls, k);
    OthersLeaveAlone(s, calls, 0, k, e);
    ApplyAllKeepsQueued(s, calls, k);
    SetArms(t, e, calls[k].eventclock, calls[k].proc);
    var u := ApplyAll(s, calls, k + 1);
    assert u == SetEvent(t, e, calls[k].eventclock, calls[k].proc, false);
    OthersLeaveAlone(s, calls, k + 1, |calls|, e);
    AlikeRearmed(s, t, u, RunCallback(s, scripts, e), e, calls[k].eventclock);
  }

  lemma UnmarkedIsAlike(s: State, x: EventId, e: EventId)
    requires |s.item| == MAXEVENTS
    ensures Alike(s, Unmarked(s, x), e) && Alike(Unmarked(s, x), s, e)
  {
  }

  lemma CallbackLeavesAlone(s: State, scripts: Scripts, x: EventId, e: EventId)
    requires Queued(s) && x != e && FirstOn(scripts[x], e, 0) == |scripts[x]|
    ensures Alike(s, DispatchOne(s, scripts, x), e)
  {
    OthersLeaveAlone(s, scripts[x], 0, |scripts[x]|, e);
    UnmarkedIsAlike(RunCallback(s, scripts, x), x, e);
    DispatchOneKeepsQueued(s, scripts, x);
    UnmarkedIsAlike(s, x, e);
  }

  lemma DispatchedKeepsQueued(s: State, scripts: Scripts, k: nat)
    requires Queued(s) && k <= |s.waiting|
    ensures Queued(Dispatched(s, scripts, k))
  {
    DispatchTouches(s, scripts, k, Disturbed(s.waiting, scripts, k));
  }

  /** e is not among the i-th to the k-th of these events. */
  ghost predicate Skips(ids: seq<EventId>, e: EventId, i: nat, k: nat)
    requires k <= |ids|
  {
    forall j :: i <= j < k ==> ids[j] != e
  }

  /** The dispatch of events other than e leaves e alone. */
  lemma {:induction false} DispatchLeavesAlone(s: State, scripts: Scripts, e: EventId, i: nat, k: nat)
    requires Queued(s) && i <= k <= |s.waiting| && Periodic(Elapse(scripts), e)
    requires Skips(s.waiting, e, i, k)
    ensures Alike(Dispatched(s, scripts, i), Dispatched(s, scripts, k), e)
  {
    hide DispatchOne;
    if i < k {
      DispatchLeavesAlone(s, scripts, e, i, k - 1);
      DispatchedKeepsQueued(s, scripts, k - 1);
      CallbackLeavesAlone(Dispatched(s, scripts, k - 1), scripts, s.waiting[k - 1], e);
    }
  }

  lemma DispatchOneRearms(s: State, scripts: Scripts, e: EventId)
    requires Queued(s) && Rearms(scripts[e], e) && s.item[e].proc != NoProc
    ensures Rearmed(s, DispatchOne(s, scripts, e), e, Period(scripts[e], e))
  {
    CallbackRearms(s, scripts, e);
    UnmarkedIsAlike(RunCallback(s, scripts, e), e, e);
  }

  lemma NextDispatched(s: State, scripts: Scripts, p: nat)
    requires |s.item| == MAXEVENTS && p < |s.waiting|
    ensures Dispatched(s, scripts, p + 1) == DispatchOne(Dispatched(s, scripts, p), scripts, s.waiting[p])
  {
    hide DispatchOne;
  }

  /** Up to and including e itself, at place p of the wait list. */
  lemma DispatchReaches(s: State, scripts: Scripts, e: EventId, p: nat)
    requires Queued(s) && p < |s.waiting| && s.waiting[p] == e && Skips(s.waiting, e, 0, p)
    requires Periodic(Elapse(scripts), e) && s.item[e].proc != NoProc
    ensures Rearmed(s, Dispatched(s, scripts, p + 1), e, Period(scripts[e], e))
  {
    assert Rearms(scripts[e], e);
    var t := Dispatched(s, scripts, p);
    DispatchLeavesAlone(s, scripts, e, 0, p);
    assert Dispatched(s, scripts, 0) == s;
    hide Periodic, Dispatched, DispatchOne, Rearms, Period;
    DispatchedKeepsQueued(s, scripts, p);
    DispatchOneRearms(t, scripts, e);
    NextDispatched(s, scripts, p);
  }

  /** The dispatch of e itself, wherever it stands in the wait list, re-arms it once. */
  lemma DispatchRearms(s: State, scripts: Scripts, e: EventId, p: nat)
    requires |s.item| == MAXEVENTS && Queued(s) && p < |s.waiting| && s.waiting[p] == e
    requires Skips(s.waiting, e, 0, p) && Skips(s.waiting, e, p + 1, |s.waiting|)
    requires Periodic(Elapse(scripts), e) && s.item[e].proc != NoProc
    ensures Rearmed(s, Dispatched(s, scripts, |s.waiting|), e, Period(scripts[e], e))
  {
    hide Queued, Periodic, Dispatched, Period, Rearmed, Alike, Skips;
    DispatchReaches(s, scripts, e, p);
    DispatchLeavesAlone(s, scripts, e, p + 1, |s.waiting|);
    RearmedStays(s, Dispatched(s, scripts, p + 1), Dispatched(s, scripts, |s.waiting|), e, Period(scripts[e], e));
  }

  lemma RearmedStays(s: State, u: State, r: State, e: EventId, period: int)
    requires |s.item| == MAXEVENTS && |u.item| == MAXEVENTS && |r.item| == MAXEVENTS
    requires Rearmed(s, u, e, period) && Alike(u, r, e)
    ensures Rearmed(s, r, e, period)
  {
  }

  /** Whether this step runs e's callback. */
  predicate Fires(s: State, step: Step, e: EventId)
    requires |s.item| == MAXEVENTS
  {
    step.Elapse? && IndexOf(s.level, e, 0) < DueCount(s)
  }

  /** If nevent_progress fires e, e's next due time is one period after the one it had, however late it
      fires; and it fires late only by what the CPU has run past the head of the ready list. */
  lemma ElapseFires(s: State, scripts: Scripts, e: EventId)
    requires Resting(s) && Armed(s, e) && Periodic(Elapse(scripts), e) && Fires(s, Elapse(scripts), e)
    ensures Rearmed(s, Progress(s, scripts), e, Period(scripts[e], e))
    ensures Due(s, e) <= Progress(s, scripts).cpuClock <= Due(s, e) + Overrun(s)
  {
    var a, p := Advance(s), IndexOf(s.level, e, 0);
    ProgressDispatchesAll(s, scripts);
    AdvanceKeepsDue(s, e);
    DueCountSplits(s);
    forall j | 0 <= j < |a.waiting| ensures a.waiting[j] == e <==> j == p {
      assert a.waiting[j] == s.level[j];
    }
    hide Periodic, Queued;
    DispatchRearms(a, scripts, e, p);
  }

  lemma AdvancePasses(s: State, scripts: Scripts, e: EventId)
    requires Resting(s) && Armed(s, e) && !Fires(s, Elapse(scripts), e)
    ensures Rearmed(s, Advance(s), e, 0) && forall j :: 0 <= j < |Advance(s).waiting| ==> Advance(s).waiting[j] != e
  {
    var a, n, p := Advance(s), DueCount(s), IndexOf(s.level, e, 0);
    AdvanceMoves(s);
    AdvanceKeepsDue(s, e);
    assert a.level[p - n] == e;
  }

  /** Otherwise its due time stays, and it stays armed. */
  lemma ElapsePasses(s: State, scripts: Scripts, e: EventId)
    requires Resting(s) && Armed(s, e) && Periodic(Elapse(scripts), e) && !Fires(s, Elapse(scripts), e)
    ensures Rearmed(s, Progress(s, scripts), e, 0)
  {
    var a := Advance(s);
    AdvancePasses(s, scripts, e);
    ProgressDispatchesAll(s, scripts);
    hide Periodic, Queued, Advance, Dispatched;
    DispatchLeavesAlone(a, scripts, e, 0, |a.waiting|);
  }

  lemma StepRearms(s: State, step: Step, e: EventId)
    requires Resting(s) && Armed(s, e) && Periodic(step, e)
    ensures Resting(Do(s, step))
    ensures Rearmed(s, Do(s, step), e, if Fires(s, step, e) then Period(step.scripts[e], e) else 0)
    ensures Fires(s, step, e) ==> Due(s, e) <= Do(s, step).cpuClock <= Due(s, e) + Overrun(s)
  {
    DoKeepsResting(s, step);
    match step
    case Tick(_) =>
    case Adjust(_) =>
    case OneMore =>
    case Ask(call) => OtherCallLeavesAlone(s, call, e);
    case Elapse(scripts) =>
      if Fires(s, step, e) { ElapseFires(s, scripts, e); } else { ElapsePasses(s, scripts, e); }
  }

  /** One run of e's callback: at which step, at what time, and after how many clocks it asked to run again. */
  datatype Firing = Firing(step: nat, time: int, period: int)

  function Firings(s: State, steps: seq<Step>, n: nat, e: EventId): seq<Firing>
    requires |s.item| == MAXEVENTS && n <= |steps|
  {
    if n == 0 then [] else
      var t, step := Run(s, steps, n - 1), steps[n - 1];
      if Fires(t, step, e)
      then Firings(s, steps, n - 1, e) + [Firing(n - 1, Do(t, step).cpuClock, Period(step.scripts[e], e))]
      else Firings(s, steps, n - 1, e)
  }

  /** The first k periods together. */
  function Elapsing(fs: seq<Firing>, k: nat): int
    requires k <= |fs|
  {
    if k == 0 then 0 else Elapsing(fs, k - 1) + fs[k - 1].period
  }

  lemma {:induction false} ElapsingOfPrefix(fs: seq<Firing>, f: Firing, k: nat)
    requires k <= |fs|
    ensures Elapsing(fs + [f], k) == Elapsing(fs, k)
  {
    if k > 0 { ElapsingOfPrefix(fs, f, k - 1); }
  }

  lemma {:induction false} StaysArmed(s: State, steps: seq<Step>, n: nat, e: EventId)
    requires |s.item| == MAXEVENTS && Resting(s) && Armed(s, e) && n <= |steps|
    requires forall i :: 0 <= i < n ==> Periodic(steps[i], e)
    ensures Resting(Run(s, steps, n)) && Armed(Run(s, steps, n), e)
  {
    hide Resting, Armed, Periodic, Do;
    if n > 0 {
      StaysArmed(s, steps, n - 1, e);
      StepRearms(Run(s, steps, n - 1), steps[n - 1], e);
    }
  }

  lemma {:induction false} DueMovesByPeriods(s: State, steps: seq<Step>, n: nat, e: EventId)
    requires |s.item| == MAXEVENTS && Resting(s) && Armed(s, e) && n <= |steps|
    requires forall i :: 0 <= i < n ==> Periodic(steps[i], e)
    ensures var fs := Firings(s, steps, n, e);
      Due(Run(s, steps, n), e) == Due(s, e) + Elapsing(fs, |fs|)
  {
    hide Resting, Armed, Periodic, Do;
    if n > 0 {
      var t, step, fs := Run(s, steps, n - 1), steps[n - 1], Firings(s, steps, n - 1, e);
      DueMovesByPeriods(s, steps, n - 1, e);
      StaysArmed(s, steps, n - 1, e);
      StepRearms(t, step, e);
      if Fires(t, step, e) {
        ElapsingOfPrefix(fs, Firing(n - 1, Do(t, step).cpuClock, Period(step.scripts[e], e)), |fs|);
      }
    }
  }

  /** Periodic events never drift: over any run in which e is only re-armed, relatively, by its own
      callback, its k-th firing belongs to exactly its first due time plus the first k periods, whatever
      other events are set in between and however late earlier firings were. It comes no earlier than that,
      and later only by what the CPU has run past the head of the ready list in that slice. */
  lemma {:induction false} NoDrift(s: State, steps: seq<Step>, n: nat, e: EventId, k: nat)
    requires |s.item| == MAXEVENTS && Resting(s) && Armed(s, e) && n <= |steps|
    requires forall i :: 0 <= i < n ==> Periodic(steps[i], e)
    requires k < |Firings(s, steps, n, e)|
    ensures var fs := Firings(s, steps, n, e);
      var due := Due(s, e) + Elapsing(fs, k);
      fs[k].step < n && due <= fs[k].time <= due + Overrun(Run(s, steps, fs[k].step))
  {
    hide Resting, Armed, Periodic, Do, Overrun;
    var t, step, fs := Run(s, steps, n - 1), steps[n - 1], Firings(s, steps, n - 1, e);
    if Fires(t, step, e) {
      ElapsingOfPrefix(fs, Firing(n - 1, Do(t, step).cpuClock, Period(step.scripts[e], e)), k);
    }
    if k < |fs| {
      NoDrift(s, steps, n - 1, e, k);
    } else {
      DueMovesByPeriods(s, steps, n - 1, e);
      StaysArmed(s, steps, n - 1, e);
      StepRearms(t, step, e);
    }
  }

  /** So each firing is late by at most the clocks by which the CPU core has put off the end of its slice:
      without sti, pop ss and mov ss there, by none. */
  lemma LateByDelay(s: State, steps: seq<Step>, n: nat, e: EventId, k: nat)
    requires |s.item| == MAXEVENTS && Resting(s) && Armed(s, e) && n <= |steps|
    requires forall i :: 0 <= i < n ==> Periodic(steps[i], e)
    requires k < |Firings(s, steps, n, e)|
    ensures var fs := Firings(s, steps, n, e);
      var late := fs[k].time - (Due(s, e) + Elapsing(fs, k));
      fs[k].step < n && 0 <= late <= Delay(s, steps, fs[k].step)
  {
    hide Resting, Armed, Periodic, Run, Overrun, Delay;
    NoDrift(s, steps, n, e, k);
    DelayBounds(s, steps, Firings(s, steps, n, e)[k].step);
  }

  // ---------------------------------------------------------------- out of the list

  /** Steps in which nobody sets or resets e. */
  predicate Ignores(step: Step, e: EventId)
  {
    match step
    case Tick(_) => true
    case Adjust(_) => true
    case OneMore => true
    case Ask(call) => !On(call, e)
    case Elapse(scripts) => forall x: EventId :: FirstOn(scripts[x], e, 0) == |scripts[x]|
  }

  lemma {:induction false} IgnoredIsUndisturbed(waiting: seq<EventId>, scripts: Scripts, k: nat, e: EventId)
    requires k <= |waiting| && Ignores(Elapse(scripts), e)
    ensures e !in Disturbed(waiting, scripts, k)
  {
    if k > 0 {
      IgnoredIsUndisturbed(waiting, scripts, k - 1, e);
      NotMentioned(scripts[waiting[k - 1]], |scripts[waiting[k - 1]]|, e);
    }
  }

  lemma TouchesKeepsAbsent(s: State, r: State, ids: set<EventId>, e: EventId)
    requires TouchesOnly(s, r, ids) && e !in ids && Absent(s.level, e)
    ensures Absent(r.level, e) && r.item[e].clock == s.item[e].clock
  {
    OmitKeepsPresence(s.level, ids, e);
    OmitKeepsPresence(r.level, ids, e);
  }

  lemma AdvanceKeepsAbsent(s: State, e: EventId)
    requires Resting(s) && Absent(s.level, e)
    ensures Absent(Advance(s).level, e) && Advance(s).item[e] == s.item[e]
  {
    AdvanceMoves(s);
    assert !Works(s.level, e);
  }

  lemma DispatchKeepsAbsent(s: State, scripts: Scripts, e: EventId)
    requires Resting(s) && Absent(Advance(s).level, e)
    requires e !in Disturbed(Advance(s).waiting, scripts, |Advance(s).waiting|)
    ensures Absent(Progress(s, scripts).level, e)
    ensures Progress(s, scripts).item[e].clock == Advance(s).item[e].clock
  {
    var a := Advance(s);
    hide Advance, Dispatched, Queued, TouchesOnly;
    ProgressDispatchesAll(s, scripts);
    DispatchTouches(a, scripts, |a.waiting|, Disturbed(a.waiting, scripts, |a.waiting|));
    TouchesKeepsAbsent(a, Dispatched(a, scripts, |a.waiting|), Disturbed(a.waiting, scripts, |a.waiting|), e);
  }

  /** The clock of an event that is not queued stands still. */
  lemma StepKeepsUnqueued(s: State, step: Step, e: EventId)
    requires Resting(s) && Ignores(step, e) && Absent(s.level, e)
    ensures Resting(Do(s, step)) && Absent(Do(s, step).level, e) && Do(s, step).item[e].clock == s.item[e].clock
  {
    assert |s.item| == MAXEVENTS;
    hide InOrder, Progress, Apply;
    DoKeepsResting(s, step);
    match step
    case Tick(_) =>
    case Adjust(_) =>
    case OneMore =>
    case Ask(call) => AskKeepsUnqueued(s, call, e);
    case Elapse(scripts) =>
      AdvanceKeepsAbsent(s, e);
      IgnoredIsUndisturbed(Advance(s).waiting, scripts, |Advance(s).waiting|, e);
      DispatchKeepsAbsent(s, scripts, e);
  }

  lemma AskKeepsUnqueued(s: State, call: Call, e: EventId)
    requires InOrder(s) && !On(call, e) && Absent(s.level, e)
    ensures Absent(Apply(s, call).level, e) && Apply(s, call).item[e].clock == s.item[e].clock
  {
    var ids := if call.ForceExit? then {} else {call.id};
    ApplyTouches(s, call, ids);
    TouchesKeepsAbsent(s, Apply(s, call), ids, e);
  }

  lemma {:induction false} UnqueuedStandsStill(s: State, steps: seq<Step>, n: nat, e: EventId)
    requires |s.item| == MAXEVENTS && Resting(s) && Absent(s.level, e) && n <= |steps|
    requires forall i :: 0 <= i < n ==> Ignores(steps[i], e)
    ensures var r := Run(s, steps, n); Resting(r) && Absent(r.level, e) && r.item[e].clock == s.item[e].clock
  {
    hide Resting, Do, Ignores;
    if n > 0 {
      UnqueuedStandsStill(s, steps, n - 1, e);
      StepKeepsUnqueued(Run(s, steps, n - 1), steps[n - 1], e);
    }
  }

  /** An event that fires and that no callback sets again is out of the list, and its clock stands at
      how late it fired, negated. */
  lemma FiredIsUnqueued(s: State, scripts: Scripts, i: nat)
    requires Resting(s) && i < DueCount(s) && s.level[i] !in Disturbed(s.level[..DueCount(s)], scripts, DueCount(s))
    ensures var r, e := Progress(s, scripts), s.level[i];
      Absent(r.level, e) && Due(r, e) == Due(s, e) && 0 <= -r.item[e].clock <= Overrun(s)
  {
    DueCountSplits(s);
    AdvanceMoves(s);
    AdvanceItem(s, i);
    ProgressDispatches(s, scripts);
    DispatchKeepsAbsent(s, scripts, s.level[i]);
  }

  /** A relative nevent_set after an event has fired: the event is due eventclock after it fired, plus
      whatever CPU_CLOCK has moved since; so exactly eventclock after only until the next
      nevent_progress that moves it. */
  lemma RearmedLate(s: State, scripts: Scripts, i: nat, steps: seq<Step>, n: nat, eventclock: int, proc: Proc)
    requires Resting(s) && i < DueCount(s) && s.level[i] !in Disturbed(s.level[..DueCount(s)], scripts, DueCount(s))
    requires n <= |steps| && forall j :: 0 <= j < n ==> Ignores(steps[j], s.level[i])
    ensures var e, r := s.level[i], Run(Progress(s, scripts), steps, n);
      Due(SetEvent(r, e, eventclock, proc, false), e)
        == Due(s, e) + eventclock + (r.cpuClock - Progress(s, scripts).cpuClock)
  {
    assert |s.item| == MAXEVENTS;
    hide InOrder, Ignores, Disturbed, Progress, Run, SetEvent;
    var e := s.level[i];
    FiredIsUnqueued(s, scripts, i);
    ProgressRestores(s, scripts);
    UnqueuedStandsStill(Progress(s, scripts), steps, n, e);
    SetMakesDue(Run(Progress(s, scripts), steps, n), e, eventclock, proc, false);
  }
}
