/** Runs from the cleared scheduler in which it does not do what is expected of it. */
module EventExamples {
  import opened EventQueue
  import opened EventProofs
  import opened EventDispatch
  import opened EventRuns
  import opened EventPeriods

  // ---------------------------------------------------------------- a caller that does not

  /** The scheduler as nevent_allreset leaves it. */
  function Cleared(): (s: State)
    ensures |s.item| == MAXEVENTS
  {
    State([], [], seq(MAXEVENTS, i => Item(0, false, false, false, NoProc)), 0, 0, 0)
  }

  lemma ClearedIsIdle()
    ensures Idle(Cleared()) && Ahead(Cleared())
  {
  }

  /** An event asked for three clocks in the past, one clock consumed, and the CPU clock halved: the
      counter goes from -3 to -1, past the head of the list. */
  const OVERDUE := [Plain(Ask(Set(0, -3, Proc(1), true))), Plain(Tick(1)), Rescale(2, 1)]

  /** The scheduler after the first n of them. */
  function OverdueState(n: nat): (s: State)
    requires 1 <= n <= 2
    ensures |s.item| == MAXEVENTS
  {
    State([0], [], Cleared().item[0 := Item(-3, false, false, false, Proc(1))], 0, -3, -2 - n)
  }

  lemma OverdueFirst()
    ensures DoAct(Cleared(), OVERDUE[0]) == OverdueState(1) && DoAct(OverdueState(1), OVERDUE[1]) == OverdueState(2)
  {
    assert DoAct(Cleared(), OVERDUE[0]) == SetEvent(Cleared(), 0, -3, Proc(1), true);
  }

  lemma OverdueIsIdle()
    ensures Idle(OverdueState(2))
  {
  }

  lemma OverdueOutrun()
    ensures !Idle(DoAct(OverdueState(2), OVERDUE[2]))
  {
    var s := OverdueState(2);
    assert DoAct(s, OVERDUE[2]) == ChangeClock(s, 2, 1);
    hide ChangeClock, DoAct;
    OverdueIsIdle();
    ChangeClockKeepsQueued(s, 2, 1);
  }

  lemma OverdueManners()
    ensures !Mannered(Cleared(), OVERDUE[0]) && Mannered(OverdueState(1), OVERDUE[1])
    ensures Mannered(OverdueState(2), OVERDUE[2])
  {
  }

  lemma OverdueHeadOutrun()
    ensures var s, t := Session(Cleared(), OVERDUE, 1), Session(Cleared(), OVERDUE, 2);
      && !Mannered(Cleared(), OVERDUE[0]) && Mannered(s, OVERDUE[1]) && Mannered(t, OVERDUE[2])
      && Idle(t) && !Idle(Session(Cleared(), OVERDUE, 3))
  {
    hide DoAct, Cleared, OverdueState, Idle, Mannered;
    OverdueFirst();
    OverdueIsIdle();
    OverdueOutrun();
    OverdueManners();
  }

  // ---------------------------------------------------------------- the end of a slice put off

  /** An event due at 3, two clocks consumed, and then again and again an instruction of two clocks that puts
      off the end of the slice, as sti does. */
  function PutOffStep(i: nat): Step
  {
    if i == 0 then Ask(Set(0, 3, Proc(1), true)) else if i == 1 || i % 2 == 0 then Tick(2) else OneMore
  }

  function PutOffSteps(m: nat): (steps: seq<Step>)
    ensures |steps| == m
  {
    seq(m, i requires 0 <= i < m => PutOffStep(i))
  }

  /** The scheduler after k such instructions. */
  function PutOffState(k: nat): (s: State)
    ensures |s.item| == MAXEVENTS
  {
    var c := Cleared();
    State([0], [], c.item[0 := Item(3, false, false, false, Proc(1))], 0, 3 + 2 * k, 1)
  }

  lemma PutOffBegins(m: nat)
    requires 2 <= m
    ensures Run(Cleared(), PutOffSteps(m), 2) == PutOffState(0)
  {
    var steps := PutOffSteps(m);
    assert Run(Cleared(), steps, 1) == SetEvent(Cleared(), 0, 3, Proc(1), true);
  }

  lemma PutOffTwo(k: nat)
    ensures Do(Do(PutOffState(k), Tick(2)), OneMore) == PutOffState(k + 1)
  {
  }

  lemma PutOffStepsAre(m: nat, i: nat)
    requires 0 < i && 2 * i < m
    ensures PutOffSteps(m)[2 * i] == Tick(2) && (2 * i + 1 < m ==> PutOffSteps(m)[2 * i + 1] == OneMore)
  {
  }

  lemma {:induction false} PutOffRuns(m: nat, k: nat)
    requires 2 + 2 * k <= m
    ensures Run(Cleared(), PutOffSteps(m), 2 + 2 * k) == PutOffState(k)
  {
    hide Do, PutOffState, PutOffSteps, Cleared;
    if k == 0 {
      PutOffBegins(m);
    } else {
      PutOffRuns(m, k - 1);
      PutOffStepsAre(m, k);
      PutOffTwo(k - 1);
      var steps := PutOffSteps(m);
      assert Run(Cleared(), steps, 2 * k + 1) == Do(PutOffState(k - 1), Tick(2));
    }
  }

  lemma PutOffFacts(k: nat)
    ensures var s := Do(PutOffState(k), Tick(2));
      Resting(s) && s.rem < 0 && Due(s, 0) == 3 && Overrun(s) == 2 * k && DueCount(s) == 1
  {
  }

  lemma PutOffDispatches(k: nat, scripts: Scripts)
    ensures var s := Do(PutOffState(k), Tick(2));
      ProgressLog(s, scripts) == [Dispatch(0, Proc(1))] && Progress(s, scripts).cpuClock == 3 + 2 * k
  {
    var s := Do(PutOffState(k), Tick(2));
    hide ProgressLog, Progress, Resting, Overrun, DueCount;
    PutOffFacts(k);
    ProgressDispatches(s, scripts);
    ProgressRunsQueuedCallback(s, scripts, 0);
  }

  lemma PutOffEnds(k: nat)
    ensures Run(Cleared(), PutOffSteps(2 * k + 3), 2 * k + 3) == Do(PutOffState(k), Tick(2))
  {
    hide Do, PutOffState, PutOffSteps, Cleared;
    PutOffRuns(2 * k + 3, k);
    PutOffStepsAre(2 * k + 3, k + 1);
  }

  /** There is no bound on that: for every k, a run from the cleared scheduler in which an event due at 3 is
      dispatched when CPU_CLOCK is 3 + 2 * k, with CPU_REMCLOCK used up. */
  lemma NoBoundOnDelay(k: nat, scripts: Scripts)
    ensures var s := Run(Cleared(), PutOffSteps(2 * k + 3), 2 * k + 3);
      && s.rem < 0 && s.level == [0] && Due(s, 0) == 3 && Overrun(s) == 2 * k
      && ProgressLog(s, scripts) == [Dispatch(0, Proc(1))] && Progress(s, scripts).cpuClock == 3 + 2 * k
  {
    hide Run, ProgressLog, Progress, Resting, Overrun;
    PutOffEnds(k);
    PutOffFacts(k);
    PutOffDispatches(k, scripts);
  }

  // ---------------------------------------------------------------- an event set again too late

  /** No callback asks for anything. */
  const SILENT: Scripts := seq(MAXEVENTS, i => [])

  /** Event 0 is due at 3 and fires then; event 1 is due at 7 and fires then, which moves CPU_CLOCK. */
  const FIRST := [Ask(Set(0, 3, Proc(1), true)), Tick(3)]
  const SECOND := [Ask(Set(1, 4, Proc(2), true)), Tick(4), Elapse(SILENT)]

  lemma FirstRun()
    ensures var s := Run(Cleared(), FIRST, 2);
      && Resting(s) && s.level == [0] && DueCount(s) == 1 && Due(s, 0) == 3 && s.cpuClock + s.base == 3 && s.rem == 0
  {
    assert Run(Cleared(), FIRST, 1) == SetEvent(Cleared(), 0, 3, Proc(1), true);
  }

  /** A slice that leaves the list empty, with callbacks that ask for nothing. */
  lemma SilentProgress(s: State)
    requires Resting(s) && |s.level| == DueCount(s) == 1 && s.rem == 0
    ensures var r := Progress(s, SILENT); r.level == [] && r.base == r.rem
    ensures Disturbed(s.level, SILENT, 1) == {}
  {
    hide DueNow, Later, NextBase, DueCount, Works;
    AdvanceMoves(s);
    var a := Advance(s);
    assert Dispatched(a, SILENT, 0) == a;
    assert Disturbed(s.level, SILENT, 0) == {};
    assert SILENT[a.waiting[0]] == [];
  }

  lemma SecondSteps(s: State)
    requires Resting(s) && s.level == [] && s.base == s.rem
    ensures var t := Run(s, SECOND, 2); Resting(t) && t.base == 4 && t.cpuClock == s.cpuClock
  {
    RunKeepsResting(s, SECOND, 2);
    hide Resting;
    assert Run(s, SECOND, 1) == SetEvent(s, 1, 4, Proc(2), true);
  }

  lemma SecondRun(s: State)
    requires Resting(s) && s.level == [] && s.base == s.rem
    ensures Run(s, SECOND, 3).cpuClock == s.cpuClock + 4
  {
    SecondSteps(s);
    var t := Run(s, SECOND, 2);
    assert Run(s, SECOND, 3) == Progress(t, SILENT);
    hide Run, Progress, Resting, SetEvent;
    ProgressDispatches(t, SILENT);
  }

  /** Set again for 5 clocks later after that, event 0 is due not 5 but 9 clocks after it fired. */
  lemma SetAgainTooLate()
    ensures var s := Run(Cleared(), FIRST, 2);
      var r := Run(Progress(s, SILENT), SECOND, 3);
      && Progress(s, SILENT).cpuClock == Due(s, 0) == 3 && Due(SetEvent(r, 0, 5, Proc(1), false), 0) == 12
  {
    FirstRun();
    assert Ignores(SECOND[0], 0) && Ignores(SECOND[1], 0) && Ignores(SECOND[2], 0);
    hide Run, SetEvent, Progress, Resting, Ignores, DueCount;
    SetAgain(Run(Cleared(), FIRST, 2));
  }

  lemma SetAgain(s: State)
    requires Resting(s) && s.level == [0] && DueCount(s) == 1 && s.rem == 0
    requires forall j :: 0 <= j < 3 ==> Ignores(SECOND[j], 0)
    ensures var p := Progress(s, SILENT);
      && p.cpuClock == s.cpuClock + s.base
      && Due(SetEvent(Run(p, SECOND, 3), 0, 5, Proc(1), false), 0) == Due(s, 0) + 9
  {
    SilentProgress(s);
    hide Run, Progress, Resting, DueCount, SetEvent, Ignores, Disturbed;
    ProgressRestores(s, SILENT);
    SecondRun(Progress(s, SILENT));
    RearmedLate(s, SILENT, 0, SECOND, 3, 5, Proc(1));
    ProgressDispatches(s, SILENT);
  }
}
