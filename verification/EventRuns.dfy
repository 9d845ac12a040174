/** The scheduler over whole runs: the ready list is in order in every reachable state, and the CPU never
    runs further past an event than its core has put off the end of the slice. */
module EventRuns {
  import opened CInt
  import opened EventQueue
  import opened EventProofs
  import opened EventDispatch

  // ---------------------------------------------------------------- nevent_changeclock

  lemma MulKeepsOrder(a: int, b: int, c: nat)
    requires a <= b
    ensures a * c <= b * c
  {
  }

  lemma MulOrder(a: int, b: int, c: nat)
    requires c > 0
    ensures a * c < b * c <==> a < b
  {
    if a < b { MulKeepsOrder(a + 1, b, c); } else { MulKeepsOrder(b, a, c); }
  }

  lemma DivKeepsOrder(a: nat, b: nat, d: int)
    requires d > 0 && a <= b
    ensures 0 <= a / d <= b / d
  {
    MulOrder(a / d, b / d + 1, d);
    assert a / d * d <= a <= b < (b / d + 1) * d;
  }

  lemma QuotientKeepsOrder(a: int, b: int, d: int)
    requires d > 0 && a <= b
    ensures Quotient(a, d) <= Quotient(b, d)
  {
    if a >= 0 { DivKeepsOrder(a, b, d); }
    if b < 0 { DivKeepsOrder(-b, -a, d); }
    if a < 0 <= b { DivKeepsOrder(0, -a, d); DivKeepsOrder(0, b, d); }
  }

  lemma ScaledKeepsOrder(a: int, b: int, oldclock: nat, newclock: nat)
    requires oldclock > 0 && a <= b
    ensures Scaled(a, oldclock, newclock) <= Scaled(b, oldclock, newclock)
  {
    MulKeepsOrder(a, b, newclock);
    QuotientKeepsOrder(a * newclock + oldclock / 2, b * newclock + oldclock / 2, oldclock);
  }

  /** Rescaling keeps the order of two clocks and never turns an event of the future into one that
      is already due, nor the other way round. */
  lemma RescaledKeepsOrder(a: int, b: int, oldclock: nat, newclock: nat)
    requires oldclock > 0 && a <= b
    ensures Rescaled(a, oldclock, newclock) <= Rescaled(b, oldclock, newclock)
    ensures Rescaled(a, oldclock, newclock) > 0 <==> a > 0
  {
    ScaledKeepsOrder(a, b, oldclock, newclock);
  }

  lemma QuotientBounds(x: nat, d: int)
    requires d > 0
    ensures Quotient(x, d) * d <= x < Quotient(x, d) * d + d
  {
  }

  /** r is c * newclock / oldclock rounded to the nearest integer, halves upwards. */
  predicate Nearest(c: int, r: int, oldclock: nat, newclock: nat)
  {
    0 < oldclock + 2 * (r * oldclock - c * newclock) <= 2 * oldclock
  }

  lemma NearestIsUnique(c: int, q: int, r: int, oldclock: nat, newclock: nat)
    requires Nearest(c, q, oldclock, newclock) && Nearest(c, r, oldclock, newclock)
    ensures q == r
  {
    if q < r { MulKeepsOrder(q + 1, r, oldclock); }
    if r < q { MulKeepsOrder(r + 1, q, oldclock); }
  }

  /** What the clock c of a queued event becomes: the nearest, but 1 for a future event that would become due, and
      no more than an int holds. An event that is due already keeps its clock. */
  predicate Scales(c: int, r: int, oldclock: nat, newclock: nat)
  {
    if c <= 0 then r == c
    else if 2 * (c * newclock) < oldclock then r == 1
    else if 2 * (c * newclock) >= (2 * 0x7fff_ffff + 1) * oldclock then r == 0x7fff_ffff
    else Nearest(c, r, oldclock, newclock)
  }

  lemma ScaledIsNearest(x: int, oldclock: nat, newclock: nat)
    requires oldclock > 0 && x * newclock + oldclock / 2 >= 0
    ensures Nearest(x, Scaled(x, oldclock, newclock), oldclock, newclock)
  {
    QuotientBounds(x * newclock + oldclock / 2, oldclock);
    hide Quotient;
  }

  lemma RescaledScales(c: int, oldclock: nat, newclock: nat)
    requires oldclock > 0
    ensures Scales(c, Rescaled(c, oldclock, newclock), oldclock, newclock)
  {
    if c > 0 {
      MulKeepsOrder(0, c, newclock);
      var q := Scaled(c, oldclock, newclock);
      ScaledIsNearest(c, oldclock, newclock);
      if q <= 0 { MulKeepsOrder(q, 0, oldclock); } else { MulKeepsOrder(1, q, oldclock); }
      if q > INT_MAX { MulKeepsOrder(INT_MAX + 1, q, oldclock); } else { MulKeepsOrder(q, INT_MAX, oldclock); }
      hide Scaled;
    }
  }

  /** For a negative h, C's quotient of x is at most h exactly when x is at most h * d. */
  lemma QuotientBelowNegative(x: int, d: int, h: int)
    requires d > 0 && h < 0
    ensures Quotient(x, d) <= h <==> x <= h * d
  {
    MulKeepsOrder(h, -1, d);
    if x < 0 {
      var q := -x / d;
      if q >= -h { MulKeepsOrder(-h, q, d); } else { MulKeepsOrder(q + 1, -h, d); }
    } else {
      DivKeepsOrder(0, x, d);
    }
  }

  lemma ChangeClockItem(s: State, oldclock: nat, newclock: nat, i: nat)
    requires InOrder(s) && oldclock > 0 && i < |s.level|
    ensures var x := s.item[s.level[i]];
      ChangeClock(s, oldclock, newclock).item[s.level[i]] == x.(clock := Rescaled(x.clock, oldclock, newclock))
  {
    assert Works(s.level, s.level[i]);
  }

  lemma NegativeQuotient(x: int, d: int)
    requires d > 0 && x < 0
    ensures var q := Quotient(x, d); x <= q * d < x + d
  {
  }

  lemma DividesEvenly(x: int, q: int, d: int)
    requires d > 0 && x <= q * d < x + d
    ensures q * d == x <==> x % d == 0
  {
    EvenMultiple(q, d);
    MulOrder(x / d, q, d);
    MulOrder(q, x / d + 1, d);
  }

  lemma EvenMultiple(q: int, d: int)
    requires d > 0
    ensures q * d % d == 0
  {
    var m := q * d / d;
    MulOrder(m, q + 1, d);
    MulOrder(q, m + 1, d);
  }

  /** What a counter is scaled to: the nearest integer; but the quotient of a negative dividend is cut off
      towards 0, so that it is one more than that unless it divides evenly. */
  predicate CounterScales(x: int, q: int, oldclock: nat, newclock: nat)
    requires oldclock > 0
  {
    var dividend := x * newclock + oldclock / 2;
    Nearest(x, if dividend >= 0 || dividend % oldclock == 0 then q else q - 1, oldclock, newclock)
  }

  /** r is q stored in a SINT32. */
  predicate Stored(q: int, r: int)
  {
    -0x8000_0000 <= r < 0x8000_0000 && (q - r) % 0x1_0000_0000 == 0
  }

  lemma ScaledCounter(x: int, oldclock: nat, newclock: nat)
    requires oldclock > 0
    ensures CounterScales(x, Scaled(x, oldclock, newclock), oldclock, newclock)
  {
    var dividend := x * newclock + oldclock / 2;
    if dividend >= 0 {
      ScaledIsNearest(x, oldclock, newclock);
    } else {
      NegativeQuotient(dividend, oldclock);
      DividesEvenly(dividend, Scaled(x, oldclock, newclock), oldclock);
      CutOff(Scaled(x, oldclock, newclock), x * newclock, oldclock, dividend % oldclock == 0);
    }
    hide Quotient;
  }

  lemma CutOff(q: int, product: int, oldclock: nat, even: bool)
    requires var x := product + oldclock / 2; x <= q * oldclock < x + oldclock && (q * oldclock == x <==> even)
    ensures var r := if even then q else q - 1;
      0 < oldclock + 2 * (r * oldclock - product) <= 2 * oldclock
  {
    assert (q - 1) * oldclock == q * oldclock - oldclock;
  }

  lemma StoresSint32(q: int)
    ensures Stored(q, ToSint32(q))
  {
  }

  /** nevent_changeclock: the clocks of the queued events and the counters after it. With equal counters the CPU is
      to stop at the head, whose clock both get; different ones are scaled each by itself. */
  lemma ChangeClockScales(s: State, oldclock: nat, newclock: nat)
    requires InOrder(s)
    ensures var r := ChangeClock(s, oldclock, newclock);
      if oldclock == 0 || s.level == [] then r == s
      else
        && r.cpuClock == s.cpuClock
        && (forall i :: 0 <= i < |s.level| ==>
              Scales(s.item[s.level[i]].clock, r.item[s.level[i]].clock, oldclock, newclock))
        && (forall x: EventId :: !Works(s.level, x) ==> r.item[x] == s.item[x])
        && (s.base == s.rem ==> r.base == r.rem == r.item[s.level[0]].clock)
        && (s.base != s.rem ==> exists q :: CounterScales(s.base, q, oldclock, newclock) && Stored(q, r.base))
        && (s.base != s.rem ==> exists q :: CounterScales(s.rem, q, oldclock, newclock) && Stored(q, r.rem))
  {
    hide Rescaled, Scaled, ToSint32, Scales, CounterScales, Stored, Sorted, Distinct;
    if oldclock > 0 && s.level != [] {
      forall i | 0 <= i < |s.level|
        ensures Scales(s.item[s.level[i]].clock, ChangeClock(s, oldclock, newclock).item[s.level[i]].clock,
                       oldclock, newclock)
      {
        ChangeClockItem(s, oldclock, newclock, i);
        RescaledScales(s.item[s.level[i]].clock, oldclock, newclock);
      }
      ScaledCounter(s.base, oldclock, newclock);
      ScaledCounter(s.rem, oldclock, newclock);
      StoresSint32(Scaled(s.base, oldclock, newclock));
      StoresSint32(Scaled(s.rem, oldclock, newclock));
    }
  }

  /** nevent_changeclock leaves the ready list as it is, and still in due order. */
  lemma ChangeClockKeepsSorted(s: State, oldclock: nat, newclock: nat)
    requires InOrder(s)
    ensures var r := ChangeClock(s, oldclock, newclock);
      && InOrder(r) && r.level == s.level && r.waiting == s.waiting
      && forall x: EventId :: r.item[x] == s.item[x].(clock := r.item[x].clock)
  {
    hide Rescaled, Scaled, ToSint32, IndexOf;
    if oldclock > 0 {
      var r := ChangeClock(s, oldclock, newclock);
      forall i, j | 0 <= i < j < |r.level| ensures r.item[r.level[i]].clock <= r.item[r.level[j]].clock {
        ChangeClockItem(s, oldclock, newclock, i);
        ChangeClockItem(s, oldclock, newclock, j);
        RescaledKeepsOrder(s.item[s.level[i]].clock, s.item[s.level[j]].clock, oldclock, newclock);
      }
    }
  }

  /** When nevent_changeclock leaves CPU_BASECLOCK no later than the head of the ready list. It scales the
      counter by itself unless it equals CPU_REMCLOCK, and an overdue head not at all; a counter that
      becomes too small for a SINT32 wraps around, and may then come out anywhere. */
  predicate ClockChangeIsSafe(s: State, oldclock: nat, newclock: nat)
    requires |s.item| == MAXEVENTS
  {
    oldclock == 0 || s.level == [] || s.base == s.rem ||
    var head, scaled := s.item[s.level[0]].clock, Scaled(s.base, oldclock, newclock);
    if scaled < -0x8000_0000 then ToSint32(scaled) <= Rescaled(head, oldclock, newclock)
    else head >= 0 || s.base * newclock + oldclock / 2 <= head * oldclock
  }

  lemma ScaledAheadOfPositive(base: int, head: int, oldclock: nat, newclock: nat)
    requires oldclock > 0 && base <= head && head > 0
    requires Scaled(base, oldclock, newclock) >= -0x8000_0000
    ensures ToSint32(Scaled(base, oldclock, newclock)) <= Rescaled(head, oldclock, newclock)
  {
    ScaledKeepsOrder(base, head, oldclock, newclock);
  }

  lemma ScaledZero(oldclock: nat, newclock: nat)
    requires oldclock > 0
    ensures Scaled(0, oldclock, newclock) == 0
  {
    var half := oldclock / 2;
    assert 0 * newclock == 0;
    var q := half / oldclock;
    if q > 0 { MulKeepsOrder(1, q, oldclock); }
  }

  lemma ScaledAheadOfZero(base: int, oldclock: nat, newclock: nat)
    requires oldclock > 0 && base <= 0
    requires Scaled(base, oldclock, newclock) >= -0x8000_0000
    ensures ToSint32(Scaled(base, oldclock, newclock)) == Scaled(base, oldclock, newclock) <= 0
  {
    ScaledKeepsOrder(base, 0, oldclock, newclock);
    ScaledZero(oldclock, newclock);
  }

  lemma ScaledAgainstHead(base: int, head: int, oldclock: nat, newclock: nat)
    requires oldclock > 0 && base <= head
    requires Scaled(base, oldclock, newclock) >= -0x8000_0000
    ensures ToSint32(Scaled(base, oldclock, newclock)) <= Rescaled(head, oldclock, newclock)
      <==> head >= 0 || base * newclock + oldclock / 2 <= head * oldclock
  {
    if head > 0 {
      ScaledAheadOfPositive(base, head, oldclock, newclock);
    } else {
      ScaledAheadOfZero(base, oldclock, newclock);
      if head < 0 { QuotientBelowNegative(base * newclock + oldclock / 2, oldclock, head); }
    }
  }

  /** nevent_changeclock keeps the invariant of the ready list exactly when the change is safe. */
  lemma ChangeClockKeepsQueued(s: State, oldclock: nat, newclock: nat)
    requires Queued(s)
    ensures Queued(ChangeClock(s, oldclock, newclock)) <==> ClockChangeIsSafe(s, oldclock, newclock)
  {
    if oldclock > 0 && s.level != [] {
      ChangeClockKeepsSorted(s, oldclock, newclock);
      ChangeClockItem(s, oldclock, newclock, 0);
      if Scaled(s.base, oldclock, newclock) >= -0x8000_0000 {
        ScaledAgainstHead(s.base, s.item[s.level[0]].clock, oldclock, newclock);
      }
      hide Scaled, Rescaled, ToSint32, InOrder;
    }
  }

  // ---------------------------------------------------------------- runs

  /** One thing that can happen to the scheduler while the CPU clock stays as it is. */
  datatype Step =
    | Tick(clocks: int)         // the CPU consumes clocks of CPU_REMCLOCK
    | Adjust(c: int)            // REMAIN_ADJUST of the CPU core
    | OneMore                   // NEXT_OPCODE of the CPU core
    | Ask(call: Call)           // nevent_set, nevent_reset or nevent_forceexit
    | Elapse(scripts: Scripts)  // nevent_progress

  function Do(s: State, step: Step): (r: State)
    requires |s.item| == MAXEVENTS
    ensures |r.item| == MAXEVENTS
  {
    match step
    case Tick(clocks) => s.(rem := s.rem - clocks)
    case Adjust(c) => AdjustRemain(s, c)
    case OneMore => NextOpcode(s)
    case Ask(call) => Apply(s, call)
    case Elapse(scripts) => Progress(s, scripts)
  }

  /** The state after the first n steps. */
  function Run(s: State, steps: seq<Step>, n: nat): (r: State)
    requires |s.item| == MAXEVENTS && n <= |steps|
    ensures |r.item| == MAXEVENTS
  {
    if n == 0 then s else Do(Run(s, steps, n - 1), steps[n - 1])
  }

  lemma ApplyKeepsIdle(s: State, call: Call)
    requires Idle(s)
    ensures Idle(Apply(s, call)) && Now(Apply(s, call)) == Now(s)
  {
    ApplyKeepsQueued(s, call);
    ApplyTouches(s, call, if call.ForceExit? then {} else {call.id});
  }

  lemma ApplyKeepsResting(s: State, call: Call)
    requires Resting(s)
    ensures Resting(Apply(s, call)) && Now(Apply(s, call)) == Now(s)
  {
    ApplyKeepsInOrder(s, call);
    ApplyTouches(s, call, if call.ForceExit? then {} else {call.id});
  }

  /** Every step keeps the ready list in order, and time moves only as the CPU consumes clocks. */
  lemma DoKeepsResting(s: State, step: Step)
    requires Resting(s)
    ensures Resting(Do(s, step)) && Now(Do(s, step)) == Now(s) + if step.Tick? then step.clocks else 0
  {
    match step
    case Tick(_) =>
    case Adjust(_) =>
    case OneMore =>
    case Ask(call) => ApplyKeepsResting(s, call);
    case Elapse(scripts) => ProgressRestores(s, scripts);
  }

  /** By how many clocks this step puts off the end of the slice. */
  function PutOff(s: State, step: Step): int
  {
    match step
    case Adjust(c) => c - s.rem
    case OneMore => if s.rem < 1 then 1 - s.rem else 0
    case _ => 0
  }

  /** The step does not put it off past the head of the ready list. */
  predicate InTime(s: State, step: Step)
    requires |s.item| == MAXEVENTS
  {
    s.level == [] || s.base + PutOff(s, step) <= s.item[s.level[0]].clock
  }

  /** Every step but one that puts off the end of the slice past the head keeps the whole invariant. */
  lemma DoKeepsIdle(s: State, step: Step)
    requires Idle(s)
    ensures Idle(Do(s, step)) <==> InTime(s, step)
  {
    match step
    case Tick(_) =>
    case Adjust(_) =>
    case OneMore =>
    case Ask(call) => ApplyKeepsIdle(s, call);
    case Elapse(scripts) => ProgressRestores(s, scripts);
  }

  // ---------------------------------------------------------------- how late an event can be

  lemma PlaceKeepsOverrun(s: State, id: EventId)
    requires |s.item| == MAXEVENTS
    ensures Overrun(Place(s, id)) <= Overrun(s)
  {
    var k := InsertAt(s.level, s.item, s.item[id].clock, 0);
    assert (s.level[..k] + [id] + s.level[k..])[0] == if k == 0 then id else s.level[0];
  }

  lemma SetKeepsOverrun(s: State, id: EventId, eventclock: int, proc: Proc, absolute: bool)
    requires InOrder(s)
    ensures Overrun(SetEvent(s, id, eventclock, proc, absolute)) <= Overrun(s)
  {
    var w, x := Without(s.level, id), NewItem(s, id, eventclock, proc, absolute);
    ResetKeepsOverrun(s, id);
    ResetKeepsInOrder(s, id);
    assert w != [] ==> w[0] != id;
    hide InOrder, Without, Absent, Place;
    PlaceKeepsOverrun(s.(item := s.item[id := x], level := w), id);
  }

  lemma ResetKeepsOverrun(s: State, id: EventId)
    requires InOrder(s)
    ensures Overrun(ResetEvent(s, id)) <= Overrun(s)
  {
    var p, w := IndexOf(s.level, id, 0), Without(s.level, id);
    WithoutFacts(s.level, id);
    assert w != [] ==> w[0] == s.level[if 0 < p then 0 else 1];
  }

  /** Only the CPU core sets itself to run further past the head, by what it puts off the end of the slice;
      after nevent_progress it does not run past the head at all. */
  lemma StepOverruns(s: State, step: Step)
    requires Resting(s)
    ensures Overrun(Do(s, step))
      <= if step.Elapse? then 0 else Overrun(s) + if PutOff(s, step) > 0 then PutOff(s, step) else 0
  {
    match step
    case Tick(_) =>
    case Adjust(_) =>
    case OneMore =>
    case Ask(Set(id, eventclock, proc, absolute)) => SetKeepsOverrun(s, id, eventclock, proc, absolute);
    case Ask(Reset(id)) => ResetKeepsOverrun(s, id);
    case Ask(ForceExit) =>
    case Elapse(scripts) => ProgressRestores(s, scripts);
  }

  /** The clocks by which the CPU core has put off the end of the current slice. */
  function Delay(s: State, steps: seq<Step>, n: nat): nat
    requires |s.item| == MAXEVENTS && n <= |steps|
  {
    if n == 0 then Overrun(s) else if steps[n - 1].Elapse? then 0 else
      var more := PutOff(Run(s, steps, n - 1), steps[n - 1]);
      Delay(s, steps, n - 1) + if more > 0 then more else 0
  }

  lemma {:induction false} RunKeepsResting(s: State, steps: seq<Step>, n: nat)
    requires |s.item| == MAXEVENTS && Resting(s) && n <= |steps|
    ensures Resting(Run(s, steps, n))
  {
    hide InOrder, Do;
    if n > 0 {
      RunKeepsResting(s, steps, n - 1);
      DoKeepsResting(Run(s, steps, n - 1), steps[n - 1]);
    }
  }

  /** Over any run, the CPU runs past the head of the ready list by at most the clocks by which its core has
      put off the end of the current slice: so no event is later than that. */
  lemma {:induction false} DelayBounds(s: State, steps: seq<Step>, n: nat)
    requires |s.item| == MAXEVENTS && Resting(s) && n <= |steps|
    ensures Overrun(Run(s, steps, n)) <= Delay(s, steps, n)
  {
    hide Resting, Do, Overrun, PutOff;
    if n > 0 {
      DelayBounds(s, steps, n - 1);
      RunKeepsResting(s, steps, n - 1);
      StepOverruns(Run(s, steps, n - 1), steps[n - 1]);
    }
  }

  // ---------------------------------------------------------------- sessions

  /** Everything that can happen: steps, changes of the CPU clock, and nevent_get1stevent. */
  datatype Act = Plain(step: Step) | Rescale(oldclock: nat, newclock: nat) | First

  function DoAct(s: State, act: Act): (r: State)
    requires |s.item| == MAXEVENTS
    ensures |r.item| == MAXEVENTS
  {
    match act
    case Plain(step) => Do(s, step)
    case Rescale(oldclock, newclock) => ChangeClock(s, oldclock, newclock)
    case First => Get1stEvent(s)
  }

  function Session(s: State, acts: seq<Act>, n: nat): (r: State)
    requires |s.item| == MAXEVENTS && n <= |acts|
    ensures |r.item| == MAXEVENTS
  {
    if n == 0 then s else DoAct(Session(s, acts, n - 1), acts[n - 1])
  }

  lemma DoActKeepsResting(s: State, act: Act)
    requires Resting(s)
    ensures Resting(DoAct(s, act))
  {
    match act
    case Plain(step) => DoKeepsResting(s, step);
    case Rescale(oldclock, newclock) => ChangeClockKeepsSorted(s, oldclock, newclock);
    case First =>
  }

  lemma LevelFits(s: State)
    requires InOrder(s)
    ensures |s.level| <= MAXEVENTS
  {
    Pigeonhole(s.level, MAXEVENTS);
  }

  /** In every reachable state, whatever has been asked for and however the clock was changed, each event
      is queued at most once, the ready list fits its array and is in due order, no event is marked, and
      nothing is left waiting. */
  lemma {:induction false} SessionKeepsSorted(s: State, acts: seq<Act>, n: nat)
    requires |s.item| == MAXEVENTS && Resting(s) && n <= |acts|
    ensures Resting(Session(s, acts, n)) && |Session(s, acts, n).level| <= MAXEVENTS
  {
    hide InOrder, DoAct;
    if n > 0 {
      SessionKeepsSorted(s, acts, n - 1);
      DoActKeepsResting(Session(s, acts, n - 1), acts[n - 1]);
    }
    LevelFits(Session(s, acts, n));
  }

  /** And wherever the CPU was set to run, one nevent_progress restores the whole invariant. */
  lemma SessionRecovers(s: State, acts: seq<Act>, n: nat, scripts: Scripts)
    requires |s.item| == MAXEVENTS && Resting(s) && n <= |acts|
    ensures Idle(Progress(Session(s, acts, n), scripts))
  {
    hide Resting, Idle, Session;
    SessionKeepsSorted(s, acts, n);
    ProgressRestores(Session(s, acts, n), scripts);
  }

  // ---------------------------------------------------------------- callers that look ahead

  /** An event is never asked for in the past. */
  predicate Forward(call: Call) { call.Set? ==> call.eventclock >= 0 }

  predicate AllForward(scripts: Scripts)
  {
    forall id: EventId, i :: 0 <= i < |scripts[id]| ==> Forward(scripts[id][i])
  }

  /** The counters as they are then: the CPU is never behind, and no event either. */
  ghost predicate Ahead(s: State)
  {
    |s.item| == MAXEVENTS && 0 <= s.base && s.rem <= s.base && forall id: EventId :: 0 <= s.item[id].clock
  }

  /** What keeps the whole invariant: no event in the past, no more clocks given back than the slice had,
      no end of a slice put off past the head or to before its beginning, nevent_progress only when
      CPU_REMCLOCK is used up, and scaled counters that fit a SINT32. */
  predicate Mannered(s: State, act: Act)
    requires |s.item| == MAXEVENTS
  {
    match act
    case Plain(Tick(clocks)) => s.rem - clocks <= s.base
    case Plain(Adjust(c)) => InTime(s, Adjust(c)) && s.base + c >= s.rem
    case Plain(OneMore) => InTime(s, OneMore)
    case Plain(Ask(call)) => Forward(call)
    case Plain(Elapse(scripts)) => AllForward(scripts) && s.rem <= 0
    case Rescale(oldclock, newclock) => oldclock > 0 ==>
      (Scaled(s.base, oldclock, newclock) <= INT_MAX && -0x8000_0000 <= Scaled(s.rem, oldclock, newclock))
    case First => true
  }

  lemma ApplyKeepsAhead(s: State, call: Call)
    requires Ahead(s) && Forward(call)
    ensures Ahead(Apply(s, call))
  {
    if call.Set? {
      SetIs(s, call.id, call.eventclock, call.proc, call.absolute);
      SetMakesDue(s, call.id, call.eventclock, call.proc, call.absolute);
    }
  }

  lemma {:induction false} ApplyAllKeepsAhead(s: State, calls: seq<Call>, n: nat)
    requires |s.item| == MAXEVENTS && Ahead(s) && n <= |calls| && forall i :: 0 <= i < n ==> Forward(calls[i])
    ensures Ahead(ApplyAll(s, calls, n))
  {
    hide Ahead, Apply;
    if n > 0 {
      ApplyAllKeepsAhead(s, calls, n - 1);
      ApplyKeepsAhead(ApplyAll(s, calls, n - 1), calls[n - 1]);
    }
  }

  lemma DispatchOneKeepsAhead(s: State, scripts: Scripts, id: EventId)
    requires Ahead(s) && AllForward(scripts)
    ensures Ahead(DispatchOne(s, scripts, id))
  {
    ApplyAllKeepsAhead(s, scripts[id], |scripts[id]|);
    hide ApplyAll;
  }

  lemma {:induction false} DispatchKeepsAhead(s: State, scripts: Scripts, k: nat)
    requires |s.item| == MAXEVENTS && Ahead(s) && AllForward(scripts) && k <= |s.waiting|
    ensures Ahead(Dispatched(s, scripts, k))
  {
    hide Ahead, AllForward, DispatchOne;
    if k > 0 {
      DispatchKeepsAhead(s, scripts, k - 1);
      DispatchOneKeepsAhead(Dispatched(s, scripts, k - 1), scripts, s.waiting[k - 1]);
    }
  }

  lemma AdvanceKeepsAhead(s: State)
    requires Idle(s) && Ahead(s) && s.rem <= 0
    ensures Ahead(Advance(s))
  {
    NextBaseIsSafe(s.level, s.item, s.base, |s.level|);
    DueCountSplits(s);
    forall x: EventId ensures 0 <= Advance(s).item[x].clock {
      var i := IndexOf(s.level, x, 0);
      if i < |s.level| { AdvanceItem(s, i); }
    }
  }

  lemma ProgressKeepsAhead(s: State, scripts: Scripts)
    requires Idle(s) && Ahead(s) && AllForward(scripts) && s.rem <= 0
    ensures Ahead(Progress(s, scripts))
  {
    AdvanceKeepsAhead(s);
    DispatchKeepsAhead(Advance(s), scripts, |Advance(s).waiting|);
    hide Advance, Dispatched, CarriedOver, AllForward;
  }

  lemma Kept(x: int)
    requires -0x8000_0000 <= x <= INT_MAX
    ensures ToSint32(x) == x
  {
  }

  lemma ChangeClockKeepsAhead(s: State, oldclock: nat, newclock: nat)
    requires Idle(s) && Ahead(s) && Mannered(s, Rescale(oldclock, newclock))
    ensures Idle(ChangeClock(s, oldclock, newclock)) && Ahead(ChangeClock(s, oldclock, newclock))
  {
    ChangeClockKeepsSorted(s, oldclock, newclock);
    if oldclock > 0 && s.level != [] {
      var r := ChangeClock(s, oldclock, newclock);
      ScaledKeepsOrder(0, s.base, oldclock, newclock);
      ScaledZero(oldclock, newclock);
      ScaledKeepsOrder(s.rem, s.base, oldclock, newclock);
      Kept(Scaled(s.base, oldclock, newclock));
      Kept(Scaled(s.rem, oldclock, newclock));
      ChangeClockKeepsQueued(s, oldclock, newclock);
      hide Scaled, ToSint32, InOrder, Quotient;
      assert r.item[s.level[0]].clock >= 0;
    }
  }

  lemma DoActKeepsAhead(s: State, act: Act)
    requires Idle(s) && Ahead(s) && Mannered(s, act)
    ensures Idle(DoAct(s, act)) && Ahead(DoAct(s, act))
  {
    match act
    case Plain(Tick(_)) =>
    case Plain(Adjust(_)) =>
    case Plain(OneMore) =>
    case Plain(Ask(call)) =>
      ApplyKeepsIdle(s, call);
      ApplyKeepsAhead(s, call);
    case Plain(Elapse(scripts)) =>
      ProgressRestores(s, scripts);
      ProgressKeepsAhead(s, scripts);
    case Rescale(oldclock, newclock) => ChangeClockKeepsAhead(s, oldclock, newclock);
    case First =>
  }

  /** While the callers keep to their part, the whole invariant holds in every reachable state, through
      every change of the clock: the CPU is never set to run past the head of the ready list, and neither
      its counter nor any event is ever behind. */
  lemma {:induction false} SessionKeepsIdle(s: State, acts: seq<Act>, n: nat)
    requires |s.item| == MAXEVENTS && Idle(s) && Ahead(s) && n <= |acts|
    requires forall i :: 0 <= i < n ==> Mannered(Session(s, acts, i), acts[i])
    ensures Idle(Session(s, acts, n)) && Ahead(Session(s, acts, n))
  {
    hide Idle, Ahead, DoAct, Mannered;
    if n > 0 {
      SessionKeepsIdle(s, acts, n - 1);
      DoActKeepsAhead(Session(s, acts, n - 1), acts[n - 1]);
    }
  }
}
