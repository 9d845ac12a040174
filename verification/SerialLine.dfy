/** The receive side of the RS-232C BIOS on values: what an interrupt and what a read do to the
    queue of received words, and what is proved of any sequence of them. */
module SerialLine {
  import opened Chunks

  datatype Code = Xoff | Xon

  /** dx is the size of the buffer in bytes, full and stopped are the flags RFLAG_BFULL and RFLAG_XOFF,
      sent lists the flow-control codes sent so far. */
  datatype Line = Line(dx: nat, flow: bool, queue: seq<nat>, full: bool, stopped: bool, sent: seq<Code>,
                       cmd: nat, intr: nat)

  /** How many words the ring holds: one even if there is no room for it. */
  function Capacity(dx: nat): (c: nat)
    ensures c > 0
  {
    if dx == 0 then 1 else (dx + 1) / 2
  }

  /** The queue lengths at which bios0x19 has XOFF and XON sent. */
  function StopMark(dx: nat): nat { dx / 8 + dx / 4 }

  function GoMark(dx: nat): nat { dx / 8 }

  /** Flags in a byte. */
  function SetBit(b: nat, bit: nat): nat
    requires bit > 0
  {
    if b / bit % 2 == 1 then b else b + bit
  }

  /** bios0x0c: one word has been received. */
  function Put(s: Line, w: nat): Line
  {
    if s.full then s.(cmd := SetBit(s.cmd, 0x20), intr := SetBit(s.intr, 0x80))
    else
      var queue := s.queue + [w];
      var off := s.flow && !s.stopped && |queue| >= StopMark(s.dx);
      s.(queue := queue, full := |queue| == Capacity(s.dx), stopped := s.stopped || off,
         sent := if off then s.sent + [Xoff] else s.sent, intr := SetBit(s.intr, 0x80))
  }

  /** Function 4 of bios0x19: one word is taken. */
  function Get(s: Line): Line
  {
    if s.queue == [] then s else
      var queue := s.queue[1..];
      var on := s.stopped && |queue| < GoMark(s.dx);
      s.(queue := queue, stopped := s.stopped && !on, sent := if on then s.sent + [Xon] else s.sent)
  }

  /** Functions 0 and 1: an empty ring, with flow control for function 1. */
  function Fresh(dx: nat, ah: nat, cmd: nat): Line
  {
    Line(dx, ah == 1, [], false, false, [], cmd, 0)
  }

  datatype Step = Arrive(w: nat) | Read

  function Do(s: Line, step: Step): Line
  {
    if step.Arrive? then Put(s, step.w) else Get(s)
  }

  function Run(s: Line, steps: seq<Step>, n: nat): Line
    requires n <= |steps|
  {
    if n == 0 then s else Do(Run(s, steps, n - 1), steps[n - 1])
  }

  /** The words that arrived, those that were taken into the ring, and those that were read. */
  function Received(steps: seq<Step>, n: nat): seq<nat>
    requires n <= |steps|
  {
    if n == 0 then [] else Received(steps, n - 1) + if steps[n - 1].Arrive? then [steps[n - 1].w] else []
  }

  function Accepted(s: Line, steps: seq<Step>, n: nat): seq<nat>
    requires n <= |steps|
  {
    if n == 0 then [] else
      Accepted(s, steps, n - 1) + if steps[n - 1].Arrive? && !Run(s, steps, n - 1).full then [steps[n - 1].w] else []
  }

  function Delivered(s: Line, steps: seq<Step>, n: nat): seq<nat>
    requires n <= |steps|
  {
    if n == 0 then [] else
      var q := Run(s, steps, n - 1).queue;
      Delivered(s, steps, n - 1) + if steps[n - 1].Read? && q != [] then [q[0]] else []
  }

  // ---------------------------------------------------------------- the invariant

  /** XOFF and XON take turns, XOFF first. */
  ghost predicate Alternates(sent: seq<Code>)
  {
    forall i :: 0 <= i < |sent| ==> sent[i] == if i % 2 == 0 then Xoff else Xon
  }

  ghost predicate Sound(s: Line)
  {
    && |s.queue| <= Capacity(s.dx) && (|s.queue| == Capacity(s.dx) ==> s.full)
    && Alternates(s.sent) && (s.stopped <==> |s.sent| % 2 == 1)
    && (!s.flow ==> s.sent == [])
    && (s.flow && s.full ==> s.sent != [])
  }

  lemma FreshIsSound(dx: nat, ah: nat, cmd: nat)
    ensures Sound(Fresh(dx, ah, cmd))
  {
  }

  lemma StopsInTime(dx: nat)
    ensures StopMark(dx) <= Capacity(dx)
  {
  }

  /** The words of the ring fill the buffer. */
  lemma RingFillsBuffer(dx: nat)
    requires dx > 0
    ensures dx <= 2 * Capacity(dx) <= dx + 1
  {
  }

  /** XOFF is sent at three quarters of the ring, XON below a quarter; both marks are rounded down. */
  lemma MarksAre(dx: nat)
    ensures 3 * dx < 8 * StopMark(dx) + 16 && 8 * StopMark(dx) <= 3 * dx
    ensures dx < 8 * GoMark(dx) + 8 && 8 * GoMark(dx) <= dx
  {
    assert dx < 8 * (dx / 8) + 8 && 8 * (dx / 8) <= dx;
    assert dx < 4 * (dx / 4) + 4 && 4 * (dx / 4) <= dx;
  }

  lemma WholeMarks(k: nat)
    ensures StopMark(8 * k) == 3 * k && GoMark(8 * k) == k
  {
    assert 8 * k / 8 == k;
    assert 8 * k / 4 == 2 * k;
  }

  /** When the flow-control codes are sent, for a buffer of a multiple of eight bytes: XOFF by the word that brings
      the ring to three quarters, XON by the read that brings it below a quarter. */
  lemma CodesAreSent(s: Line, w: nat)
    requires s.dx % 8 == 0
    ensures Put(s, w).sent == s.sent +
      if s.flow && !s.full && !s.stopped && 2 * (|s.queue| + 1) * 4 >= 3 * s.dx then [Xoff] else []
    ensures Get(s).sent == s.sent +
      if s.queue != [] && s.stopped && 2 * (|s.queue| - 1) * 4 < s.dx then [Xon] else []
  {
    WholeMarks(s.dx / 8);
    hide Capacity, StopMark, GoMark, SetBit;
    assert s.sent + [] == s.sent;
  }

  lemma PutIsSound(s: Line, w: nat)
    requires Sound(s)
    ensures Sound(Put(s, w))
    ensures s.flow && !s.full && Put(s, w).full ==> Put(s, w).stopped
  {
    StopsInTime(s.dx);
    hide Capacity, StopMark, SetBit;
  }

  lemma GetIsSound(s: Line)
    requires Sound(s)
    ensures Sound(Get(s))
  {
    hide Capacity, GoMark;
  }

  /** In every reachable state the count is within the capacity, the codes sent alternate, and, with flow
      control, XOFF was sent before or when the ring became full. */
  lemma {:induction false} RunIsSound(s: Line, steps: seq<Step>, n: nat)
    requires Sound(s) && n <= |steps|
    ensures Sound(Run(s, steps, n)) && Run(s, steps, n).dx == s.dx && Run(s, steps, n).flow == s.flow
  {
    hide Sound;
    if n > 0 {
      RunIsSound(s, steps, n - 1);
      var t := Run(s, steps, n - 1);
      if steps[n - 1].Arrive? { PutIsSound(t, steps[n - 1].w); } else { GetIsSound(t); }
    }
  }

  // ---------------------------------------------------------------- first in, first out

  lemma TakeFirst(d: seq<nat>, q: seq<nat>)
    requires q != []
    ensures d + q == (d + [q[0]]) + q[1..]
  {
  }

  /** Words are read in the order in which they were accepted, none twice and none left out. */
  lemma {:induction false} FirstInFirstOut(s: Line, steps: seq<Step>, n: nat)
    requires n <= |steps|
    ensures s.queue + Accepted(s, steps, n) == Delivered(s, steps, n) + Run(s, steps, n).queue
  {
    if n > 0 {
      FirstInFirstOut(s, steps, n - 1);
      var r, step := Run(s, steps, n - 1), steps[n - 1];
      FifoStep(s.queue, Accepted(s, steps, n - 1), Delivered(s, steps, n - 1), r, step);
      hide Do;
    }
  }

  lemma FifoStep(q: seq<nat>, a: seq<nat>, d: seq<nat>, r: Line, step: Step)
    requires q + a == d + r.queue
    ensures q + (a + if step.Arrive? && !r.full then [step.w] else [])
         == (d + if step.Read? && r.queue != [] then [r.queue[0]] else []) + Do(r, step).queue
  {
    if step.Arrive? {
      JoinAgain(q, a, if !r.full then [step.w] else []);
      JoinAgain(d, r.queue, if !r.full then [step.w] else []);
    } else if r.queue != [] {
      TakeFirst(d, r.queue);
      JoinAgain(q, a, []);
    } else {
      JoinAgain(q, a, []);
      JoinAgain(d, [], []);
    }
    hide SetBit, Capacity, StopMark, GoMark;
  }

  // ---------------------------------------------------------------- nothing clears RFLAG_BFULL

  /** A ring that has been full takes no word any more, however much of it is read. */
  lemma {:induction false} OnceFull(s: Line, steps: seq<Step>, n: nat)
    requires s.full && n <= |steps|
    ensures Run(s, steps, n).full && Accepted(s, steps, n) == []
  {
    hide SetBit, Capacity, StopMark, GoMark;
    if n > 0 { OnceFull(s, steps, n - 1); }
  }

  /** So what is accepted is a first part of what is received, and all of it unless the ring was full. */
  lemma {:induction false} AcceptedIsPrefix(s: Line, steps: seq<Step>, n: nat)
    requires n <= |steps|
    ensures Accepted(s, steps, n) <= Received(steps, n)
    ensures !Run(s, steps, n).full ==> Accepted(s, steps, n) == Received(steps, n)
  {
    hide SetBit, Capacity, StopMark, GoMark;
    if n > 0 { AcceptedIsPrefix(s, steps, n - 1); }
  }

  // ---------------------------------------------------------------- a sender that obeys

  /** The words that have arrived since the last XOFF, while the line is stopped. */
  function Late(s: Line, steps: seq<Step>, n: nat): nat
    requires n <= |steps|
  {
    if n == 0 || !Run(s, steps, n).stopped then 0
    else if steps[n - 1].Arrive? && Run(s, steps, n - 1).stopped then Late(s, steps, n - 1) + 1
    else Late(s, steps, n - 1)
  }

  /** The queue's length when XOFF is sent. */
  function StopLength(dx: nat): (k: nat)
    ensures k > 0
  {
    if StopMark(dx) == 0 then 1 else StopMark(dx)
  }

  ghost predicate Obeys(s: Line, steps: seq<Step>, n: nat, m: nat)
    requires n <= |steps|
  {
    forall i :: 0 <= i <= n ==> Late(s, steps, i) <= m
  }

  lemma ShortWhileRunning(s: Line, step: Step, late: nat, m: nat)
    requires s.flow && !s.full && late <= m && StopLength(s.dx) + m < Capacity(s.dx)
    requires |s.queue| <= if s.stopped then StopLength(s.dx) + late else StopLength(s.dx) - 1
    requires s.stopped && step.Arrive? ==> late + 1 <= m
    ensures var r := Do(s, step);
      !r.full && |r.queue| <= if !r.stopped then StopLength(s.dx) - 1
        else if s.stopped then StopLength(s.dx) + late + (if step.Arrive? then 1 else 0) else StopLength(s.dx)
  {
    GoBeforeStop(s.dx);
    hide Capacity, SetBit, GoMark;
  }

  lemma GoBeforeStop(dx: nat)
    ensures GoMark(dx) <= StopMark(dx)
  {
  }

  lemma {:induction false} NeverFull(dx: nat, steps: seq<Step>, n: nat, m: nat, cmd: nat)
    requires n <= |steps| && StopLength(dx) + m < Capacity(dx) && Obeys(Fresh(dx, 1, cmd), steps, n, m)
    ensures var s := Fresh(dx, 1, cmd); var r := Run(s, steps, n);
      r.flow && r.dx == dx && !r.full &&
      |r.queue| <= if r.stopped then StopLength(dx) + Late(s, steps, n) else StopLength(dx) - 1
  {
    hide Capacity, SetBit, GoMark, StopLength;
    if n > 0 {
      NeverFull(dx, steps, n - 1, m, cmd);
      var s := Fresh(dx, 1, cmd);
      assert Late(s, steps, n) <= m;
      ShortWhileRunning(Run(s, steps, n - 1), steps[n - 1], Late(s, steps, n - 1), m);
    }
  }

  /** A sender that sends at most m words after each XOFF loses none of them if the ring has room for
      m words more than it holds when XOFF is sent: all are read, in order, or still in the ring. */
  lemma ObedientSenderLosesNothing(dx: nat, steps: seq<Step>, n: nat, m: nat, cmd: nat)
    requires n <= |steps| && StopLength(dx) + m < Capacity(dx) && Obeys(Fresh(dx, 1, cmd), steps, n, m)
    ensures var s := Fresh(dx, 1, cmd);
      Received(steps, n) == Delivered(s, steps, n) + Run(s, steps, n).queue
  {
    var s := Fresh(dx, 1, cmd);
    NeverFull(dx, steps, n, m, cmd);
    AcceptedIsPrefix(s, steps, n);
    FirstInFirstOut(s, steps, n);
    hide Obeys, Run, Accepted, Received, Delivered;
    assert s.queue + Accepted(s, steps, n) == Accepted(s, steps, n);
  }

  function Arrivals(n: nat): seq<Step> { seq(n, i => Arrive(0)) }

  /** With less room, such a sender can fill the ring, and then everything is lost. */
  lemma {:induction false} Filling(dx: nat, cmd: nat, k: nat, n: nat)
    requires n <= k && n <= Capacity(dx)
    ensures var s := Fresh(dx, 1, cmd); var r := Run(s, Arrivals(k), n);
      && r.flow && r.dx == dx && |r.queue| == n && (r.full <==> n == Capacity(dx))
      && (r.stopped <==> n >= StopLength(dx))
      && Late(s, Arrivals(k), n) == if n > StopLength(dx) then n - StopLength(dx) else 0
  {
    hide SetBit, Capacity;
    if n > 0 { Filling(dx, cmd, k, n - 1); }
  }

  lemma RoomIsNeeded(dx: nat, m: nat, cmd: nat) returns (steps: seq<Step>)
    requires StopLength(dx) + m >= Capacity(dx)
    ensures Obeys(Fresh(dx, 1, cmd), steps, |steps|, m) && Run(Fresh(dx, 1, cmd), steps, |steps|).full
  {
    hide Run, Late, Capacity, StopLength;
    var k := Capacity(dx);
    steps := Arrivals(k);
    forall i: nat | i <= k ensures Late(Fresh(dx, 1, cmd), steps, i) <= m { Filling(dx, cmd, k, i); }
    Filling(dx, cmd, k, k);
  }

  // ---------------------------------------------------------------- letting the sender go on

  function Reads(n: nat): seq<Step> { seq(n, i => Read) }

  /** The line after everything in the ring has been read. */
  function Drained(s: Line): Line { Run(s, Reads(|s.queue|), |s.queue|) }

  lemma {:induction false} ReadsEmpty(s: Line, m: nat, n: nat)
    requires n <= m
    ensures var r := Run(s, Reads(m), n); r.dx == s.dx && |r.queue| == if n < |s.queue| then |s.queue| - n else 0
  {
    hide GoMark;
    if n > 0 { ReadsEmpty(s, m, n - 1); }
  }

  /** Reading either leaves a stopped line stopped and sends nothing, or sends one XON. */
  lemma {:induction false} ReadsSendOnce(s: Line, m: nat, n: nat)
    requires s.stopped && n <= m
    ensures var r := Run(s, Reads(m), n); r.sent == if r.stopped then s.sent else s.sent + [Xon]
  {
    hide GoMark;
    if n > 0 { ReadsSendOnce(s, m, n - 1); }
  }

  /** A stopped line has words enough left for the reader to pass the mark for XON. */
  ghost predicate CanResume(s: Line) { s.stopped ==> s.queue != [] && GoMark(s.dx) <= |s.queue| }

  lemma DoKeepsResuming(s: Line, step: Step)
    requires CanResume(s) && s.dx >= 8
    ensures CanResume(Do(s, step)) && Do(s, step).dx == s.dx
  {
    GoBeforeStop(s.dx);
    assert GoMark(s.dx) >= 1;
    hide SetBit, Capacity, StopMark, GoMark;
  }

  lemma {:induction false} RunKeepsResuming(s: Line, steps: seq<Step>, n: nat)
    requires n <= |steps| && CanResume(s) && s.dx >= 8
    ensures CanResume(Run(s, steps, n)) && Run(s, steps, n).dx == s.dx
  {
    hide CanResume, Do;
    if n > 0 {
      RunKeepsResuming(s, steps, n - 1);
      DoKeepsResuming(Run(s, steps, n - 1), steps[n - 1]);
    }
  }

  lemma LargeBufferResumes(s: Line)
    requires CanResume(s) && s.dx >= 8 && s.stopped
    ensures !Drained(s).stopped && Drained(s).sent == s.sent + [Xon]
  {
    hide Run;
    RunKeepsResuming(s, Reads(|s.queue|), |s.queue|);
    ReadsEmpty(s, |s.queue|, |s.queue|);
    ReadsSendOnce(s, |s.queue|, |s.queue|);
  }

  lemma {:induction false} SmallBufferStaysStopped(s: Line, steps: seq<Step>, n: nat)
    requires n <= |steps| && s.dx < 8 && s.stopped
    ensures var r := Run(s, steps, n); r.stopped && r.sent == s.sent && r.dx == s.dx
  {
    hide SetBit, Capacity, StopMark;
    if n > 0 { SmallBufferStaysStopped(s, steps, n - 1); }
  }

  /** A small one is stopped by its first word. */
  lemma SmallBufferStops(dx: nat, cmd: nat, w: nat)
    requires dx < 8
    ensures Run(Fresh(dx, 1, cmd), [Arrive(w)], 1).stopped
  {
    hide SetBit, Capacity;
    assert StopMark(dx) <= 1;
    assert Run(Fresh(dx, 1, cmd), [Arrive(w)], 0) == Fresh(dx, 1, cmd);
  }

  lemma FreshRuns(s: Line, steps: seq<Step>)
    requires |steps| == 1
    ensures Run(s, steps, 1).dx == s.dx
  {
    hide SetBit, Capacity, StopMark, GoMark;
    assert Run(s, steps, 0) == s;
  }

  /** Reading the ring empty lets a stopped sender go on, from every state that can be reached, exactly
      when the buffer has at least eight bytes. */
  lemma ResumesFromEightBytes(dx: nat, cmd: nat)
    ensures (forall steps: seq<Step> :: Run(Fresh(dx, 1, cmd), steps, |steps|).stopped ==>
      !Drained(Run(Fresh(dx, 1, cmd), steps, |steps|)).stopped) <==> dx >= 8
  {
    var s := Fresh(dx, 1, cmd);
    if dx >= 8 {
      forall steps: seq<Step> | Run(s, steps, |steps|).stopped ensures !Drained(Run(s, steps, |steps|)).stopped {
        RunKeepsResuming(s, steps, |steps|);
        LargeBufferResumes(Run(s, steps, |steps|));
      }
    } else {
      var r := Run(s, [Arrive(0)], 1);
      SmallBufferStops(dx, cmd, 0);
      FreshRuns(s, [Arrive(0)]);
      SmallBufferStaysStopped(r, Reads(|r.queue|), |r.queue|);
    }
  }
}
