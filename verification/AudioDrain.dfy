/** The sound side of the emulator loop in main.cpp: every frame adds the emulated cycles it took to an
    accumulator in units of a sample times the clock rate, and whole blocks are taken out and played. */
module AudioDrain {
  import opened Bytes

  const FM_RATE := 22050
  const FM_FRAMES := 441     // stereo frames a block: 20 ms
  const GUARD := 8           // at most that many blocks a frame

  /** snd_acc, rt_prevcyc, and how many blocks have been played. */
  datatype Audio = Audio(acc: int, prev: nat, blocks: nat)

  /** What a frame brings: the cycle counter, an unsigned 32-bit value, the clock rate, and how often
      sound_pcmlock would succeed. */
  datatype Frame = Frame(cyc: nat, hz: nat, avail: nat)

  function Block(hz: nat): nat { FM_FRAMES * hz }

  /** The cycles of a frame, with those that make no sense taken for a 60th of a second. */
  function Dcyc(prev: nat, f: Frame): nat
  {
    var d := (f.cyc - prev) % WORD32;
    if d == 0 || d > f.hz / 20 then f.hz / 60 else d
  }

  /** How many blocks the drain loop takes out with so many tries. */
  function Emitted(acc: int, block: nat, tries: nat): (n: nat)
    ensures n <= tries
  {
    if tries == 0 || acc < block then 0 else 1 + Emitted(acc - block, block, tries - 1)
  }

  function Tries(avail: nat): nat { if avail < GUARD then avail else GUARD }

  function Owed(s: Audio, f: Frame): int { s.acc + Dcyc(s.prev, f) * FM_RATE }

  /** One frame. */
  function Next(s: Audio, f: Frame): Audio
  {
    var n := Emitted(Owed(s, f), Block(f.hz), Tries(f.avail));
    Audio(Owed(s, f) - n * Block(f.hz), f.cyc, s.blocks + n)
  }

  function Run(s: Audio, frames: seq<Frame>, n: nat): Audio
    requires n <= |frames|
  {
    if n == 0 then s else Next(Run(s, frames, n - 1), frames[n - 1])
  }

  // ---------------------------------------------------------------- the drain loop

  lemma OneLess(n: nat, block: nat)
    requires n > 0
    ensures n * block == block + (n - 1) * block
  {
  }

  /** The loop stops for one of three reasons: it is out of tries, or less than a block is left. */
  lemma {:induction false} EmittedIs(acc: int, block: nat, tries: nat)
    requires acc >= 0
    ensures var n := Emitted(acc, block, tries);
      n * block <= acc && (n < tries ==> acc - n * block < block)
  {
    if tries > 0 && acc >= block {
      EmittedIs(acc - block, block, tries - 1);
      OneLess(Emitted(acc, block, tries), block);
    }
  }

  /** With eight tries, everything but a fraction of a block is played exactly when less than nine blocks
      are owed: then the guard does not bind. */
  lemma GuardIsEnough(acc: int, block: nat)
    requires acc >= 0 && block > 0
    ensures var n := Emitted(acc, block, GUARD);
      acc - n * block < block <==> acc < 9 * block
  {
    var n := Emitted(acc, block, GUARD);
    EmittedIs(acc, block, GUARD);
    if n < GUARD { Multiple(n, block); }
  }

  lemma Multiple(n: nat, block: nat)
    requires n <= GUARD
    ensures n * block <= 8 * block
  {
  }

  // ---------------------------------------------------------------- from one clock rate to another

  /** Less than a block is left. */
  predicate Steady(s: Audio, hz: nat) { 0 <= s.acc < Block(hz) }

  /** Eight blocks a frame are enough after a change of the clock rate from hz0 to hz. */
  predicate Bearable(hz0: nat, hz: nat)
  {
    hz0 + 50 * (hz / 20) <= 9 * hz
  }

  /** A count of at most a 20th of a second is taken as it is, any other for a 60th of a second. */
  lemma DcycMeans(prev: nat, f: Frame)
    requires prev < WORD32 && f.cyc < WORD32
    ensures var d, elapsed := Dcyc(prev, f), if f.cyc >= prev then f.cyc - prev else f.cyc + WORD32 - prev;
      if 0 < elapsed && 20 * elapsed <= f.hz then d == elapsed else 60 * d <= f.hz < 60 * d + 60
  {
  }

  lemma DcycRange(prev: nat, f: Frame)
    ensures 0 <= Dcyc(prev, f) <= f.hz / 20
  {
  }

  /** At a constant rate a frame never owes as much as four blocks. */
  lemma OwedAtOneRate(s: Audio, f: Frame)
    requires Steady(s, f.hz)
    ensures 0 <= Owed(s, f) && 2 * Owed(s, f) < 7 * Block(f.hz)
  {
    DcycRange(s.prev, f);
    hide Dcyc;
  }

  /** The most a frame can bring. */
  function Longest(hz: nat): (f: Frame)
    ensures f.hz == hz && f.avail == GUARD && (hz < WORD32 ==> Dcyc(0, f) == hz / 20)
  {
    Frame(hz / 20, hz, GUARD)
  }

  lemma OwedAtMost(s: Audio, f: Frame, hz0: nat)
    requires Steady(s, hz0)
    ensures 0 <= Owed(s, f) <= FM_FRAMES * (hz0 + 50 * (f.hz / 20)) - 1
  {
    DcycRange(s.prev, f);
    hide Dcyc;
  }

  lemma OwedByLongest(hz0: nat, hz: nat)
    requires hz0 > 0 && hz < WORD32
    ensures var s := Audio(Block(hz0) - 1, 0, 0);
      Steady(s, hz0) && Owed(s, Longest(hz)) == FM_FRAMES * (hz0 + 50 * (hz / 20)) - 1
  {
    hide Dcyc;
  }

  /** From less than a block at one clock rate, every frame at another one owes less than nine blocks exactly
      if the change is bearable. */
  lemma OwedIsSmall(hz0: nat, hz: nat)
    requires hz < WORD32
    ensures Bearable(hz0, hz) <==>
      forall s: Audio, f: Frame :: Steady(s, hz0) && f.hz == hz ==> 0 <= Owed(s, f) < 9 * Block(hz)
  {
    hide Dcyc, Owed, Steady;
    if Bearable(hz0, hz) {
      forall s: Audio, f: Frame | Steady(s, hz0) && f.hz == hz ensures 0 <= Owed(s, f) < 9 * Block(hz) {
        OwedAtMost(s, f, hz0);
      }
    } else {
      OwedByLongest(hz0, hz);
      assert !(Owed(Audio(Block(hz0) - 1, 0, 0), Longest(hz)) < 9 * Block(hz));
    }
  }

  /** The guard does not bind, and less than a block is left after the frame, exactly if less than nine
      blocks were owed. */
  lemma FractionAfter(s: Audio, f: Frame)
    requires f.hz > 0 && f.avail >= GUARD && Owed(s, f) >= 0
    ensures Steady(Next(s, f), f.hz) <==> Owed(s, f) < 9 * Block(f.hz)
  {
    GuardIsEnough(Owed(s, f), Block(f.hz));
    EmittedIs(Owed(s, f), Block(f.hz), GUARD);
    hide Dcyc, Owed, Emitted;
  }

  /** So less than a block is left after every such frame exactly if the change is bearable. */
  lemma FrameLeavesFraction(hz0: nat, hz: nat)
    requires 0 < hz < WORD32
    ensures Bearable(hz0, hz) <==>
      forall s: Audio, f: Frame :: Steady(s, hz0) && f.hz == hz && f.avail >= GUARD ==> Steady(Next(s, f), hz)
  {
    hide Dcyc, Owed, Steady, Bearable, Next;
    OwedIsSmall(hz0, hz);
    if Bearable(hz0, hz) {
      forall s: Audio, f: Frame | Steady(s, hz0) && f.hz == hz && f.avail >= GUARD ensures Steady(Next(s, f), hz) {
        FractionAfter(s, f);
      }
    } else {
      Unbearable(hz0, hz);
      assert !Steady(Next(Audio(Block(hz0) - 1, 0, 0), Longest(hz)), hz);
    }
  }

  lemma Unbearable(hz0: nat, hz: nat)
    requires 0 < hz < WORD32 && !Bearable(hz0, hz)
    ensures var s := Audio(Block(hz0) - 1, 0, 0);
      Steady(s, hz0) && !Steady(Next(s, Longest(hz)), hz)
  {
    OwedByLongest(hz0, hz);
    FractionAfter(Audio(Block(hz0) - 1, 0, 0), Longest(hz));
    hide Dcyc, Owed, Steady, Next;
  }

  /** The clock rate before frame i. */
  function RateBefore(frames: seq<Frame>, hz0: nat, i: nat): nat
    requires i <= |frames|
  {
    if i == 0 then hz0 else frames[i - 1].hz
  }

  /** While every change of the clock rate is bearable and sound_pcmlock succeeds, the guard never binds:
      less than a block is left after every frame. */
  lemma {:induction false} GuardNeverBinds(s: Audio, frames: seq<Frame>, n: nat, hz0: nat)
    requires n <= |frames| && Steady(s, hz0)
    requires forall i :: 0 <= i < n ==> (
      0 < frames[i].hz < WORD32 && frames[i].avail >= GUARD && Bearable(RateBefore(frames, hz0, i), frames[i].hz))
    ensures Steady(Run(s, frames, n), RateBefore(frames, hz0, n))
  {
    hide Next, Steady, Bearable;
    if n > 0 {
      GuardNeverBinds(s, frames, n - 1, hz0);
      FrameLeavesFraction(RateBefore(frames, hz0, n - 1), frames[n - 1].hz);
    }
  }

  // ---------------------------------------------------------------- the clock rates of the machine

  /** pccore.realclock at a multiple of one of its two base clocks. */
  function RealClock(fast: bool, multiple: nat): nat
  {
    (if fast then 2457600 else 1996800) * multiple
  }

  /** The guest can set any multiple of 1 to 255: a change is bearable exactly if it does not divide the clock
      rate by more than 6.5. */
  lemma BearableMultiples(fast: bool, m0: nat, m: nat)
    ensures Bearable(RealClock(fast, m0), RealClock(fast, m)) <==> 2 * m0 <= 13 * m
  {
  }

  /** Between the multiples 1 to 5, whatever the base clocks, every change is bearable. */
  lemma SmallMultiples(fast0: bool, m0: nat, fast: bool, m: nat)
    requires 1 <= m0 <= 5 && 1 <= m <= 5
    ensures Bearable(RealClock(fast0, m0), RealClock(fast, m))
  {
  }

  /** From eight times the base clock to once: almost a block is left over, and a full block after a frame of
      a 20th of a second. */
  lemma EightToOne()
    ensures var s := Audio(Block(RealClock(true, 8)) - 441, 0, 0);
      var f := Frame(122880, RealClock(true, 1), GUARD);
      Steady(s, RealClock(true, 8)) && Next(s, f).acc >= Block(f.hz) && Next(s, f).blocks == 8
  {
  }

  lemma ManyBlocks(k: nat, block: nat)
    requires k > 0
    ensures (5 * k + 1) * block == 5 * block + (5 * (k - 1) + 1) * block && (5 * (k - 1) + 1) * block >= block
  {
    OneLess(5 * k + 1, block);
  }

  /** A frame takes out at least five blocks more than it brings, or else leaves less than one. */
  lemma FrameCatchesUp(s: Audio, f: Frame)
    requires f.hz > 0 && f.avail >= GUARD && 0 <= s.acc
    ensures var r := Next(s, f); Steady(r, f.hz) || 0 <= r.acc <= s.acc - 5 * Block(f.hz)
  {
    DcycRange(s.prev, f);
    assert 0 <= Owed(s, f) <= s.acc + 3 * Block(f.hz);
    FractionAfter(s, f);
    EmittedIs(Owed(s, f), Block(f.hz), GUARD);
    hide Dcyc, Owed, Emitted, Block;
  }

  lemma FrameLeaves(s: Audio, f: Frame, k: nat)
    requires 0 < f.hz < WORD32 && f.avail >= GUARD && 0 <= s.acc < (5 * k + 1) * Block(f.hz)
    ensures 0 <= Next(s, f).acc < (5 * (if k > 0 then k - 1 else 0) + 1) * Block(f.hz)
  {
    FrameCatchesUp(s, f);
    if k > 0 { ManyBlocks(k, Block(f.hz)); }
    hide Next;
  }

  /** After a change that is not bearable nothing is lost: of less than 5 * k + 1 blocks, less than
      5 * (k - n) + 1 are left after n frames, and less than one from the k-th on. */
  lemma {:induction false} CatchesUp(s: Audio, frames: seq<Frame>, k: nat, n: nat, hz: nat)
    requires n <= |frames| && 0 < hz < WORD32 && 0 <= s.acc < (5 * k + 1) * Block(hz)
    requires forall i :: 0 <= i < n ==> frames[i].hz == hz && frames[i].avail >= GUARD
    ensures 0 <= Run(s, frames, n).acc < (5 * (if n < k then k - n else 0) + 1) * Block(hz)
  {
    hide Next, Block;
    if n > 0 {
      CatchesUp(s, frames, k, n - 1, hz);
      FrameLeaves(Run(s, frames, n - 1), frames[n - 1], if n - 1 < k then k - (n - 1) else 0);
    }
  }

  // ---------------------------------------------------------------- nothing is lost

  /** The cycles that n frames have counted. */
  function Cycles(s: Audio, frames: seq<Frame>, n: nat): nat
    requires n <= |frames|
  {
    if n == 0 then 0 else Cycles(s, frames, n - 1) + Dcyc(Run(s, frames, n - 1).prev, frames[n - 1])
  }

  lemma Distribute(a: nat, b: nat, block: nat)
    ensures (a + b) * block == a * block + b * block
  {
  }

  lemma FrameConserves(s: Audio, f: Frame)
    ensures var r := Next(s, f);
      r.blocks * Block(f.hz) + r.acc == s.blocks * Block(f.hz) + s.acc + Dcyc(s.prev, f) * FM_RATE
  {
    Distribute(s.blocks, Emitted(Owed(s, f), Block(f.hz), Tries(f.avail)), Block(f.hz));
    hide Emitted, Dcyc, Tries;
  }

  /** At a constant clock rate the blocks played and what is in the accumulator account for every cycle,
      whether or not sound_pcmlock succeeds. */
  lemma {:induction false} Conservation(s: Audio, frames: seq<Frame>, n: nat, hz: nat)
    requires n <= |frames| && forall i :: 0 <= i < n ==> frames[i].hz == hz
    ensures var r := Run(s, frames, n);
      r.blocks * Block(hz) + r.acc == s.blocks * Block(hz) + s.acc + Cycles(s, frames, n) * FM_RATE
  {
    hide Next, Dcyc;
    if n > 0 {
      Conservation(s, frames, n - 1, hz);
      FrameConserves(Run(s, frames, n - 1), frames[n - 1]);
    }
  }

  /** So with sound_pcmlock always succeeding, the blocks played are exactly the whole 50ths of a second
      of emulated time: no frame's fraction is ever dropped. */
  lemma PlayedExactly(frames: seq<Frame>, n: nat, hz: nat, prev: nat)
    requires n <= |frames| && 0 < hz < WORD32
    requires forall i :: 0 <= i < n ==> frames[i].hz == hz && frames[i].avail >= GUARD
    ensures var s := Audio(0, prev, 0); var played := Run(s, frames, n).blocks;
      played * hz <= 50 * Cycles(s, frames, n) < (played + 1) * hz
  {
    hide Run, Cycles, Next, Block;
    FractionLeft(frames, n, hz, prev);
    FromNothing(frames, n, hz, prev);
    var s := Audio(0, prev, 0);
    WholeBlocks(Run(s, frames, n).blocks, Run(s, frames, n).acc, Cycles(s, frames, n), hz);
  }

  lemma FractionLeft(frames: seq<Frame>, n: nat, hz: nat, prev: nat)
    requires n <= |frames| && 0 < hz < WORD32
    requires forall i :: 0 <= i < n ==> frames[i].hz == hz && frames[i].avail >= GUARD
    ensures Steady(Run(Audio(0, prev, 0), frames, n), hz)
  {
    hide Run, Next;
    GuardNeverBinds(Audio(0, prev, 0), frames, n, hz);
  }

  lemma FromNothing(frames: seq<Frame>, n: nat, hz: nat, prev: nat)
    requires n <= |frames| && forall i :: 0 <= i < n ==> frames[i].hz == hz
    ensures var s := Audio(0, prev, 0); var r := Run(s, frames, n);
      r.blocks * Block(hz) + r.acc == Cycles(s, frames, n) * FM_RATE
  {
    Conservation(Audio(0, prev, 0), frames, n, hz);
    hide Run, Cycles, Next, Block;
  }

  lemma BlocksOf(n: nat, hz: nat)
    ensures n * Block(hz) == FM_FRAMES * (n * hz)
  {
  }

  lemma WholeBlocks(played: nat, acc: int, cycles: nat, hz: nat)
    requires played * Block(hz) + acc == cycles * FM_RATE && 0 <= acc < Block(hz)
    ensures played * hz <= 50 * cycles < (played + 1) * hz
  {
    BlocksOf(played, hz);
    Distribute(played, 1, hz);
  }

  /** The emulated time at the end of each frame, of which the counter keeps the lowest 32 bits. */
  ghost predicate Follows(s: Audio, frames: seq<Frame>, times: seq<nat>, n: nat)
    requires n <= |frames| && n < |times|
  {
    && s.prev == times[0] % WORD32
    && forall i :: 0 <= i < n ==>
      (frames[i].cyc == times[i + 1] % WORD32 && times[i] < times[i + 1] <= times[i] + frames[i].hz / 20 &&
       frames[i].hz < WORD32)
  }

  lemma WrapAround(t: nat, u: nat)
    requires t <= u < t + WORD32
    ensures (u % WORD32 - t % WORD32) % WORD32 == u - t
  {
    var q, r := t / WORD32, t % WORD32;
    if r + (u - t) < WORD32 { Remainder(q, r + (u - t)); } else { Remainder(q + 1, r + (u - t) - WORD32); }
  }

  lemma Remainder(q: nat, r: nat)
    requires r < WORD32
    ensures (WORD32 * q + r) % WORD32 == r
  {
  }

  lemma DcycIs(prev: nat, f: Frame, t: nat, u: nat)
    requires prev == t % WORD32 && f.cyc == u % WORD32 && t < u <= t + f.hz / 20 && f.hz < WORD32
    ensures Dcyc(prev, f) == u - t
  {
    WrapAround(t, u);
  }

  lemma {:induction false} PrevIs(s: Audio, frames: seq<Frame>, n: nat)
    requires n <= |frames|
    ensures Run(s, frames, n).prev == if n == 0 then s.prev else frames[n - 1].cyc
  {
    hide Emitted, Dcyc;
  }

  /** While frames take less than a 20th of a second, the cycles counted are the emulated time that has
      passed, however often the counter wraps around. */
  lemma {:induction false} CyclesAreTime(s: Audio, frames: seq<Frame>, times: seq<nat>, n: nat)
    requires n <= |frames| && n < |times| && Follows(s, frames, times, n)
    ensures Cycles(s, frames, n) + times[0] == times[n]
  {
    hide Dcyc, Run;
    if n > 0 {
      CyclesAreTime(s, frames, times, n - 1);
      PrevIs(s, frames, n - 1);
      DcycIs(Run(s, frames, n - 1).prev, frames[n - 1], times[n - 1], times[n]);
    }
  }

  // ---------------------------------------------------------------- the loop as it works

  /** The local variables of the emulator loop that the drain uses. */
  class Drain {
    var sndAcc: int
    var rtPrevcyc: nat
    var played: nat      // blocks handed to audio_write_s32
    var locks: nat       // how often sound_pcmlock will still succeed in this frame

    ghost function View(): Audio
      reads this
    {
      Audio(sndAcc, rtPrevcyc, played)
    }

    constructor (cyc: nat)
      ensures View() == Audio(0, cyc, 0)
    {
      sndAcc, rtPrevcyc, played, locks := 0, cyc, 0, 0;
    }

    /** sound_pcmlock, which gives a block of samples or none. */
    method PcmLock() returns (pcm: bool)
      modifies this`locks
      ensures pcm <==> old(locks) > 0
      ensures locks == if pcm then old(locks) - 1 else old(locks)
    {
      pcm := locks > 0;
      if pcm { locks := locks - 1; }
    }

    /** The drain of one frame. */
    method DrainFrame(cyc: nat, rtHz: nat, avail: nat)
      requires cyc < WORD32
      modifies this
      ensures View() == Next(old(View()), Frame(cyc, rtHz, avail))
    {
      locks := avail;
      var dcyc := (cyc - rtPrevcyc) % WORD32;
      rtPrevcyc := cyc;
      if dcyc == 0 || dcyc > rtHz / 20 { dcyc := rtHz / 60; }
      sndAcc := sndAcc + dcyc * FM_RATE;
      var block := FM_FRAMES * rtHz;
      DrainBlocks(block);
    }

    /** The guarded loop. */
    method DrainBlocks(block: nat)
      modifies this
      ensures var n := Emitted(old(sndAcc), block, Tries(old(locks)));
        sndAcc == old(sndAcc) - n * block && played == old(played) + n
      ensures rtPrevcyc == old(rtPrevcyc)
    {
      hide Emitted;
      var guard: nat := 0;
      while sndAcc >= block && guard < GUARD
        invariant guard <= GUARD && rtPrevcyc == old(rtPrevcyc)
        invariant played == old(played) + guard && sndAcc == old(sndAcc) - guard * block
        invariant Emitted(old(sndAcc), block, Tries(old(locks))) == guard + Emitted(sndAcc, block, Left(locks, guard))
        decreases GUARD - guard
      {
        EmittedStep(sndAcc, block, Left(locks, guard));
        var pcm := PcmLock();
        if !pcm { break; }
        played := played + 1;
        sndAcc := sndAcc - block;
        guard := guard + 1;
        OneLess(guard, block);
      }
      EmittedStep(sndAcc, block, Left(locks, guard));
    }
  }

  /** The tries left in the loop: as long as there are blocks, and the guard allows. */
  function Left(locks: nat, guard: nat): nat
    requires guard <= GUARD
  {
    if locks < GUARD - guard then locks else GUARD - guard
  }

  lemma EmittedStep(acc: int, block: nat, tries: nat)
    ensures Emitted(acc, block, tries) ==
      if tries == 0 || acc < block then 0 else 1 + Emitted(acc - block, block, tries - 1)
  {
  }
}
