/** The framebuffer hand-off between the two cores (lcd_st7789.cpp, with the loop of main.cpp) as
    interleaved atomic steps. Core 0 runs blit_task; core 1 draws and calls lcd_blit. They share the
    busy flag s_blit_busy, the mailbox s_fb and the task notification. */
module Handoff {
  import opened Wrappers

  /** A framebuffer and how often it has been drawn: which picture it holds. */
  datatype Frame = Frame(buffer: nat, version: nat)

  /** Where blit_task is: the next thing it does. */
  datatype Core0 =
    | Take                  // ulTaskNotifyTake, blocked while nothing is pending
    | Check                 // while (s_fb)
    | Fetch                 // fb = s_fb
    | Empty(fb: nat)        // s_fb = nullptr
    | Blit(frame: Frame)    // inside do_blit, reading the buffer
    | ClearBusy             // s_blit_busy = 0
    | Recheck               // if (s_fb)
    | Rearm                 // s_blit_busy = 1

  /** Where core 1 is. */
  datatype Core1 =
    | Idle                  // outside drawing and lcd_blit
    | Drawing(fb: nat)      // writing the buffer
    | SetBusy(fb: nat)      // in lcd_blit: s_blit_busy = 1
    | Post(fb: nat)         // s_fb = fb
    | Give                  // xTaskNotifyGive

  /** mailbox 0 is the null pointer. polled records that core 1 has seen the busy flag clear since
      its last lcd_blit. handed is the last frame posted, shown the last one fully blitted. */
  datatype State = State(core0: Core0, core1: Core1, busy: bool, mailbox: nat, pending: nat, polled: bool,
                         drawn: map<nat, nat>, handed: Option<Frame>, shown: Option<Frame>)

  const START := State(Take, Idle, false, 0, 0, false, map[], None, None)

  /** How core 1 behaves. It always polls before it draws. everyBlit: it also polls before every
      lcd_blit. oneBuffer: it only ever uses one framebuffer. main.cpp does both. */
  datatype Discipline = Discipline(everyBlit: bool, oneBuffer: bool)

  datatype Act =
    | Core0Moves            // one step of blit_task
    | Poll                  // lcd_blit_busy() returns false
    | Draw(fb: nat)         // drawscreen begins
    | EndDraw               // and ends
    | Call(fb: nat)         // lcd_blit(fb)
    | Core1Moves            // one step inside lcd_blit

  function Holds(s: State, fb: nat): Frame
  {
    Frame(fb, if fb in s.drawn then s.drawn[fb] else 0)
  }

  predicate Usable(d: Discipline, fb: nat) { fb > 0 && (d.oneBuffer ==> fb == 1) }

  predicate Enabled(d: Discipline, s: State, act: Act)
  {
    match act
    case Core0Moves => s.core0.Take? ==> s.pending > 0
    case Poll => s.core1.Idle? && !s.busy
    case Draw(fb) => s.core1.Idle? && s.polled && Usable(d, fb)
    case EndDraw => s.core1.Drawing?
    case Call(fb) => s.core1.Idle? && (d.everyBlit ==> s.polled) && Usable(d, fb)
    case Core1Moves => s.core1.SetBusy? || s.core1.Post? || s.core1.Give?
  }

  /** One step of blit_task. */
  function Move0(s: State): State
  {
    match s.core0
    case Take => if s.pending > 0 then s.(core0 := Check, pending := 0) else s
    case Check => s.(core0 := if s.mailbox != 0 then Fetch else ClearBusy)
    case Fetch => s.(core0 := Empty(s.mailbox))
    case Empty(fb) => s.(core0 := Blit(Holds(s, fb)), mailbox := 0)
    case Blit(frame) => s.(core0 := Check, shown := Some(frame))
    case ClearBusy => s.(core0 := Recheck, busy := false)
    case Recheck => s.(core0 := if s.mailbox != 0 then Rearm else Take)
    case Rearm => s.(core0 := Take, busy := true)
  }

  /** One step of core 1 inside lcd_blit. */
  function Move1(s: State): State
  {
    match s.core1
    case SetBusy(fb) => s.(core1 := Post(fb), busy := true)
    case Post(fb) => s.(core1 := Give, mailbox := fb, handed := Some(Holds(s, fb)))
    case Give => s.(core1 := Idle, pending := s.pending + 1)
    case _ => s
  }

  function Next(s: State, act: Act): State
  {
    match act
    case Core0Moves => Move0(s)
    case Poll => s.(polled := true)
    case Draw(fb) => s.(core1 := Drawing(fb))
    case EndDraw => if s.core1.Drawing?
      then s.(core1 := Idle, drawn := s.drawn[s.core1.fb := Holds(s, s.core1.fb).version + 1]) else s
    case Call(fb) => s.(core1 := SetBusy(fb), polled := false)
    case Core1Moves => Move1(s)
  }

  /** The state after a sequence of steps, and whether the cores can take them. */
  function End(acts: seq<Act>): State
  {
    if acts == [] then START else Next(End(acts[..|acts| - 1]), acts[|acts| - 1])
  }

  predicate Possible(d: Discipline, acts: seq<Act>)
  {
    acts == [] ||
    (Possible(d, acts[..|acts| - 1]) && Enabled(d, End(acts[..|acts| - 1]), acts[|acts| - 1]))
  }

  // ---------------------------------------------------------------- what is promised

  /** Core 1 writes a buffer while core 0 reads the screen from it. */
  predicate Tearing(s: State)
  {
    s.core0.Blit? && s.core1.Drawing? && s.core0.frame.buffer == s.core1.fb
  }

  /** Both cores at rest: blit_task blocked with nothing pending, core 1 outside lcd_blit. */
  predicate Quiet(s: State)
  {
    s.core0.Take? && s.pending == 0 && !(s.core1.SetBusy? || s.core1.Post? || s.core1.Give?)
  }

  /** The last frame handed over has been shown, or a later picture of the same buffer. */
  predicate Delivered(s: State)
  {
    s.handed.Some? ==>
      s.shown.Some? && s.shown.value.buffer == s.handed.value.buffer && s.handed.value.version <= s.shown.value.version
  }

  // ---------------------------------------------------------------- no frame is forgotten

  /** Whatever waits in the mailbox will be looked at: a notification is pending, core 1 is about to
      give one, or core 0 reads the mailbox again before it blocks. */
  predicate MailWillBeRead(s: State)
  {
    s.mailbox != 0 ==> (
      s.pending > 0 || s.core1.Give? || s.core0.Check? || s.core0.Fetch? || s.core0.Empty? || s.core0.Blit?)
  }

  /** Core 0 fetches only what is there. */
  predicate FetchFinds(s: State)
  {
    (s.core0.Fetch? ==> s.mailbox != 0) && (s.core0.Empty? ==> s.mailbox != 0 && s.core0.fb != 0) &&
    (s.core1.Post? || s.core1.SetBusy? || s.core1.Drawing? ==> s.core1.fb != 0)
  }

  /** For any pattern of calls at all, polled or not, with any number of buffers. */
  lemma {:induction false} MailIsNeverStranded(d: Discipline, acts: seq<Act>)
    requires Possible(d, acts)
    ensures MailWillBeRead(End(acts)) && FetchFinds(End(acts))
    ensures Quiet(End(acts)) ==> End(acts).mailbox == 0
  {
    if acts != [] {
      var before := acts[..|acts| - 1];
      MailIsNeverStranded(d, before);
      MailKept(d, End(before), acts[|acts| - 1]);
    }
  }

  lemma MailKept(d: Discipline, s: State, act: Act)
    requires MailWillBeRead(s) && FetchFinds(s) && Enabled(d, s, act)
    ensures MailWillBeRead(Next(s, act)) && FetchFinds(Next(s, act))
  {
  }

  /** Steps core 0 still takes on its own before it blocks for good. */
  function Rank(s: State): nat
  {
    (if s.mailbox != 0 then 10 else 0) + (if s.pending > 0 then 6 else 0) +
    match s.core0
    case Take => 0 case Rearm => 1 case Recheck => 2 case ClearBusy => 3 case Check => 4
    case Blit(_) => 5 case Empty(_) => 0 case Fetch => 1
  }

  /** blit_task running by itself for n steps. */
  function Alone(s: State, n: nat): State
    decreases n
  {
    if n == 0 then s else Alone(Move0(s), n - 1)
  }

  lemma Move0Keeps(s: State)
    requires MailWillBeRead(s) && FetchFinds(s) && s.core1.Idle?
    ensures MailWillBeRead(Move0(s)) && FetchFinds(Move0(s))
    ensures !Quiet(s) ==> Rank(Move0(s)) < Rank(s)
    ensures Quiet(s) ==> Move0(s) == s
  {
  }

  const LONGEST := 21

  /** Once core 1 stops calling, core 0 alone comes to rest, with nothing left in the mailbox. */
  lemma {:induction false} Core0ComesToRest(s: State, n: nat)
    requires MailWillBeRead(s) && FetchFinds(s) && s.core1.Idle? && Rank(s) <= n
    ensures Quiet(Alone(s, n)) && Alone(s, n).mailbox == 0
    decreases n
  {
    Move0Keeps(s);
    if n > 0 { Core0ComesToRest(Move0(s), n - 1); }
  }

  // ---------------------------------------------------------------- polling before every lcd_blit

  /** With a poll before every lcd_blit the cores take turns. Either core 0 is past its last use of the
      buffer and core 1 owns it; or core 1 is handing it over; or core 0 owns it and core 1 waits. */
  predicate TakingTurns(s: State)
  {
    (s.core1.SetBusy? || s.core1.Post? || s.core1.Give? ==> !s.polled) &&
    if s.core1.Give? then
      s.busy && s.mailbox != 0 && s.pending == 0 && s.handed.Some? && s.handed.value == Holds(s, s.mailbox) &&
      (s.core0.Take? || s.core0.Recheck? || s.core0.Rearm?)
    else if s.core1.Post? then
      s.busy && s.mailbox == 0 && s.pending == 0 && (s.core0.Take? || s.core0.Recheck?)
    else if !s.busy then
      s.mailbox == 0 && s.pending == 0 && (s.core0.Take? || s.core0.Recheck?) && Delivered(s)
    else
      s.core1.Idle? && !s.polled && s.handed.Some? &&
      if s.mailbox != 0 then
        s.handed.value == Holds(s, s.mailbox) &&
        if s.pending > 0 then s.core0.Take? || s.core0.Recheck? || s.core0.Rearm?
        else s.core0.Check? || s.core0.Fetch? || (s.core0.Empty? && s.core0.fb == s.mailbox)
      else
        s.pending == 0 &&
        if s.core0.Blit? then s.core0.frame == s.handed.value
        else (s.core0.Check? || s.core0.ClearBusy?) && Delivered(s)
  }

  lemma {:induction false} PollingTakesTurns(d: Discipline, acts: seq<Act>)
    requires Possible(d, acts) && d.everyBlit
    ensures TakingTurns(End(acts)) && FetchFinds(End(acts))
  {
    if acts != [] {
      var before := acts[..|acts| - 1];
      PollingTakesTurns(d, before);
      TurnKept(d, End(before), acts[|acts| - 1]);
    }
  }

  lemma TurnKept(d: Discipline, s: State, act: Act)
    requires TakingTurns(s) && FetchFinds(s) && Enabled(d, s, act) && d.everyBlit
    ensures TakingTurns(Next(s, act)) && FetchFinds(Next(s, act))
  {
  }

  // ---------------------------------------------------------------- one buffer

  /** With one buffer, the picture last handed over is still to be fetched, being blitted, or shown,
      if not a later one. */
  predicate PictureSurvives(s: State)
  {
    (s.core1.Post? || s.core1.SetBusy? || s.core1.Drawing? ==> s.core1.fb == 1) &&
    (s.mailbox == 0 || s.mailbox == 1) && (s.core0.Empty? ==> s.core0.fb == 1) &&
    (s.core0.Blit? ==> s.core0.frame.buffer == 1) &&
    (s.handed.Some? ==>
      s.handed.value.buffer == 1 && s.handed.value.version <= Holds(s, 1).version &&
      (s.mailbox == 1 || if s.core0.Blit? then s.handed.value.version <= s.core0.frame.version else Delivered(s)))
  }

  lemma {:induction false} OneBufferSurvives(d: Discipline, acts: seq<Act>)
    requires Possible(d, acts) && d.oneBuffer
    ensures PictureSurvives(End(acts))
  {
    if acts != [] {
      var before := acts[..|acts| - 1];
      OneBufferSurvives(d, before);
      MailIsNeverStranded(d, before);
      SurvivalKept(d, End(before), acts[|acts| - 1]);
    }
  }

  lemma SurvivalKept(d: Discipline, s: State, act: Act)
    requires PictureSurvives(s) && FetchFinds(s) && Enabled(d, s, act) && d.oneBuffer
    ensures PictureSurvives(Next(s, act))
  {
  }

  // ---------------------------------------------------------------- the promises, and their limits

  lemma {:induction false} AloneIsPossible(d: Discipline, acts: seq<Act>, n: nat) returns (more: seq<Act>)
    requires Possible(d, acts)
    ensures Possible(d, more) && End(more) == Alone(End(acts), n)
    decreases n
  {
    more := acts;
    if n > 0 {
      var s := End(acts);
      if s.core0.Take? && s.pending == 0 {
        more := AloneIsPossible(d, acts, n - 1);
      } else {
        var next, t := Then(d, acts, s, Core0Moves);
        more := AloneIsPossible(d, next, n - 1);
      }
    }
  }

  lemma Then(d: Discipline, acts: seq<Act>, s: State, act: Act) returns (more: seq<Act>, t: State)
    requires Possible(d, acts) && End(acts) == s && Enabled(d, s, act)
    ensures Possible(d, more) && End(more) == t && t == Next(s, act)
  {
    more, t := acts + [act], Next(s, act);
    assert more[..|more| - 1] == acts;
  }

  /** When both cores are at rest nothing handed over is left unshown, if core 1 polls before every
      lcd_blit or uses one buffer. */
  lemma RestIsDelivered(d: Discipline, acts: seq<Act>)
    requires Possible(d, acts) && Quiet(End(acts)) && (d.everyBlit || d.oneBuffer)
    ensures Delivered(End(acts))
  {
    MailIsNeverStranded(d, acts);
    if d.everyBlit { PollingTakesTurns(d, acts); } else { OneBufferSurvives(d, acts); }
  }

  lemma {:induction false} AloneKeepsHanded(s: State, n: nat)
    ensures Alone(s, n).handed == s.handed
    decreases n
  {
    if n > 0 { AloneKeepsHanded(Move0(s), n - 1); }
  }

  /** While core 1 is outside drawing and lcd_blit, core 0 by itself shows the last frame handed over
      within 21 steps. */
  lemma ShownByItself(d: Discipline, acts: seq<Act>)
    requires Possible(d, acts) && End(acts).core1.Idle? && (d.everyBlit || d.oneBuffer)
    ensures var s, r := End(acts), Alone(End(acts), LONGEST);
      Quiet(r) && r.handed == s.handed && Delivered(r)
  {
    MailIsNeverStranded(d, acts);
    Core0ComesToRest(End(acts), LONGEST);
    AloneKeepsHanded(End(acts), LONGEST);
    var more := AloneIsPossible(d, acts, LONGEST);
    RestIsDelivered(d, more);
  }

  /** The same with core 1 still at work: the steps core 0 may still take, counting what a call that has
      begun will give it to do. */
  function Work(s: State): nat
  {
    Rank(s) + match s.core1 case SetBusy(_) => 16 case Post(_) => 16 case Give => 6 case _ => 0
  }

  function Core0Steps(acts: seq<Act>): nat
  {
    if acts == [] then 0 else Core0Steps(acts[..|acts| - 1]) + if acts[|acts| - 1].Core0Moves? then 1 else 0
  }

  lemma WorkGoesDown(d: Discipline, s: State, act: Act)
    requires FetchFinds(s) && Enabled(d, s, act) && !act.Call?
    ensures Work(Next(s, act)) + (if act.Core0Moves? then 1 else 0) <= Work(s)
  {
  }

  predicate InCall(s: State) { s.core1.SetBusy? || s.core1.Post? || s.core1.Give? }

  lemma {:induction false} StepsAreFew(d: Discipline, acts: seq<Act>, rest: seq<Act>)
    requires Possible(d, acts + rest) && forall i :: 0 <= i < |rest| ==> !rest[i].Call?
    ensures Possible(d, acts) && Core0Steps(rest) + Work(End(acts + rest)) <= Work(End(acts))
  {
    if rest == [] {
      assert acts + rest == acts;
    } else {
      var m := |rest| - 1;
      assert (acts + rest)[..|acts + rest| - 1] == acts + rest[..m];
      StepsAreFew(d, acts, rest[..m]);
      MailIsNeverStranded(d, acts + rest[..m]);
      hide FetchFinds, Enabled, Work;
      WorkGoesDown(d, End(acts + rest[..m]), rest[m]);
    }
  }

  const MOST := 37

  /** The last frame handed to lcd_blit is always eventually blitted. Take any point of any run, and let
      both cores go on in any way, as long as core 1 does not call lcd_blit again; it may finish a call,
      poll and draw. Then core 0 takes at most 37 more steps; and once it can take no more, or has taken
      as many, and core 1 is outside lcd_blit, the last frame handed over has been shown. */
  lemma LastFrameIsShown(d: Discipline, acts: seq<Act>, rest: seq<Act>)
    requires Possible(d, acts + rest) && forall i :: 0 <= i < |rest| ==> !rest[i].Call?
    requires d.everyBlit || d.oneBuffer
    ensures Core0Steps(rest) <= MOST
    ensures var r := End(acts + rest);
      (!Enabled(d, r, Core0Moves) || Core0Steps(rest) == MOST) && !InCall(r) ==> Delivered(r)
  {
    StepsAreFew(d, acts, rest);
    MailIsNeverStranded(d, acts + rest);
    if Quiet(End(acts + rest)) { RestIsDelivered(d, acts + rest); }
    hide End, Possible, Core0Steps;
  }

  lemma Begin(d: Discipline) returns (acts: seq<Act>, s: State)
    ensures Possible(d, acts) && End(acts) == s == START
  {
    acts, s := [], START;
  }

  /** Without a poll between two lcd_blit calls the second notification can come after its frame was
      already taken ... */
  lemma NotifiedLate(d: Discipline) returns (acts: seq<Act>, s: State)
    requires !d.everyBlit
    ensures Possible(d, acts) && End(acts) == s
    ensures s == State(ClearBusy, Idle, true, 0, 1, false, map[], Some(Frame(1, 0)), Some(Frame(1, 0)))
  {
    acts, s := Begin(d);
    hide Possible, End;
    acts, s := Then(d, acts, s, Call(1));
    acts, s := Then(d, acts, s, Core1Moves);
    acts, s := Then(d, acts, s, Core1Moves);
    acts, s := Then(d, acts, s, Core1Moves);
    acts, s := Then(d, acts, s, Core0Moves);
    acts, s := Then(d, acts, s, Call(1));
    acts, s := Then(d, acts, s, Core1Moves);
    acts, s := Then(d, acts, s, Core1Moves);
    acts, s := Then(d, acts, s, Core0Moves);
    acts, s := Then(d, acts, s, Core0Moves);
    acts, s := Then(d, acts, s, Core0Moves);
    acts, s := Then(d, acts, s, Core0Moves);
    acts, s := Then(d, acts, s, Core0Moves);
    acts, s := Then(d, acts, s, Core1Moves);
  }

  /** ... so that core 0 wakes for nothing, and clears the busy flag under a third call ... */
  lemma ClearedUnderCall(d: Discipline) returns (acts: seq<Act>, s: State)
    requires !d.everyBlit
    ensures Possible(d, acts) && End(acts) == s
    ensures s == State(Take, Idle, false, 1, 1, false, map[], Some(Frame(1, 0)), Some(Frame(1, 0)))
  {
    acts, s := NotifiedLate(d);
    hide Possible, End;
    acts, s := Then(d, acts, s, Core0Moves);
    acts, s := Then(d, acts, s, Core0Moves);
    acts, s := Then(d, acts, s, Core0Moves);
    acts, s := Then(d, acts, s, Core0Moves);
    acts, s := Then(d, acts, s, Call(1));
    acts, s := Then(d, acts, s, Core1Moves);
    acts, s := Then(d, acts, s, Core0Moves);
    acts, s := Then(d, acts, s, Core0Moves);
    acts, s := Then(d, acts, s, Core1Moves);
    acts, s := Then(d, acts, s, Core1Moves);
  }

  /** ... and core 1 draws while core 0 blits. */
  lemma UnpolledBlitTears(d: Discipline)
    requires !d.everyBlit
    ensures exists acts :: Possible(d, acts) && Tearing(End(acts))
  {
    var acts, s := ClearedUnderCall(d);
    hide Possible, End;
    acts, s := Then(d, acts, s, Poll);
    acts, s := Then(d, acts, s, Draw(1));
    acts, s := Then(d, acts, s, Core0Moves);
    acts, s := Then(d, acts, s, Core0Moves);
    acts, s := Then(d, acts, s, Core0Moves);
    acts, s := Then(d, acts, s, Core0Moves);
  }

  /** No core 1 write to a buffer ever overlaps a core 0 read of it, in any interleaving, exactly when
      core 1 polls before every lcd_blit, as main.cpp does. */
  lemma TearFree(d: Discipline)
    ensures (forall acts :: Possible(d, acts) ==> !Tearing(End(acts))) <==> d.everyBlit
  {
    if d.everyBlit {
      forall acts | Possible(d, acts) ensures !Tearing(End(acts)) { PollingTakesTurns(d, acts); }
    } else {
      UnpolledBlitTears(d);
    }
  }

  /** A second buffer posted between core 0's read of the mailbox and its clearing of it is lost. */
  lemma SecondBufferPosted(d: Discipline) returns (acts: seq<Act>, s: State)
    requires !d.everyBlit && !d.oneBuffer
    ensures Possible(d, acts) && End(acts) == s
    ensures s == State(Empty(1), Idle, true, 2, 1, false, map[], Some(Frame(2, 0)), None)
  {
    acts, s := Begin(d);
    hide Possible, End;
    acts, s := Then(d, acts, s, Call(1));
    acts, s := Then(d, acts, s, Core1Moves);
    acts, s := Then(d, acts, s, Core1Moves);
    acts, s := Then(d, acts, s, Core1Moves);
    acts, s := Then(d, acts, s, Core0Moves);
    acts, s := Then(d, acts, s, Core0Moves);
    acts, s := Then(d, acts, s, Core0Moves);
    acts, s := Then(d, acts, s, Call(2));
    acts, s := Then(d, acts, s, Core1Moves);
    acts, s := Then(d, acts, s, Core1Moves);
    acts, s := Then(d, acts, s, Core1Moves);
  }

  lemma SecondBufferIsLost(d: Discipline)
    requires !d.everyBlit && !d.oneBuffer
    ensures exists acts :: Possible(d, acts) && Quiet(End(acts)) && !Delivered(End(acts))
  {
    var acts, s := SecondBufferPosted(d);
    hide Possible, End;
    acts, s := Then(d, acts, s, Core0Moves);
    acts, s := Then(d, acts, s, Core0Moves);
    acts, s := Then(d, acts, s, Core0Moves);
    acts, s := Then(d, acts, s, Core0Moves);
    acts, s := Then(d, acts, s, Core0Moves);
    acts, s := Then(d, acts, s, Core0Moves);
    acts, s := Then(d, acts, s, Core0Moves);
    acts, s := Then(d, acts, s, Core0Moves);
    acts, s := Then(d, acts, s, Core0Moves);
  }

  /** No frame is lost exactly when core 1 polls before every lcd_blit or uses a single buffer. */
  lemma NoFrameLost(d: Discipline)
    ensures (forall acts :: Possible(d, acts) && Quiet(End(acts)) ==> Delivered(End(acts)))
      <==> d.everyBlit || d.oneBuffer
  {
    if d.everyBlit || d.oneBuffer {
      forall acts | Possible(d, acts) && Quiet(End(acts)) ensures Delivered(End(acts)) { RestIsDelivered(d, acts); }
    } else {
      SecondBufferIsLost(d);
    }
  }
}
