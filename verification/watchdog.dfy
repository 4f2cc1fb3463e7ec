/**
 * src/server/orazio.c: the main loop, one step per write the timer interrupt could see, interleaved
 * anywhere with timer ticks.  The statements that touch only variables of the main loop are merged
 * with the step before them.
 */
module Watchdog {
  import opened Int16
  import opened Joint

  const NUM_MOTORS: nat := 2

  /** Where the main loop stands. */
  datatype Pc =
    | Idle
    | Drive             // driveUpdate and the enable latch of driveControl
    | Steer(k: nat)     // the four writes of DifferentialDriveController_control
    | Flush             // Orazio_flushInputBuffers
    | Act               // deferred actions of the packets received in this cycle
    | Watch             // the watchdog count
    | DisableMode(i: nat)
    | DisableOutput(i: nat)
    | DisableDrive
    | Finish

  datatype Robot = Robot(
    joints: seq<Joint.State>, controls: seq<Control>, params: seq<Params>,
    driveEnable: bool, lastSeq: nat, driveSeq: nat,
    watchdogCount: int, watchdogCycles: nat, rxPackets: nat, rxBefore: nat,
    tickCounter: nat, commCycles: nat, commHandle: bool,
    pc: Pc,
    frames: nat,        // checksum-valid frames of the cycle in progress
    silent: nat)        // consecutive completed cycles without one

  predicate Valid(s: Robot) {
    && |s.joints| == NUM_MOTORS && |s.controls| == NUM_MOTORS && |s.params| == NUM_MOTORS
    && s.watchdogCycles < 0x1_0000 && s.rxPackets < 0x1_0000 && s.rxBefore < 0x1_0000 && Fits(s.watchdogCount)
    && (s.pc.Steer? ==> s.pc.k < 4)
    && (s.pc.DisableMode? ==> s.pc.i < NUM_MOTORS)
    && (s.pc.DisableOutput? ==> s.pc.i < NUM_MOTORS)
  }

  /** What deferred actions may overwrite: the packets received are copied over these variables. */
  datatype Effect = Effect(
    controls: seq<Control>, params: seq<Params>, driveEnable: bool, lastSeq: nat, driveSeq: nat,
    watchdogCycles: nat, commCycles: nat)

  datatype Step =
    | TimerTick(enc: seq<int>)
    | Main                             // any main-loop step that takes no input
    | SteerTo(joint: nat, speed: int)  // one write of the drive controller
    | Receive(frames: nat)             // the input flush of this cycle
    | Action(effect: Effect)           // part of a deferred action

  /** The steps possible in `s`. */
  predicate Enabled(s: Robot, step: Step) {
    match step
    case TimerTick(enc) => |enc| == NUM_MOTORS
    case Main => !s.pc.Steer? && !s.pc.Flush?
    case SteerTo(joint, _) => s.pc.Steer? && joint < NUM_MOTORS
    case Receive(_) => s.pc.Flush?
    case Action(e) => s.pc.Act? && |e.controls| == NUM_MOTORS && |e.params| == NUM_MOTORS && e.watchdogCycles < 0x1_0000
  }

  /** A uint16_t packet counter cannot tell a multiple of 65536 new packets from none. */
  predicate Countable(step: Step) {
    step.Receive? ==> step.frames == 0 || step.frames % 0x1_0000 != 0
  }

  /** onTimerTick: both joint controllers, then the communication prescaler. */
  function OnTick(s: Robot, enc: seq<int>): Robot
    requires Valid(s) && |enc| == NUM_MOTORS
  {
    var joints := [HandleTick(s.params[0], s.controls[0], enc[0], s.joints[0]),
                   HandleTick(s.params[1], s.controls[1], enc[1], s.joints[1])];
    var counter := (s.tickCounter - 1) % 256;
    if counter == 0 then s.(joints := joints, tickCounter := s.commCycles % 256, commHandle := true)
    else s.(joints := joints, tickCounter := counter)
  }

  function OnMain(s: Robot): (t: Robot)
    requires Valid(s)
    ensures Valid(t)
  {
    match s.pc
    case Idle => if s.commHandle then s.(pc := Drive) else s
    case Drive =>
      var t := if s.lastSeq != s.driveSeq then s.(driveEnable := true, lastSeq := s.driveSeq) else s;
      t.(pc := if t.driveEnable then Steer(0) else Flush)
    case Act => s.(pc := Watch)
    case Watch =>
      if s.watchdogCycles == 0 then s.(pc := Finish)
      else
        var count := if s.rxBefore == s.rxPackets then Wrap(s.watchdogCount - 1) else Wrap(s.watchdogCycles);
        s.(watchdogCount := count, pc := if count == 0 then DisableMode(0) else Finish)
    case DisableMode(i) =>
      s.(controls := s.controls[i := s.controls[i].(mode := JOINT_DISABLED)], pc := DisableOutput(i))
    case DisableOutput(i) =>
      s.(joints := s.joints[i := s.joints[i].(output := 0)],
         pc := if i + 1 < NUM_MOTORS then DisableMode(i + 1) else DisableDrive)
    case DisableDrive => s.(driveEnable := false, pc := Finish)
    case Finish =>
      s.(rxBefore := s.rxPackets, commHandle := false, pc := Idle, silent := if s.frames == 0 then s.silent + 1 else 0)
    case _ => s
  }

  function Apply(s: Robot, step: Step): Robot
    requires Valid(s) && Enabled(s, step)
  {
    match step
    case TimerTick(enc) => OnTick(s, enc)
    case Main => OnMain(s)
    case SteerTo(joint, speed) =>
      var k := s.pc.k;
      s.(controls := s.controls[joint := if k < 2 then s.controls[joint].(speed := speed)
                                         else s.controls[joint].(mode := JOINT_PID)],
         pc := if k < 3 then Steer(k + 1) else Flush)
    case Receive(frames) =>
      s.(rxPackets := (s.rxPackets + frames) % 0x1_0000, frames := frames,
         silent := if frames == 0 then s.silent else 0, pc := if frames == 0 then Watch else Act)
    case Action(e) =>
      s.(controls := e.controls, params := e.params, driveEnable := e.driveEnable, lastSeq := e.lastSeq,
         driveSeq := e.driveSeq, watchdogCycles := e.watchdogCycles, commCycles := e.commCycles)
  }

  /** Just before the main loop is entered. */
  predicate Initial(s: Robot) {
    && Valid(s)
    && s.watchdogCount == Wrap(s.watchdogCycles) && s.rxPackets == s.rxBefore
    && s.pc == Idle && s.frames == 0 && s.silent == 0
  }

  /** `states` are what the main loop and the interrupts pass through when they take `steps`. */
  ghost predicate Segment(steps: seq<Step>, states: seq<Robot>) {
    && |states| == |steps| + 1
    && forall k :: 0 <= k < |steps| ==>
         Valid(states[k]) && Enabled(states[k], steps[k]) && states[k + 1] == Apply(states[k], steps[k])
  }

  ghost predicate IsRun(start: Robot, steps: seq<Step>, states: seq<Robot>) {
    Segment(steps, states) && states[0] == start && Initial(start)
  }

  ghost predicate AllCountable(steps: seq<Step>) {
    forall k :: 0 <= k < |steps| ==> Countable(steps[k])
  }

  /** Both joints disabled with output 0, the drive off and not about to be switched on. */
  predicate MotorsOff(s: Robot)
    requires Valid(s)
  {
    && (forall i :: 0 <= i < NUM_MOTORS ==> s.controls[i].mode == JOINT_DISABLED && s.joints[i].output == 0)
    && !s.driveEnable && s.lastSeq == s.driveSeq
  }

  /** The first joints have been disabled, and stay so whatever the timer does. */
  predicate DisabledBelow(s: Robot, modes: nat, outputs: nat)
    requires Valid(s)
  {
    && (forall i :: 0 <= i < NUM_MOTORS && i < modes ==> s.controls[i].mode == JOINT_DISABLED)
    && (forall i :: 0 <= i < NUM_MOTORS && i < outputs ==> s.joints[i].output == 0)
  }

  predicate Counted(s: Robot, silent: nat) {
    s.watchdogCycles != 0 ==> s.watchdogCount == Wrap(s.watchdogCycles - silent)
  }

  predicate Tripped(s: Robot, silent: nat)
    requires Valid(s)
  {
    s.watchdogCycles != 0 && silent >= s.watchdogCycles ==> MotorsOff(s)
  }

  /** The invariant: the count is the distance to the deadline, and past the deadline the motors are off. */
  predicate Inv(s: Robot) {
    && Valid(s)
    && Tripped(s, s.silent)
    && match s.pc
       case Idle => Counted(s, s.silent) && s.rxBefore == s.rxPackets
       case Drive => Counted(s, s.silent) && s.rxBefore == s.rxPackets
       case Steer(_) => Counted(s, s.silent) && s.rxBefore == s.rxPackets && s.driveEnable && s.lastSeq == s.driveSeq
       case Flush => Counted(s, s.silent) && s.rxBefore == s.rxPackets && s.lastSeq == s.driveSeq
       case Act => s.silent == 0 && s.frames > 0 && s.rxBefore != s.rxPackets
       case Watch =>
         if s.frames == 0 then Counted(s, s.silent) && s.rxBefore == s.rxPackets && s.lastSeq == s.driveSeq
         else s.silent == 0 && s.rxBefore != s.rxPackets
       case DisableMode(i) => Disabling(s) && DisabledBelow(s, i, i)
       case DisableOutput(i) => Disabling(s) && DisabledBelow(s, i + 1, i)
       case DisableDrive => Disabling(s) && DisabledBelow(s, NUM_MOTORS, NUM_MOTORS)
       case Finish =>
         if s.frames == 0 then Counted(s, s.silent + 1) && Tripped(s, s.silent + 1)
         else Counted(s, 0) && s.silent == 0
  }

  predicate Disabling(s: Robot) {
    s.frames == 0 && s.watchdogCycles != 0 && s.lastSeq == s.driveSeq && Counted(s, s.silent + 1) && s.watchdogCount == 0
  }

  lemma CountDown(w: nat, silent: nat)
    requires 0 < w < 0x1_0000
    ensures Wrap(Wrap(w - silent) - 1) == Wrap(w - (silent + 1))
    ensures silent + 1 == w ==> Wrap(w - (silent + 1)) == 0
    ensures Wrap(w) != 0
  {
    WrapModulo(Wrap(w - silent) - 1, w - (silent + 1));
  }

  lemma DisabledTick(p: Params, control: Control, enc: int, s: Joint.State)
    requires control.mode == JOINT_DISABLED
    ensures HandleTick(p, control, enc, s).output == 0
  {
  }

  lemma TickFrame(s: Robot, enc: seq<int>)
    requires Valid(s) && |enc| == NUM_MOTORS
    ensures var t := OnTick(s, enc);
            && |t.joints| == NUM_MOTORS
            && t == s.(joints := t.joints, tickCounter := t.tickCounter, commHandle := t.commHandle)
            && forall i :: 0 <= i < NUM_MOTORS && s.controls[i].mode == JOINT_DISABLED ==> t.joints[i].output == 0
  {
    hide HandleTick;
    forall i | 0 <= i < NUM_MOTORS && s.controls[i].mode == JOINT_DISABLED
      ensures OnTick(s, enc).joints[i].output == 0
    {
      DisabledTick(s.params[i], s.controls[i], enc[i], s.joints[i]);
    }
  }

  /** A tick never raises the output of a disabled joint, so it undoes nothing the main loop has disabled. */
  lemma TickKeeps(s: Robot, enc: seq<int>)
    requires Inv(s) && |enc| == NUM_MOTORS
    ensures Inv(OnTick(s, enc))
  {
    TickFrame(s, enc);
    hide Wrap, OnTick;
    var t := OnTick(s, enc);
    assert MotorsOff(s) ==> MotorsOff(t);
    assert Counted(s, s.silent) ==> Counted(t, t.silent);
  }

  lemma DriveKeeps(s: Robot)
    requires Inv(s) && (s.pc.Idle? || s.pc.Drive? || s.pc.Act?)
    ensures Inv(OnMain(s))
  {
    hide Wrap;
    assert MotorsOff(s) ==> OnMain(s).controls == s.controls && OnMain(s).joints == s.joints;
  }

  lemma SteerKeeps(s: Robot, joint: nat, speed: int)
    requires Inv(s) && Enabled(s, SteerTo(joint, speed))
    ensures Inv(Apply(s, SteerTo(joint, speed)))
  {
    hide Wrap;
    // the drive is on, so the deadline has not passed
    assert !MotorsOff(s);
  }

  lemma ReceiveKeeps(s: Robot, frames: nat)
    requires Inv(s) && s.pc.Flush? && Countable(Receive(frames))
    ensures Inv(Apply(s, Receive(frames)))
  {
    hide Wrap;
    var t := Apply(s, Receive(frames));
    assert MotorsOff(s) ==> MotorsOff(t);
    assert frames != 0 ==> t.rxPackets != s.rxPackets;
  }

  lemma WatchKeeps(s: Robot)
    requires Inv(s) && s.pc.Watch?
    ensures Inv(OnMain(s))
  {
    if s.watchdogCycles != 0 {
      CountDown(s.watchdogCycles, s.silent);
      NotYet(s.watchdogCycles, s.silent);
    }
    hide Wrap;
    var t := OnMain(s);
    assert t.controls == s.controls && t.joints == s.joints;
    assert MotorsOff(s) ==> MotorsOff(t);
  }

  lemma NotYet(w: nat, silent: nat)
    requires 0 < w < 0x1_0000
    ensures silent + 1 < w ==> Wrap(w - (silent + 1)) != 0
  {
  }

  lemma DisableKeeps(s: Robot)
    requires Inv(s) && (s.pc.DisableMode? || s.pc.DisableOutput? || s.pc.DisableDrive?)
    ensures Inv(OnMain(s))
  {
    hide Wrap;
    var t := OnMain(s);
    assert MotorsOff(s) ==> MotorsOff(t);
  }

  lemma FinishKeeps(s: Robot)
    requires Inv(s) && s.pc.Finish?
    ensures Inv(OnMain(s))
  {
    hide Wrap;
    var t := OnMain(s);
    assert t.controls == s.controls && t.joints == s.joints;
  }

  lemma MainKeeps(s: Robot, step: Step)
    requires Inv(s) && Enabled(s, step) && Countable(step) && !step.TimerTick?
    ensures Inv(Apply(s, step))
  {
    hide MotorsOff, Tripped, Counted, DisabledBelow, OnTick;
    match step {
      case SteerTo(joint, speed) => SteerKeeps(s, joint, speed);
      case Receive(frames) => ReceiveKeeps(s, frames);
      case Action(e) => ActionKeeps(s, e);
      case Main =>
        match s.pc {
          case Watch => WatchKeeps(s);
          case Finish => FinishKeeps(s);
          case DisableMode(_) => DisableKeeps(s);
          case DisableOutput(_) => DisableKeeps(s);
          case DisableDrive => DisableKeeps(s);
          case _ => DriveKeeps(s);
        }
    }
  }

  lemma ActionKeeps(s: Robot, e: Effect)
    requires Inv(s) && Enabled(s, Action(e))
    ensures Inv(Apply(s, Action(e)))
  {
  }

  lemma {:induction false} RunInvariant(start: Robot, steps: seq<Step>, states: seq<Robot>, k: nat)
    requires IsRun(start, steps, states) && AllCountable(steps) && k <= |steps|
    ensures Inv(states[k])
  {
    if k > 0 {
      RunInvariant(start, steps, states, k - 1);
      if steps[k - 1].TimerTick? {
        TickKeeps(states[k - 1], steps[k - 1].enc);
      } else {
        MainKeeps(states[k - 1], steps[k - 1]);
      }
    } else if start.watchdogCycles != 0 {
      CountDown(start.watchdogCycles, 0);
    }
  }

  /**
   * Dead-man safety: in every run, wherever the timer interrupts, once as many communication cycles as
   * watchdog_cycles says have passed without a checksum-valid frame, both joints are disabled with
   * output 0 and the drive is off, and all of this stays so until the next valid frame.
   */
  lemma DeadManSafety(start: Robot, steps: seq<Step>, states: seq<Robot>, k: nat)
    requires IsRun(start, steps, states) && AllCountable(steps) && k <= |steps|
    ensures Valid(states[k])
    ensures states[k].watchdogCycles != 0 && states[k].silent >= states[k].watchdogCycles ==> MotorsOff(states[k])
  {
    RunInvariant(start, steps, states, k);
  }

  /** The timer ticks `encs` in a row. */
  function Ticked(s: Robot, encs: seq<seq<int>>): (t: Robot)
    requires Valid(s) && forall k :: 0 <= k < |encs| ==> |encs[k]| == NUM_MOTORS
    ensures Valid(t) && t.commCycles == s.commCycles
  {
    if |encs| == 0 then s else OnTick(Ticked(s, encs[..|encs| - 1]), encs[|encs| - 1])
  }

  /** Ticks per communication cycle; the uint8_t counter takes 0 for 256. */
  function Period(s: Robot): (p: nat)
    ensures 1 <= p <= 256 && p % 256 == s.commCycles % 256
  {
    if s.commCycles % 256 == 0 then 256 else s.commCycles % 256
  }

  /** The prescaler: of the ticks after a reload exactly every Period-th asks for a communication cycle. */
  lemma {:induction false} Prescaler(s: Robot, encs: seq<seq<int>>)
    requires Valid(s) && s.tickCounter == s.commCycles % 256
    requires forall k :: 0 <= k < |encs| ==> |encs[k]| == NUM_MOTORS
    ensures Ticked(s, encs).tickCounter == (Period(s) - |encs| % Period(s)) % 256
    ensures |encs| > 0 ==>
              var before := Ticked(s, encs[..|encs| - 1]).(commHandle := false);
              OnTick(before, encs[|encs| - 1]).commHandle <==> |encs| % Period(s) == 0
  {
    hide HandleTick;
    var p, n := Period(s), |encs|;
    if n == 0 {
      Remainder(0, p, 0, 0);
    } else {
      Prescaler(s, encs[..n - 1]);
      NextRemainder(n - 1, p);
      Countdown(p, (n - 1) % p, n % p, Ticked(s, encs[..n - 1]).tickCounter);
      LastTick(Ticked(s, encs[..n - 1]), encs[n - 1], p, n % p);
    }
  }

  lemma LastTick(s: Robot, enc: seq<int>, p: nat, r: nat)
    requires Valid(s) && |enc| == NUM_MOTORS && p == Period(s) && r < p
    requires (s.tickCounter - 1) % 256 == 0 <==> r == 0
    requires r != 0 ==> (s.tickCounter - 1) % 256 == (p - r) % 256
    ensures OnTick(s, enc).tickCounter == (p - r) % 256
    ensures OnTick(s.(commHandle := false), enc).commHandle <==> r == 0
  {
    hide HandleTick;
  }

  lemma Remainder(n: int, p: int, q: int, x: int)
    requires 0 <= x < p && n == p * q + x
    ensures n % p == x
  {
    var d := q - n / p;
    assert (d >= 1 ==> p * d >= p) && (d <= -1 ==> p * d <= -p);
    assert p * d == n % p - x;
  }

  lemma NextRemainder(n: nat, p: nat)
    requires p > 0
    ensures (n + 1) % p == if n % p + 1 == p then 0 else n % p + 1
  {
    var q, r := n / p, n % p;
    assert n == p * q + r;
    if r + 1 == p {
      assert p * (q + 1) == p * q + p;
      Remainder(n + 1, p, q + 1, 0);
    } else {
      Remainder(n + 1, p, q, r + 1);
    }
  }

  lemma Countdown(p: nat, r: nat, r': nat, counter: nat)
    requires 1 <= p <= 256 && r < p && counter == (p - r) % 256 && r' == (if r + 1 == p then 0 else r + 1)
    ensures (counter - 1) % 256 == 0 <==> r' == 0
    ensures r' != 0 ==> (counter - 1) % 256 == (p - r') % 256
  {
  }

  /** A tick takes each joint's own encoder sample, command and limits. */
  lemma OwnSample(s: Robot, enc: seq<int>, i: nat)
    requires Valid(s) && |enc| == NUM_MOTORS && i < NUM_MOTORS && s.params[i].Valid()
    ensures var j := OnTick(s, enc).joints[i];
            && j.encoderPosition == enc[i] && j.encoderSpeed == Wrap(enc[i] - s.joints[i].encoderPosition)
            && j.mode == s.controls[i].mode
            && (j.mode == JOINT_PWM ==> j.output == s.controls[i].speed)
            && (j.mode == JOINT_PID ==> Abs(j.output) <= s.params[i].maxPwm)
  {
    hide Wrap, WrappedGain, TruncDiv;
  }

  /** How many of the steps leave Idle, each beginning a communication cycle. */
  ghost function Cycles(steps: seq<Step>, states: seq<Robot>, n: nat): nat
    requires Segment(steps, states) && n <= |steps|
  {
    if n == 0 then 0
    else Cycles(steps, states, n - 1) + if states[n - 1].pc.Idle? && !states[n].pc.Idle? then 1 else 0
  }

  /** How many of them are ticks at which the prescaler runs out. */
  ghost function Requests(steps: seq<Step>, states: seq<Robot>, n: nat): nat
    requires Segment(steps, states) && n <= |steps|
  {
    if n == 0 then 0
    else
      Requests(steps, states, n - 1)
      + if steps[n - 1].TimerTick? && (states[n - 1].tickCounter - 1) % 256 == 0 then 1 else 0
  }

  function Waiting(s: Robot): nat {
    if s.pc.Idle? && s.commHandle then 1 else 0
  }

  /**
   * The timer paces the main loop: in every run there are at most as many communication cycles as times the prescaler
   * has run out, and one more if the first was already due.
   */
  lemma {:induction false} CyclesPaced(steps: seq<Step>, states: seq<Robot>, n: nat)
    requires Segment(steps, states) && n <= |steps|
    ensures Cycles(steps, states, n) + Waiting(states[n]) <= Requests(steps, states, n) + Waiting(states[0])
  {
    if n > 0 {
      CyclesPaced(steps, states, n - 1);
      PaceStep(states[n - 1], steps[n - 1]);
    }
  }

  lemma PaceStep(s: Robot, step: Step)
    requires Valid(s) && Enabled(s, step)
    ensures var t := Apply(s, step);
            Waiting(t) + (if s.pc.Idle? && !t.pc.Idle? then 1 else 0)
            <= Waiting(s) + if step.TimerTick? && (s.tickCounter - 1) % 256 == 0 then 1 else 0
  {
    hide HandleTick, Wrap;
  }

  /** How many moves of the main loop the cycle may still take. */
  function Rank(pc: Pc): nat {
    match pc
    case Idle => 0
    case Drive => 14
    case Steer(k) => if k < 4 then 13 - k else 10
    case Flush => 9
    case Act => 8
    case Watch => 7
    case DisableMode(i) => if i == 0 then 6 else 4
    case DisableOutput(i) => if i == 0 then 5 else 3
    case DisableDrive => 2
    case Finish => 1
  }

  /** A step in which the main loop moves on: neither an interrupt nor a write of a deferred action. */
  predicate Moves(step: Step) {
    !step.TimerTick? && !step.Action?
  }

  function MovesIn(steps: seq<Step>): nat {
    if |steps| == 0 then 0 else MovesIn(steps[..|steps| - 1]) + if Moves(steps[|steps| - 1]) then 1 else 0
  }

  /** A cycle that is due begins with the next move, and every move inside a cycle brings its end nearer. */
  lemma MoveProgresses(s: Robot, step: Step)
    requires Valid(s) && Enabled(s, step)
    ensures var t := Apply(s, step);
            && (!Moves(step) ==> Rank(t.pc) == Rank(s.pc))
            && (Moves(step) && !s.pc.Idle? ==> Rank(t.pc) < Rank(s.pc))
            && (Moves(step) && s.pc.Idle? && s.commHandle ==> t.pc.Drive?)
  {
    hide HandleTick, Wrap;
  }

  /** A communication cycle ends after at most 14 moves, wherever interrupts and writes of actions come in between. */
  lemma {:induction false} CycleEnds(steps: seq<Step>, states: seq<Robot>, n: nat)
    requires Segment(steps, states) && n <= |steps| && forall k :: 0 <= k < n ==> !states[k].pc.Idle?
    ensures MovesIn(steps[..n]) + Rank(states[n].pc) <= Rank(states[0].pc) <= 14
  {
    if n > 0 {
      CycleEnds(steps, states, n - 1);
      assert steps[..n][..n - 1] == steps[..n - 1];
      MoveProgresses(states[n - 1], steps[n - 1]);
    }
  }

  predicate Tripping(pc: Pc) {
    pc.DisableMode? || pc.DisableOutput? || pc.DisableDrive?
  }

  /** The count is 0 at the deadline and, once it has wrapped around, every 65536 silent cycles later. */
  lemma ZeroCount(w: nat, silent: nat)
    requires 0 < w < 0x1_0000
    ensures Wrap(w - (silent + 1)) == 0 <==> (w - (silent + 1)) % 0x1_0000 == 0
    ensures (w - (silent + 1)) % 0x1_0000 == 0 ==> silent + 1 >= w
  {
  }

  /** The watchdog starts to disable exactly at a deadline: never before the cycle that completes the silence. */
  lemma TripsAtDeadline(start: Robot, steps: seq<Step>, states: seq<Robot>, k: nat)
    requires IsRun(start, steps, states) && AllCountable(steps) && k <= |steps|
    ensures Valid(states[k])
    ensures var s := states[k];
            Tripping(s.pc) ==> 0 < s.watchdogCycles <= s.silent + 1 && (s.watchdogCycles - (s.silent + 1)) % 0x1_0000 == 0
    ensures var s := states[k];
            s.pc.Watch? && s.frames == 0 && s.watchdogCycles != 0 ==>
              (Tripping(OnMain(s).pc) <==> (s.watchdogCycles - (s.silent + 1)) % 0x1_0000 == 0)
  {
    RunInvariant(start, steps, states, k);
    var s := states[k];
    if s.watchdogCycles != 0 {
      ZeroCount(s.watchdogCycles, s.silent);
      CountDown(s.watchdogCycles, s.silent);
    }
    hide Wrap;
  }

  /** A joint or the drive that is on before is off after. */
  predicate SwitchedOff(s: Robot, t: Robot)
    requires Valid(s) && Valid(t)
  {
    || (s.driveEnable && !t.driveEnable)
    || (exists i :: 0 <= i < NUM_MOTORS && s.controls[i].mode != JOINT_DISABLED && t.controls[i].mode == JOINT_DISABLED)
  }

  /**
   * The motors stay on until then: apart from the packets of the client, no step of a run switches a joint or the
   * drive off before as many cycles as watchdog_cycles says have been silent, counting the present one.
   */
  lemma MotorsStayOn(start: Robot, steps: seq<Step>, states: seq<Robot>, k: nat)
    requires IsRun(start, steps, states) && AllCountable(steps) && k < |steps| && !steps[k].Action?
    ensures Valid(states[k]) && Valid(states[k + 1])
    ensures SwitchedOff(states[k], states[k + 1]) ==> 0 < states[k].watchdogCycles <= states[k].silent + 1
  {
    TripsAtDeadline(start, steps, states, k);
    RunInvariant(start, steps, states, k + 1);
    hide Wrap, Inv, HandleTick;
    assert states[k + 1] == Apply(states[k], steps[k]);
  }

  /** Orazio_jointsDisable and Orazio_driveDisable. */
  function AllOff(s: Robot): Robot
    requires Valid(s)
  {
    s.(controls := [s.controls[0].(mode := JOINT_DISABLED), s.controls[1].(mode := JOINT_DISABLED)],
       joints := [s.joints[0].(output := 0), s.joints[1].(output := 0)],
       driveEnable := false)
  }

  /** The end of a communication cycle as one uninterrupted piece of code. */
  function Supervised(s: Robot): Robot
    requires Valid(s)
  {
    var count := if s.watchdogCycles == 0 then s.watchdogCount
                 else if s.rxBefore == s.rxPackets then Wrap(s.watchdogCount - 1) else Wrap(s.watchdogCycles);
    var t := s.(watchdogCount := count);
    var u := if count == 0 && s.watchdogCycles != 0 then AllOff(t) else t;
    u.(rxBefore := s.rxPackets, commHandle := false, pc := Idle, silent := if s.frames == 0 then s.silent + 1 else 0)
  }

  lemma DisablingIsAllOff(s: Robot)
    requires Valid(s) && s.pc == DisableMode(0)
    ensures OnMain(OnMain(OnMain(OnMain(OnMain(s))))) == AllOff(s).(pc := Finish)
  {
    var s2 := OnMain(OnMain(s));
    assert s2.pc == DisableMode(1);
    var s4 := OnMain(OnMain(s2));
    assert s4.pc == DisableDrive;
    assert s4.controls == AllOff(s).controls && s4.joints == AllOff(s).joints;
  }

  /** Without interrupts the steps from the watchdog to the end of the cycle are that piece of code. */
  lemma SupervisedIsSteps(s: Robot)
    requires Valid(s) && s.pc.Watch?
    ensures var t := OnMain(s);
            Supervised(s) == if t.pc.Finish? then OnMain(t) else OnMain(OnMain(OnMain(OnMain(OnMain(OnMain(t))))))
  {
    hide Wrap;
    var t := OnMain(s);
    if !t.pc.Finish? {
      DisablingIsAllOff(t);
    }
  }

  /** A boot with watchdog_cycles 1 and the communication cycle due. */
  const BOOT := Robot([INITIAL, INITIAL], [Control(0, 0), Control(0, 0)], [DEFAULT_PARAMS, DEFAULT_PARAMS],
                      false, 0, 0, 1, 1, 0, 0, 1, 1, true, Idle, 0, 0)

  lemma SegmentConcat(steps: seq<Step>, states: seq<Robot>, steps': seq<Step>, states': seq<Robot>)
    requires Segment(steps, states) && Segment(steps', states') && states[|steps|] == states'[0]
    ensures Segment(steps + steps', states + states'[1..])
  {
  }

  // the stages of the run below
  const BURST := BOOT.(driveSeq := 1, frames := 0x1_0000, pc := Act)
  const EXPIRED := BURST.(watchdogCount := 0, pc := DisableMode(0))
  const TRIPPED := EXPIRED.(commHandle := false, pc := Idle)
  const RESTARTED := TRIPPED.(commHandle := true, driveEnable := true, lastSeq := 1, pc := Steer(0))
  const STEERED := RESTARTED.(controls := [Control(JOINT_PID, 5), Control(JOINT_PID, 5)], pc := Flush)
  const LATE := STEERED.(frames := 0, watchdogCount := -1, commHandle := false, pc := Idle, silent := 1)

  lemma ToBurst() returns (steps: seq<Step>, states: seq<Robot>)
    ensures Segment(steps, states) && states[0] == BOOT && states[|steps|] == BURST
    ensures |steps| == 4 && steps[2] == Receive(0x1_0000)
  {
    steps := [Main, Main, Receive(0x1_0000), Action(Effect(BOOT.controls, BOOT.params, false, 0, 1, 1, 1))];
    states := [BOOT, BOOT.(pc := Drive), BOOT.(pc := Flush), BOOT.(frames := 0x1_0000, pc := Act), BURST];
  }

  lemma ToExpired() returns (steps: seq<Step>, states: seq<Robot>)
    ensures Segment(steps, states) && states[0] == BURST && states[|steps|] == EXPIRED
  {
    steps := [Main, Main];
    states := [BURST, BURST.(pc := Watch), EXPIRED];
  }

  lemma ToTripped() returns (steps: seq<Step>, states: seq<Robot>)
    ensures Segment(steps, states) && states[0] == EXPIRED && states[|steps|] == TRIPPED
  {
    steps := [Main, Main, Main, Main, Main, Main];
    var s := EXPIRED;
    assert s.controls[0 := s.controls[0]] == s.controls && s.joints[0 := s.joints[0]] == s.joints;
    assert s.controls[1 := s.controls[1]] == s.controls && s.joints[1 := s.joints[1]] == s.joints;
    states := [s, s.(pc := DisableOutput(0)), s.(pc := DisableMode(1)), s.(pc := DisableOutput(1)),
               s.(pc := DisableDrive), s.(pc := Finish), TRIPPED];
  }

  lemma IdleTick()
    ensures HandleTick(DEFAULT_PARAMS, Control(0, 0), 0, INITIAL) == INITIAL
  {
  }

  lemma ToRestarted() returns (steps: seq<Step>, states: seq<Robot>)
    ensures Segment(steps, states) && states[0] == TRIPPED && states[|steps|] == RESTARTED
  {
    hide Pid, HandleTick;
    steps := [TimerTick([0, 0]), Main, Main];
    var s := TRIPPED.(commHandle := true);
    IdleTick();
    states := [TRIPPED, s, s.(pc := Drive), RESTARTED];
  }

  lemma ToSteered() returns (steps: seq<Step>, states: seq<Robot>)
    ensures Segment(steps, states) && states[0] == RESTARTED && states[|steps|] == STEERED
  {
    steps := [SteerTo(0, 5), SteerTo(1, 5), SteerTo(0, 5), SteerTo(1, 5)];
    var off, on := Control(JOINT_DISABLED, 5), Control(JOINT_PID, 5);
    states := [RESTARTED, RESTARTED.(controls := [off, Control(0, 0)], pc := Steer(1)),
               RESTARTED.(controls := [off, off], pc := Steer(2)), RESTARTED.(controls := [on, off], pc := Steer(3)), STEERED];
  }

  lemma ToLate() returns (steps: seq<Step>, states: seq<Robot>)
    ensures Segment(steps, states) && states[0] == STEERED && states[|steps|] == LATE
  {
    steps := [Receive(0), Main, Main];
    states := [STEERED, STEERED.(frames := 0, pc := Watch), STEERED.(frames := 0, watchdogCount := -1, pc := Finish), LATE];
  }

  /**
   * Why AllCountable is needed: 65536 frames in one cycle look like none, the watchdog trips early, and
   * a drive command among them starts the motors again after the trip.  One silent cycle later the
   * deadline of one cycle has passed and the joints are under control.
   */
  lemma UncountableFrames() returns (steps: seq<Step>, states: seq<Robot>)
    ensures IsRun(BOOT, steps, states)
    ensures !AllCountable(steps)
    ensures var s := states[|steps|]; Valid(s) && s.watchdogCycles == 1 && s.silent == 1 && !MotorsOff(s)
  {
    steps, states := ToBurst();
    var steps', states' := ToExpired();
    SegmentConcat(steps, states, steps', states');
    steps, states := steps + steps', states + states'[1..];
    steps', states' := ToTripped();
    SegmentConcat(steps, states, steps', states');
    steps, states := steps + steps', states + states'[1..];
    steps', states' := ToRestarted();
    SegmentConcat(steps, states, steps', states');
    steps, states := steps + steps', states + states'[1..];
    steps', states' := ToSteered();
    SegmentConcat(steps, states, steps', states');
    steps, states := steps + steps', states + states'[1..];
    steps', states' := ToLate();
    SegmentConcat(steps, states, steps', states');
    steps, states := steps + steps', states + states'[1..];
    assert steps[2] == Receive(0x1_0000);
  }
}
