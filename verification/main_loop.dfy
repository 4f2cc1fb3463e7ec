/**
 * The functions of src/server/orazio.c, orazio_joints.c and orazio_drive.c that the step system of
 * module Watchdog interleaves, as the methods that run them without interruption.
 */
module MainLoop {
  import opened Int16
  import opened Joint
  import opened Watchdog

  class Server {
    const joints: array<Joint.State>
    const controls: array<Control>
    const params: array<Params>
    var driveEnable: bool
    var lastDriveControlSeq: nat
    var driveControlSeq: nat
    var watchdogCount: int
    var watchdogCycles: nat
    var rxPackets: nat
    var rxPacketsBefore: nat
    var tickCounter: nat
    var commCycles: nat
    var commHandle: bool
    // where the step system stands
    ghost var pc: Pc
    ghost var frames: nat
    ghost var silent: nat

    ghost predicate Valid()
      reads this, joints, controls, params
    {
      && joints.Length == NUM_MOTORS && controls.Length == NUM_MOTORS && params.Length == NUM_MOTORS
      && joints as object != controls && joints as object != params && controls as object != params
      && Watchdog.Valid(View())
    }

    ghost function View(): Robot
      reads this, joints, controls, params
    {
      Robot(joints[..], controls[..], params[..], driveEnable, lastDriveControlSeq, driveControlSeq,
            watchdogCount, watchdogCycles, rxPackets, rxPacketsBefore, tickCounter, commCycles, commHandle,
            pc, frames, silent)
    }

    /**
     * The state in which main enters its loop: controllers cleared, joints as `controls` commands them, and
     * the drive taking the present drive packet as seen.
     */
    constructor (params: seq<Params>, controls: seq<Control>, watchdogCycles: nat, commCycles: nat, driveControlSeq: nat)
      requires |params| == NUM_MOTORS && |controls| == NUM_MOTORS && watchdogCycles < 0x1_0000
      ensures Valid() && Watchdog.Initial(View())
      ensures View().params == params && View().controls == controls && View().joints == [INITIAL, INITIAL]
      ensures this.watchdogCycles == watchdogCycles && this.commCycles == commCycles && tickCounter == commCycles % 256
      ensures !driveEnable && lastDriveControlSeq == this.driveControlSeq == driveControlSeq
      ensures fresh(joints) && fresh(this.controls) && fresh(this.params)
    {
      joints := new Joint.State[NUM_MOTORS](_ => INITIAL);
      this.controls := new Control[NUM_MOTORS](i requires 0 <= i < NUM_MOTORS => controls[i]);
      this.params := new Params[NUM_MOTORS](i requires 0 <= i < NUM_MOTORS => params[i]);
      driveEnable := false;
      lastDriveControlSeq, this.driveControlSeq := driveControlSeq, driveControlSeq;
      rxPackets, rxPacketsBefore := 0, 0;
      this.watchdogCycles, this.commCycles := watchdogCycles, commCycles;
      tickCounter := commCycles % 256;
      watchdogCount := Wrap(watchdogCycles);
      commHandle := false;
      pc, frames, silent := Idle, 0, 0;
      new;
      assert this.joints[..] == [INITIAL, INITIAL];
      assert this.controls[..] == controls && this.params[..] == params;
    }

    /** Orazio_jointsHandle after the encoders have been sampled. */
    method JointsHandle(enc: seq<int>)
      requires Valid() && |enc| == NUM_MOTORS
      modifies joints
      ensures Valid() && View() == old(View()).(joints := OnTick(old(View()), enc).joints)
    {
      hide HandleTick;
      ghost var before := joints[..];
      for i := 0 to NUM_MOTORS
        invariant forall k :: 0 <= k < NUM_MOTORS ==>
          joints[k] == (if k < i then HandleTick(params[k], controls[k], enc[k], before[k]) else before[k])
        invariant controls[..] == old(controls[..]) && params[..] == old(params[..])
      {
        joints[i] := HandleTick(params[i], controls[i], enc[i], joints[i]);
      }
    }

    method OnTimerTick(enc: seq<int>)
      requires Valid() && |enc| == NUM_MOTORS
      modifies this`tickCounter, this`commHandle, joints
      ensures Valid() && View() == OnTick(old(View()), enc)
    {
      JointsHandle(enc);
      tickCounter := (tickCounter - 1) % 256;
      if tickCounter == 0 {
        tickCounter := commCycles % 256;
        commHandle := true;
      }
    }

    method JointsDisable()
      requires Valid()
      modifies joints, controls
      ensures Valid()
      ensures View() == old(View()).(controls := AllOff(old(View())).controls, joints := AllOff(old(View())).joints)
    {
      ghost var s := View();
      for i := 0 to NUM_MOTORS
        invariant params[..] == s.params
        invariant forall k :: 0 <= k < NUM_MOTORS ==>
          && controls[k] == (if k < i then s.controls[k].(mode := JOINT_DISABLED) else s.controls[k])
          && joints[k] == (if k < i then s.joints[k].(output := 0) else s.joints[k])
      {
        controls[i] := controls[i].(mode := JOINT_DISABLED);
        joints[i] := joints[i].(output := 0);
      }
    }

    method DriveDisable()
      modifies this`driveEnable
      ensures !driveEnable
    {
      driveEnable := false;
    }

    /** The enable latch of Orazio_driveControl, keyed on the sequence number of the drive packet. */
    method DriveLatch()
      requires Valid() && pc.Drive?
      modifies this`driveEnable, this`lastDriveControlSeq, this`pc
      ensures Valid() && View() == OnMain(old(View()))
      ensures driveEnable <==> old(driveEnable) || old(lastDriveControlSeq) != driveControlSeq
    {
      if lastDriveControlSeq != driveControlSeq {
        driveEnable := true;
        lastDriveControlSeq := driveControlSeq;
      }
      pc := if driveEnable then Steer(0) else Flush;
    }

    /** One cycle of silence counts down, anything received reloads the count. */
    method CountSilence()
      requires Valid() && watchdogCycles != 0
      modifies this`watchdogCount
      ensures Valid()
      ensures watchdogCount == if rxPacketsBefore == rxPackets then Wrap(old(watchdogCount) - 1) else Wrap(watchdogCycles)
    {
      if rxPacketsBefore == rxPackets {
        watchdogCount := Wrap(watchdogCount - 1);
      } else {
        watchdogCount := Wrap(watchdogCycles);
      }
    }

    method DisableMotors()
      requires Valid()
      modifies this`driveEnable, joints, controls
      ensures Valid() && View() == AllOff(old(View()))
    {
      JointsDisable();
      DriveDisable();
    }

    /** The body of the main loop after the communication: the watchdog and the end of the cycle. */
    method Supervise()
      requires Valid() && pc.Watch?
      modifies this, joints, controls
      ensures Valid() && View() == Supervised(old(View()))
      ensures !commHandle && rxPacketsBefore == rxPackets
    {
      hide Wrap, AllOff;
      ghost var s := View();
      if watchdogCycles != 0 {
        CountSilence();
        // deadline reached
        if watchdogCount == 0 && watchdogCycles != 0 {
          DisableMotors();
        }
      }
      FinishCycle();
      assert View() == Supervised(s);
    }

    method FinishCycle()
      requires Valid()
      modifies this`rxPacketsBefore, this`commHandle, this`pc, this`silent
      ensures Valid() && View() == OnMain(old(View()).(pc := Finish))
    {
      rxPacketsBefore := rxPackets;
      commHandle := false;
      pc, silent := Idle, if frames == 0 then silent + 1 else 0;
    }
  }
}
