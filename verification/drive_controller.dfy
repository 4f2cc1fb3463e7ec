/** The drive controller as the object it is in src/server/orazio_drive_internal.c, over the reals. */
module DriveController {
  import opened Drive
  import opened Encoder
  import opened Int16
  import opened Joint

  class DifferentialDriveController {
    const statusLeft: JointInfo
    const statusRight: JointInfo
    const controlLeft: JointControl
    const controlRight: JointControl
    var config: Config
    var encoderLeftPrevious: int
    var encoderRightPrevious: int
    // the status packet
    var odomX: real
    var odomY: real
    var odomTheta: real
    var tvMeasured: real
    var rvMeasured: real
    var tvDesired: real
    var rvDesired: real
    var tvAdjusted: real
    var rvAdjusted: real
    /** The ticks the updates have counted since the last reset. */
    ghost var leftTravel: int
    ghost var rightTravel: int

    ghost predicate Valid()
      reads this`config
    {
      config.Valid()
    }

    function Odom(): Pose
      reads this
    {
      Pose(odomX, odomY, odomTheta)
    }

    constructor (statusLeft: JointInfo, statusRight: JointInfo, controlLeft: JointControl, controlRight: JointControl,
                 config: Config)
      requires config.Valid()
      ensures Valid() && this.config == config
      ensures this.statusLeft == statusLeft && this.statusRight == statusRight
      ensures this.controlLeft == controlLeft && this.controlRight == controlRight
      ensures Odom() == Pose(0.0, 0.0, 0.0)
      ensures encoderLeftPrevious == statusLeft.encoderPosition && encoderRightPrevious == statusRight.encoderPosition
    {
      this.statusLeft, this.statusRight := statusLeft, statusRight;
      this.controlLeft, this.controlRight := controlLeft, controlRight;
      this.config := config;
      new;
      Reset(0.0, 0.0, 0.0);
    }

    method ClearVelocities()
      modifies this`tvMeasured, this`rvMeasured, this`tvAdjusted, this`rvAdjusted, this`tvDesired, this`rvDesired
      ensures tvMeasured == rvMeasured == tvDesired == rvDesired == tvAdjusted == rvAdjusted == 0.0
    {
      tvMeasured, rvMeasured := 0.0, 0.0;
      tvAdjusted, rvAdjusted := 0.0, 0.0;
      tvDesired, rvDesired := 0.0, 0.0;
    }

    /** Sets the pose, clears the velocities and forgets the wheel motion up to now. */
    method Reset(x: real, y: real, theta: real)
      modifies this
      ensures config == old(config) && Odom() == Pose(x, y, theta)
      ensures tvMeasured == rvMeasured == tvDesired == rvDesired == tvAdjusted == rvAdjusted == 0.0
      ensures encoderLeftPrevious == statusLeft.encoderPosition && encoderRightPrevious == statusRight.encoderPosition
      ensures leftTravel == rightTravel == 0
    {
      leftTravel, rightTravel := 0, 0;
      odomX, odomY, odomTheta := x, y, theta;
      ClearVelocities();
      encoderLeftPrevious := statusLeft.encoderPosition;
      encoderRightPrevious := statusRight.encoderPosition;
    }

    /**
     * Kinematic update; `s` and `c` are the sine and cosine of the present heading, `tv` and `rv` the
     * velocities in the control packet.
     */
    method Update(tv: real, rv: real, s: real, c: real)
      requires Valid()
      modifies this
      ensures Valid() && config == old(config)
      ensures encoderLeftPrevious == statusLeft.encoderPosition && encoderRightPrevious == statusRight.encoderPosition
      ensures var left := Wrap(statusLeft.encoderPosition - old(encoderLeftPrevious)) as real;
              var right := Wrap(statusRight.encoderPosition - old(encoderRightPrevious)) as real;
              && tvMeasured == MeasuredTv(config, left, right) && rvMeasured == MeasuredRv(config, left, right)
              && (left != 0.0 || right != 0.0 ==>
                    Odom() == Advance(old(Odom()), Plus(config, left, right), Heading(config, Minus(config, left, right)), s, c))
              && (left == 0.0 && right == 0.0 ==> Odom() == old(Odom()))
      ensures leftTravel == old(leftTravel) + Wrap(statusLeft.encoderPosition - old(encoderLeftPrevious))
      ensures rightTravel == old(rightTravel) + Wrap(statusRight.encoderPosition - old(encoderRightPrevious))
      ensures tvDesired == tv && rvDesired == rv
      ensures tvAdjusted == Adjust(tv, tvMeasured, if tv == 0.0 then config.brake else config.maxDtv, config.maxTv)
      ensures rvAdjusted == Adjust(rv, rvMeasured, config.maxDrv, config.maxRv)
    {
      hide Wrap, Advance, MeasuredTv, MeasuredRv, Adjust, Plus, Minus, ClampReal, Heading;
      UpdateOdometry(s, c);
      LimitVelocities(tv, rv);
    }

    /** The second half of the update: the acceleration profile. */
    method LimitVelocities(tv: real, rv: real)
      requires Valid()
      modifies this`tvDesired, this`rvDesired, this`tvAdjusted, this`rvAdjusted
      ensures tvDesired == tv && rvDesired == rv
      ensures tvAdjusted == Adjust(tv, tvMeasured, if tv == 0.0 then config.brake else config.maxDtv, config.maxTv)
      ensures rvAdjusted == Adjust(rv, rvMeasured, config.maxDrv, config.maxRv)
    {
      hide ClampReal;
      var desTv, desRv := tv, rv;
      tvDesired, rvDesired := desTv, desRv;
      var maxDtv := config.maxDtv;
      // stopping has a limit of its own
      if desTv == 0.0 {
        maxDtv := config.brake;
      }
      // one step toward the desired velocity, then the top speed
      var dtv := ClampReal(desTv - tvMeasured, maxDtv);
      desTv := ClampReal(tvMeasured + dtv, config.maxTv);
      var drv := ClampReal(desRv - rvMeasured, config.maxDrv);
      desRv := ClampReal(rvMeasured + drv, config.maxRv);
      tvAdjusted, rvAdjusted := desTv, desRv;
    }

    /** Applies the increment of an arc to the previous estimate. */
    method MoveAlongArc(deltaPlus: real, dth: real, s: real, c: real)
      modifies this`odomX, this`odomY, this`odomTheta
      ensures Odom() == Advance(old(Odom()), deltaPlus, dth, s, c)
    {
      hide SinTerm, CosTerm;
      AdvanceTheta(Odom(), deltaPlus, dth, s, c);
      var sinOverTheta, oneMinusCosOverTheta := ComputeThetaTerms(dth);
      var dx := 0.5 * deltaPlus * sinOverTheta;
      var dy := 0.5 * deltaPlus * oneMinusCosOverTheta;
      ghost var next := Advance(Odom(), deltaPlus, dth, s, c);
      assert odomX + (c * dx - s * dy) == next.x && odomY + (s * dx + c * dy) == next.y;
      hide Advance;
      odomX := odomX + (c * dx - s * dy);
      odomY := odomY + (s * dx + c * dy);
      assert odomX == next.x && odomY == next.y;
      odomTheta := odomTheta + dth;
      // one correction by a full turn
      if odomTheta > M_PI {
        odomTheta := odomTheta - 2.0 * M_PI;
      } else if odomTheta < -M_PI {
        odomTheta := odomTheta + 2.0 * M_PI;
      }
    }

    method UpdateOdometry(s: real, c: real)
      requires Valid()
      modifies this`encoderLeftPrevious, this`encoderRightPrevious, this`odomX, this`odomY, this`odomTheta,
               this`tvMeasured, this`rvMeasured, this`leftTravel, this`rightTravel
      ensures encoderLeftPrevious == statusLeft.encoderPosition && encoderRightPrevious == statusRight.encoderPosition
      ensures var left := Wrap(statusLeft.encoderPosition - old(encoderLeftPrevious)) as real;
              var right := Wrap(statusRight.encoderPosition - old(encoderRightPrevious)) as real;
              && tvMeasured == MeasuredTv(config, left, right) && rvMeasured == MeasuredRv(config, left, right)
              && (left != 0.0 || right != 0.0 ==>
                    Odom() == Advance(old(Odom()), Plus(config, left, right), Heading(config, Minus(config, left, right)), s, c))
              && (left == 0.0 && right == 0.0 ==> Odom() == old(Odom()))
      ensures leftTravel == old(leftTravel) + Wrap(statusLeft.encoderPosition - old(encoderLeftPrevious))
      ensures rightTravel == old(rightTravel) + Wrap(statusRight.encoderPosition - old(encoderRightPrevious))
    {
      hide Wrap, Advance, Mul, Rate, Heading;
      var leftTicks := Wrap(statusLeft.encoderPosition - encoderLeftPrevious);
      var rightTicks := Wrap(statusRight.encoderPosition - encoderRightPrevious);
      encoderRightPrevious := statusRight.encoderPosition;
      encoderLeftPrevious := statusLeft.encoderPosition;
      leftTravel, rightTravel := leftTravel + leftTicks, rightTravel + rightTicks;
      var tvm, rvm := 0.0, 0.0;
      StandStill(config);
      // without a tick the pose is left alone
      if leftTicks != 0 || rightTicks != 0 {
        var deltaL, deltaR := Mul(config.kl, leftTicks as real), Mul(config.kr, rightTicks as real);
        var deltaPlus, deltaMinus := deltaR + deltaL, deltaR - deltaL;
        var dth := Heading(config, deltaMinus);
        MoveAlongArc(deltaPlus, dth, s, c);
        tvm := Rate(0.5 * deltaPlus, config.Dt());
        rvm := Rate(dth, config.Dt());
      }
      tvMeasured, rvMeasured := tvm, rvm;
    }

    /** Converts the adjusted base velocity to wheel ticks per joint period. */
    method Control()
      requires Valid()
      modifies controlLeft, controlRight
      ensures controlLeft != controlRight ==> controlLeft.speed == Truncate(LeftSpeed(config, tvAdjusted, rvAdjusted))
      ensures controlRight.speed == Truncate(RightSpeed(config, tvAdjusted, rvAdjusted))
      ensures controlLeft.mode == controlRight.mode == JOINT_PID
    {
      var dt := config.jointsDt;
      // half the sum and half the difference of the wheel paths in one joint period
      var d2p := tvAdjusted * dt;
      var d2m := 0.5 * config.baseline * rvAdjusted * dt;
      var jlv := config.Ikl() * (d2p - d2m);
      var jrv := config.Ikr() * (d2p + d2m);
      assert jlv == LeftSpeed(config, tvAdjusted, rvAdjusted) && jrv == RightSpeed(config, tvAdjusted, rvAdjusted);
      hide Truncate, LeftSpeed, RightSpeed;
      // command both joints
      controlLeft.speed := Truncate(jlv);
      controlRight.speed := Truncate(jrv);
      controlLeft.mode := JOINT_PID;
      controlRight.mode := JOINT_PID;
    }
  }

  lemma AdvanceTheta(pose: Pose, plus: real, dth: real, s: real, c: real)
    ensures Advance(pose, plus, dth, s, c).theta == Normalize(pose.theta + dth)
  {
  }

  lemma StandStill(f: Config)
    requires f.Valid()
    ensures MeasuredTv(f, 0.0, 0.0) == 0.0 && MeasuredRv(f, 0.0, 0.0) == 0.0
  {
  }

  /** The shaft's positions at the updates, each a move from the one before that fits int16_t. */
  predicate ModestPath(from: int, path: seq<int>) {
    forall k :: 0 <= k < |path| ==> Fits(path[k] - At(from, path, k))
  }

  /** The position before the k-th move. */
  function At(from: int, path: seq<int>, k: nat): int
    requires k <= |path|
  {
    if k == 0 then from else path[k - 1]
  }

  /**
   * Updates after the wheels have moved to the given true positions, of which the encoders show the value
   * modulo 2^16: the ticks counted add up to the true displacement, through any number of wrap-arounds.
   */
  method Follow(drive: DifferentialDriveController, fromLeft: int, fromRight: int, left: seq<int>, right: seq<int>,
                headings: seq<(real, real)>)
    requires drive.Valid() && drive.statusLeft != drive.statusRight && |left| == |right| == |headings|
    requires drive.encoderLeftPrevious == Unsigned(fromLeft) && drive.encoderRightPrevious == Unsigned(fromRight)
    requires ModestPath(fromLeft, left) && ModestPath(fromRight, right)
    modifies drive, drive.statusLeft, drive.statusRight
    ensures drive.Valid()
    ensures drive.leftTravel == old(drive.leftTravel) + At(fromLeft, left, |left|) - fromLeft
    ensures drive.rightTravel == old(drive.rightTravel) + At(fromRight, right, |right|) - fromRight
  {
    hide Wrap, Unsigned, Adjust, Advance, MeasuredTv, MeasuredRv, Plus, Minus, Heading;
    for k := 0 to |left|
      invariant drive.Valid()
      invariant drive.encoderLeftPrevious == Unsigned(At(fromLeft, left, k))
      invariant drive.encoderRightPrevious == Unsigned(At(fromRight, right, k))
      invariant drive.leftTravel == old(drive.leftTravel) + At(fromLeft, left, k) - fromLeft
      invariant drive.rightTravel == old(drive.rightTravel) + At(fromRight, right, k) - fromRight
    {
      SpeedExact(At(fromLeft, left, k), left[k]);
      SpeedExact(At(fromRight, right, k), right[k]);
      drive.statusLeft.encoderPosition := Unsigned(left[k]);
      drive.statusRight.encoderPosition := Unsigned(right[k]);
      drive.Update(0.0, 0.0, headings[k].0, headings[k].1);
    }
  }
}
