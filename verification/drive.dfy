/**
 * src/server/orazio_drive_internal.c over the reals: odometry along an arc, velocity profile, and the
 * conversion between base velocity and wheel ticks.
 */
module Drive {
  const COS_COEFFS: seq<real> := [0.0, 1.0 / 2.0, 0.0, -1.0 / 24.0, 0.0, 1.0 / 720.0]
  const SIN_COEFFS: seq<real> := [1.0, 0.0, -1.0 / 6.0, 0.0, 1.0 / 120.0, 0.0]

  function AbsR(x: real): (r: real)
    ensures r >= 0.0 && (r == x || r == -x)
  {
    if x < 0.0 then -x else x
  }

  function Power(x: real, n: nat): real {
    if n == 0 then 1.0 else Power(x, n - 1) * x
  }

  /** The Taylor terms of sin(x)/x up to x^4. */
  function SinTerm(x: real): real {
    1.0 - x * x / 6.0 + x * x * x * x / 120.0
  }

  /** The Taylor terms of (1-cos(x))/x up to x^5. */
  function CosTerm(x: real): real {
    x / 2.0 - x * x * x / 24.0 + x * x * x * x * x / 720.0
  }

  /** The sum the loop has reached after `n` rounds, over the coefficients of one parity. */
  function PartialSum(coeffs: seq<real>, parity: nat, x: real, n: nat): real
    requires n <= |coeffs|
  {
    if n == 0 then 0.0
    else PartialSum(coeffs, parity, x, n - 1) + if (n - 1) % 2 == parity then Power(x, n - 1) * coeffs[n - 1] else 0.0
  }

  lemma SumsAreTerms(x: real)
    ensures PartialSum(SIN_COEFFS, 0, x, 6) == SinTerm(x)
    ensures PartialSum(COS_COEFFS, 1, x, 6) == CosTerm(x)
  {
    assert Power(x, 1) == x;
    assert Power(x, 2) == x * x;
    assert Power(x, 3) == x * x * x;
    assert Power(x, 4) == x * x * x * x;
    assert Power(x, 5) == x * x * x * x * x;
    assert PartialSum(SIN_COEFFS, 0, x, 1) == 1.0;
    assert PartialSum(SIN_COEFFS, 0, x, 2) == 1.0;
    assert PartialSum(SIN_COEFFS, 0, x, 3) == 1.0 - x * x / 6.0;
    assert PartialSum(SIN_COEFFS, 0, x, 4) == 1.0 - x * x / 6.0;
    assert PartialSum(SIN_COEFFS, 0, x, 5) == SinTerm(x);
    assert PartialSum(COS_COEFFS, 1, x, 1) == 0.0;
    assert PartialSum(COS_COEFFS, 1, x, 2) == x / 2.0;
    assert PartialSum(COS_COEFFS, 1, x, 3) == x / 2.0;
    assert PartialSum(COS_COEFFS, 1, x, 4) == x / 2.0 - x * x * x / 24.0;
    assert PartialSum(COS_COEFFS, 1, x, 5) == x / 2.0 - x * x * x / 24.0;
  }

  method ComputeThetaTerms(theta: real) returns (sinOverTheta: real, oneMinusCosOverTheta: real)
    ensures sinOverTheta == SinTerm(theta) && oneMinusCosOverTheta == CosTerm(theta)
  {
    sinOverTheta, oneMinusCosOverTheta := 0.0, 0.0;
    var thetaAcc := 1.0;
    for i := 0 to 6
      invariant thetaAcc == Power(theta, i)
      invariant sinOverTheta == PartialSum(SIN_COEFFS, 0, theta, i)
      invariant oneMinusCosOverTheta == PartialSum(COS_COEFFS, 1, theta, i)
    {
      if i % 2 == 1 {
        oneMinusCosOverTheta := oneMinusCosOverTheta + thetaAcc * COS_COEFFS[i];
      } else {
        sinOverTheta := sinOverTheta + thetaAcc * SIN_COEFFS[i];
      }
      thetaAcc := thetaAcc * theta;
    }
    SumsAreTerms(theta);
  }

  function ClampReal(value: real, threshold: real): (r: real)
    ensures threshold >= 0.0 ==> AbsR(r) <= threshold && (AbsR(value) <= threshold ==> r == value)
    ensures threshold >= 0.0 && AbsR(value) > threshold ==> r == (if value > 0.0 then threshold else -threshold)
  {
    if value > threshold then threshold else if value < -threshold then -threshold else value
  }

  // ---- odometry

  datatype Pose = Pose(x: real, y: real, theta: real)

  /** M_PI; only its sign matters below. */
  const M_PI: real := 3.14159265358979323846

  function Normalize(theta: real): real {
    if theta > M_PI then theta - 2.0 * M_PI else if theta < -M_PI then theta + 2.0 * M_PI else theta
  }

  /** The pose after the wheels moved `plus` together and turned the base by `dth`; (s, c) is (sin, cos) of theta. */
  function Advance(pose: Pose, plus: real, dth: real, s: real, c: real): Pose {
    var dx := 0.5 * plus * SinTerm(dth);
    var dy := 0.5 * plus * CosTerm(dth);
    Pose(pose.x + (c * dx - s * dy), pose.y + (s * dx + c * dy), Normalize(pose.theta + dth))
  }

  /** Along the heading and to its left, what one step moves the base. */
  function Ahead(p: Pose, q: Pose, s: real, c: real): real {
    c * (q.x - p.x) + s * (q.y - p.y)
  }

  function Leftward(p: Pose, q: Pose, s: real, c: real): real {
    c * (q.y - p.y) - s * (q.x - p.x)
  }

  /** Turned back by the heading, a step is the arc: the two Taylor terms times half the wheel path. */
  lemma StepIsArc(pose: Pose, plus: real, dth: real, s: real, c: real)
    requires s * s + c * c == 1.0
    ensures Ahead(pose, Advance(pose, plus, dth, s, c), s, c) == 0.5 * plus * SinTerm(dth)
    ensures Leftward(pose, Advance(pose, plus, dth, s, c), s, c) == 0.5 * plus * CosTerm(dth)
  {
    hide SinTerm, CosTerm, Normalize;
    var dx, dy := 0.5 * plus * SinTerm(dth), 0.5 * plus * CosTerm(dth);
    var next := Advance(pose, plus, dth, s, c);
    assert next.x - pose.x == c * dx - s * dy && next.y - pose.y == s * dx + c * dy;
    hide Advance;
    TurnBack(dx, dy, s, c);
  }

  lemma TurnBack(dx: real, dy: real, s: real, c: real)
    requires s * s + c * c == 1.0
    ensures c * (c * dx - s * dy) + s * (s * dx + c * dy) == dx
    ensures c * (s * dx + c * dy) - s * (c * dx - s * dy) == dy
  {
    assert c * (c * dx - s * dy) + s * (s * dx + c * dy) == (s * s + c * c) * dx;
    assert c * (s * dx + c * dy) - s * (c * dx - s * dy) == (s * s + c * c) * dy;
  }

  /** Both Taylor sums keep the signs that sin(x)/x and (1-cos(x))/x have on the first half turn, for every x. */
  lemma TermSigns(x: real)
    ensures SinTerm(x) > 0.0
    ensures (CosTerm(x) > 0.0 <==> x > 0.0) && (CosTerm(x) < 0.0 <==> x < 0.0)
  {
    var z := x * x;
    var r := (z - 15.0) * (z - 15.0) + 135.0;
    SquareSign(z - 10.0);
    SquareSign(z - 15.0);
    assert SinTerm(x) == ((z - 10.0) * (z - 10.0) + 20.0) / 120.0;
    assert CosTerm(x) == x * r / 720.0;
    SignTimesPositive(x, r);
  }

  lemma SignTimesPositive(x: real, r: real)
    requires r > 0.0
    ensures (x * r > 0.0 <==> x > 0.0) && (x * r < 0.0 <==> x < 0.0)
  {
    if x > 0.0 {
      ProductSign0(x, r, x * r);
    } else if x < 0.0 {
      ProductSign0(-x, r, -x * r);
    }
  }

  /**
   * A step goes ahead exactly if the wheels together went ahead, and to the left exactly if it turns left going ahead
   * or right going back.
   */
  lemma StepFollowsTurn(pose: Pose, plus: real, dth: real, s: real, c: real)
    requires s * s + c * c == 1.0
    ensures Ahead(pose, Advance(pose, plus, dth, s, c), s, c) > 0.0 <==> plus > 0.0
    ensures Leftward(pose, Advance(pose, plus, dth, s, c), s, c) > 0.0
       <==> (plus > 0.0 && dth > 0.0) || (plus < 0.0 && dth < 0.0)
  {
    StepIsArc(pose, plus, dth, s, c);
    TermSigns(dth);
    hide SinTerm, CosTerm, Advance, Ahead, Leftward;
    SignTimesPositive(0.5 * plus, SinTerm(dth));
    if dth > 0.0 {
      SignTimesPositive(0.5 * plus, CosTerm(dth));
    } else if dth < 0.0 {
      SignTimesPositive(0.5 * plus, -CosTerm(dth));
      Negated(0.5 * plus, CosTerm(dth));
    }
  }

  lemma Negated(a: real, b: real)
    ensures a * -b == -(a * b)
  {
  }

  /** How far the squared step falls short of the mean wheel path, as a polynomial in dth^2. */
  function Shortfall(y: real): real {
    43200.0 - 1440.0 * y - 180.0 * y * y + 24.0 * y * y * y - y * y * y * y
  }

  lemma TermsIdentity(x: real)
    ensures SinTerm(x) * SinTerm(x) + CosTerm(x) * CosTerm(x) == 1.0 - x * x * Shortfall(x * x) / 518400.0
  {
  }

  lemma Rotation(dx: real, dy: real, s: real, c: real)
    requires s * s + c * c == 1.0
    ensures (c * dx - s * dy) * (c * dx - s * dy) + (s * dx + c * dy) * (s * dx + c * dy) == dx * dx + dy * dy
  {
    calc {
      (c * dx - s * dy) * (c * dx - s * dy) + (s * dx + c * dy) * (s * dx + c * dy);
      (s * s + c * c) * (dx * dx) + (s * s + c * c) * (dy * dy);
      dx * dx + dy * dy;
    }
  }

  function Square(x: real): real {
    x * x
  }

  /** The squared distance between two poses. */
  function Distance2(p: Pose, q: Pose): real {
    Square(q.x - p.x) + Square(q.y - p.y)
  }

  /** The squared length of one odometry step, exactly. */
  lemma StepLength(pose: Pose, plus: real, dth: real, s: real, c: real)
    requires s * s + c * c == 1.0
    ensures Distance2(pose, Advance(pose, plus, dth, s, c))
         == Square(0.5 * plus) - Square(0.5 * plus) * (Square(dth) * Shortfall(Square(dth)) / 518400.0)
  {
    var half := 0.5 * plus;
    var a, b := SinTerm(dth), CosTerm(dth);
    Rotation(half * a, half * b, s, c);
    TermsIdentity(dth);
    hide SinTerm, CosTerm, Shortfall, Normalize;
    var next := Advance(pose, plus, dth, s, c);
    var dx, dy := next.x - pose.x, next.y - pose.y;
    assert dx == c * (half * a) - s * (half * b) && dy == s * (half * a) + c * (half * b);
    Factor(half, a, b);
    Expand(Square(half), Square(dth) * Shortfall(Square(dth)) / 518400.0, a * a + b * b);
  }

  lemma Factor(h: real, a: real, b: real)
    ensures (h * a) * (h * a) + (h * b) * (h * b) == Square(h) * (a * a + b * b)
  {
  }

  lemma Expand(h: real, short: real, sum: real)
    requires sum == 1.0 - short
    ensures h * sum == h - h * short
  {
  }

  lemma ShortfallPositive(y: real)
    requires 0.0 <= y <= 16.0
    ensures Shortfall(y) > 0.0
  {
    var z := y - 4.0;
    var cubic := y * (z * z + 36.0) + 832.0;
    assert z * z >= 0.0 && cubic > 0.0;
    assert Shortfall(y) == 43200.0 - 1440.0 * y - 13312.0 + (16.0 - y) * cubic;
    assert (16.0 - y) * cubic >= 0.0;
  }

  /** The robot never moves further than its wheels on average: guaranteed for turns up to 4 radians per update. */
  lemma StepWithinWheelPath(pose: Pose, plus: real, dth: real, s: real, c: real)
    requires s * s + c * c == 1.0
    ensures Distance2(pose, Advance(pose, plus, dth, s, c)) <= Square(0.5 * plus)
       <==> plus == 0.0 || dth == 0.0 || Shortfall(Square(dth)) >= 0.0
    ensures -4.0 <= dth <= 4.0 ==> Distance2(pose, Advance(pose, plus, dth, s, c)) <= Square(0.5 * plus)
  {
    StepLength(pose, plus, dth, s, c);
    if -4.0 <= dth <= 4.0 {
      SquareBound(dth);
      ShortfallPositive(Square(dth));
    }
    SquareSign(0.5 * plus);
    SquareSign(dth);
    hide Distance2, Square, Advance, Shortfall;
    SignOfProduct(Square(0.5 * plus), Square(dth), Shortfall(Square(dth)));
  }

  lemma SquareBound(x: real)
    requires -4.0 <= x <= 4.0
    ensures 0.0 <= Square(x) <= 16.0
  {
    assert 16.0 - x * x == (4.0 - x) * (4.0 + x);
    ProductSign0(4.0 - x, 4.0 + x, 16.0 - x * x);
    SquareSign(x);
  }

  lemma SquareSign(x: real)
    ensures Square(x) >= 0.0 && (Square(x) == 0.0 <==> x == 0.0)
  {
    if x > 0.0 {
      ProductSign0(x, x, Square(x));
    } else if x < 0.0 {
      ProductSign0(-x, -x, Square(x));
    }
  }

  lemma ProductSign0(p: real, q: real, r: real)
    requires p >= 0.0 && q >= 0.0 && r == p * q
    ensures r >= 0.0 && (p > 0.0 && q > 0.0 ==> r > 0.0)
  {
  }

  lemma ProductSign(p: real, q: real)
    requires p > 0.0
    ensures q >= 0.0 <==> p * q >= 0.0
  {
    if q < 0.0 {
      assert p * (-q) > 0.0;
    }
  }

  lemma SignOfProduct(h: real, d: real, w: real)
    requires h >= 0.0 && d >= 0.0
    ensures h * (d * w / 518400.0) >= 0.0 <==> h == 0.0 || d == 0.0 || w >= 0.0
  {
    if h > 0.0 && d > 0.0 {
      ProductSign(d, w);
      ProductSign(h, d * w / 518400.0);
    }
  }

  /** Beyond that a turn can stretch the step: at 4.25 radians the Taylor terms overshoot. */
  lemma LongTurnOvershoots()
    ensures Shortfall(4.25 * 4.25) < 0.0
  {
  }

  /**
   * One correction by 2*pi is enough exactly when the uncorrected angle is within 3*pi; an angle within pi is left
   * alone, and any other moves toward 0.
   */
  lemma NormalizeOnce(theta: real)
    ensures AbsR(Normalize(theta)) <= M_PI <==> AbsR(theta) <= 3.0 * M_PI
    ensures AbsR(theta) <= M_PI ==> Normalize(theta) == theta
    ensures AbsR(theta) > M_PI ==> AbsR(Normalize(theta) - theta) == 2.0 * M_PI && AbsR(Normalize(theta)) < AbsR(theta)
  {
  }

  datatype Motion = Motion(plus: real, dth: real, s: real, c: real)

  function Odometry(start: Pose, motions: seq<Motion>): Pose {
    if |motions| == 0 then start
    else
      var m := motions[|motions| - 1];
      Advance(Odometry(start, motions[..|motions| - 1]), m.plus, m.dth, m.s, m.c)
  }

  /** The turns of a run added up. */
  function TotalTurn(motions: seq<Motion>): real {
    if |motions| == 0 then 0.0 else TotalTurn(motions[..|motions| - 1]) + motions[|motions| - 1].dth
  }

  /** The heading is the start's plus all turns, up to full circles. */
  lemma {:induction false} HeadingAddsUp(start: Pose, motions: seq<Motion>) returns (circles: int)
    ensures Odometry(start, motions).theta == start.theta + TotalTurn(motions) - circles as real * (2.0 * M_PI)
  {
    if |motions| == 0 {
      circles := 0;
    } else {
      var n := |motions| - 1;
      var before := HeadingAddsUp(start, motions[..n]);
      var theta := Odometry(start, motions[..n]).theta + motions[n].dth;
      circles := before + if theta > M_PI then 1 else if theta < -M_PI then -1 else 0;
      assert Odometry(start, motions).theta == Normalize(theta);
    }
  }

  /** The heading stays within [-pi, pi] over every run of turns up to a full circle per update. */
  lemma {:induction false} HeadingBounded(start: Pose, motions: seq<Motion>)
    requires AbsR(start.theta) <= M_PI
    requires forall k :: 0 <= k < |motions| ==> AbsR(motions[k].dth) <= 2.0 * M_PI
    ensures AbsR(Odometry(start, motions).theta) <= M_PI
  {
    if |motions| > 0 {
      var n := |motions| - 1;
      HeadingBounded(start, motions[..n]);
      NormalizeOnce(Odometry(start, motions[..n]).theta + motions[n].dth);
    }
  }

  /** The wheels' mean path over a run. */
  function MeanPath(motions: seq<Motion>): real {
    if |motions| == 0 then 0.0 else MeanPath(motions[..|motions| - 1]) + 0.5 * motions[|motions| - 1].plus
  }

  /** Driving straight moves the base along its heading by the wheels' mean path, and does not turn it. */
  lemma {:induction false} StraightRun(start: Pose, motions: seq<Motion>, s: real, c: real)
    requires AbsR(start.theta) <= M_PI
    requires forall k :: 0 <= k < |motions| ==> motions[k].dth == 0.0 && motions[k].s == s && motions[k].c == c
    ensures Odometry(start, motions)
         == Pose(start.x + c * MeanPath(motions), start.y + s * MeanPath(motions), start.theta)
  {
    if |motions| > 0 {
      var n := |motions| - 1;
      StraightRun(start, motions[..n], s, c);
      StraightStep(start, MeanPath(motions[..n]), motions[n].plus, s, c);
    }
  }

  lemma StraightStep(start: Pose, path: real, plus: real, s: real, c: real)
    requires AbsR(start.theta) <= M_PI
    ensures Advance(Pose(start.x + c * path, start.y + s * path, start.theta), plus, 0.0, s, c)
         == Pose(start.x + c * (path + 0.5 * plus), start.y + s * (path + 0.5 * plus), start.theta)
  {
    NormalizeOnce(start.theta);
    assert SinTerm(0.0) == 1.0 && CosTerm(0.0) == 0.0;
    hide SinTerm, CosTerm, Normalize;
    assert start.theta + 0.0 == start.theta;
  }

  // ---- wheels and base velocity

  /** The cached parameters of the controller; `periods` joint periods make one update period. */
  datatype Config = Config(
    kl: real, kr: real, baseline: real, jointsDt: real, periods: nat,
    maxDtv: real, maxDrv: real, brake: real, maxTv: real, maxRv: real)
  {
    predicate Valid() {
      kl != 0.0 && kr != 0.0 && baseline != 0.0 && jointsDt > 0.0 && periods > 0
    }

    function Dt(): real {
      jointsDt * periods as real
    }

    function Ikl(): real
      requires Valid()
    {
      1.0 / kl
    }

    function Ikr(): real
      requires Valid()
    {
      1.0 / kr
    }
  }

  function LeftSpeed(f: Config, tv: real, rv: real): real
    requires f.Valid()
  {
    f.Ikl() * (tv * f.jointsDt - 0.5 * f.baseline * rv * f.jointsDt)
  }

  function RightSpeed(f: Config, tv: real, rv: real): real
    requires f.Valid()
  {
    f.Ikr() * (tv * f.jointsDt + 0.5 * f.baseline * rv * f.jointsDt)
  }

  /** Velocity from a path length per update period. */
  function Rate(path: real, dt: real): real
    requires dt != 0.0
  {
    path * (1.0 / dt)
  }

  /** A product the solver should not look into. */
  function Mul(a: real, b: real): real {
    a * b
  }

  /** delta_plus and delta_minus: the wheel paths together, and their difference. */
  function Plus(f: Config, left: real, right: real): real {
    Mul(f.kr, right) + Mul(f.kl, left)
  }

  function Minus(f: Config, left: real, right: real): real {
    Mul(f.kr, right) - Mul(f.kl, left)
  }

  /** The turn that a difference of the wheel paths makes. */
  function Heading(f: Config, minus: real): real
    requires f.Valid()
  {
    minus * (1.0 / f.baseline)
  }

  /** The velocities the update measures from the wheel ticks of one update period. */
  function MeasuredTv(f: Config, left: real, right: real): real
    requires f.Valid()
  {
    Rate(0.5 * Plus(f, left, right), f.Dt())
  }

  function MeasuredRv(f: Config, left: real, right: real): real
    requires f.Valid()
  {
    Rate(Heading(f, Minus(f, left, right)), f.Dt())
  }

  /** Conversion of a float to int16_t: toward zero. */
  function Truncate(x: real): int {
    if x >= 0.0 then x.Floor else -((-x).Floor)
  }

  lemma TruncateError(x: real)
    ensures AbsR(x - Truncate(x) as real) < 1.0
    ensures AbsR(Truncate(x) as real) <= AbsR(x)
  {
    if x < 0.0 {
      assert Truncate(x) as real == -((-x).Floor as real);
    }
  }

  function Ratio(x: real, d: real): real
    requires d != 0.0
  {
    x / d
  }

  /** What an error in the path, or in the difference of the paths, per joint period does to the velocities. */
  function TvShift(f: Config, path: real): real
    requires f.Valid()
  {
    Ratio(path, 2.0 * f.jointsDt)
  }

  function RvShift(f: Config, turn: real): real
    requires f.Valid()
  {
    NonZeroProduct(f.baseline, f.jointsDt);
    Ratio(turn, Mul(f.baseline, f.jointsDt))
  }

  lemma NonZeroProduct(a: real, b: real)
    requires a != 0.0 && b != 0.0
    ensures Mul(a, b) != 0.0
  {
  }

  /** Wheel errors of `el` and `er` ticks per joint period reach the measured velocities scaled by kl and kr. */
  lemma MeasuredFromSpeeds(f: Config, tv: real, rv: real, el: real, er: real, left: real, right: real)
    requires f.Valid()
    requires left == (LeftSpeed(f, tv, rv) + el) * f.periods as real
    requires right == (RightSpeed(f, tv, rv) + er) * f.periods as real
    ensures MeasuredTv(f, left, right) == tv + TvShift(f, Plus(f, el, er))
    ensures MeasuredRv(f, left, right) == rv + RvShift(f, Minus(f, el, er))
  {
    TicksToPath(f, tv, rv, el, er, left, right);
    NonZeroProduct(f.baseline, f.jointsDt);
    hide Rate, Ratio, Plus, Minus, Mul, LeftSpeed, RightSpeed;
    var dt, n := f.jointsDt, f.periods as real;
    assert f.Dt() == dt * n;
    ScaleTv(tv, dt, n, Plus(f, el, er), 0.5 * Plus(f, left, right));
    ScaleRv(rv, f.baseline, dt, n, Minus(f, el, er), Minus(f, left, right));
  }

  lemma TicksToPath(f: Config, tv: real, rv: real, el: real, er: real, left: real, right: real)
    requires f.Valid()
    requires left == (LeftSpeed(f, tv, rv) + el) * f.periods as real
    requires right == (RightSpeed(f, tv, rv) + er) * f.periods as real
    ensures Plus(f, left, right) == (2.0 * (tv * f.jointsDt) + Plus(f, el, er)) * f.periods as real
    ensures Minus(f, left, right)
         == (2.0 * (0.5 * f.baseline * rv * f.jointsDt) + Minus(f, el, er)) * f.periods as real
  {
    var p, m, n := tv * f.jointsDt, 0.5 * f.baseline * rv * f.jointsDt, f.periods as real;
    assert LeftSpeed(f, tv, rv) == 1.0 / f.kl * (p - m) && RightSpeed(f, tv, rv) == 1.0 / f.kr * (p + m);
    hide LeftSpeed, RightSpeed, Mul;
    WheelTicks(f.kl, p - m, el, n, LeftSpeed(f, tv, rv), left);
    WheelTicks(f.kr, p + m, er, n, RightSpeed(f, tv, rv), right);
    MeasuredTicks(Mul(f.kl, left), Mul(f.kr, right), p, m, Mul(f.kl, el), Mul(f.kr, er), n);
  }

  lemma WheelTicks(k: real, d: real, e: real, n: real, speed: real, ticks: real)
    requires k != 0.0 && speed == 1.0 / k * d && ticks == (speed + e) * n
    ensures Mul(k, ticks) == (d + Mul(k, e)) * n
  {
    WheelPath(k, d, e, n);
  }

  lemma MeasuredTicks(left: real, right: real, p: real, m: real, a: real, b: real, n: real)
    requires left == (p - m + a) * n && right == (p + m + b) * n
    ensures right + left == (2.0 * p + (b + a)) * n
    ensures right - left == (2.0 * m + (b - a)) * n
  {
    Distribute(p + m + b, p - m + a, n);
  }

  lemma Distribute(x: real, y: real, n: real)
    ensures x * n + y * n == (x + y) * n && x * n - y * n == (x - y) * n
  {
  }

  /** k * ((1/k * d + e) * n) == (d + k*e) * n. */
  lemma WheelPath(k: real, d: real, e: real, n: real)
    requires k != 0.0
    ensures Mul(k, (1.0 / k * d + e) * n) == (d + Mul(k, e)) * n
  {
    assert k * (1.0 / k * d) == d;
    assert k * ((1.0 / k * d + e) * n) == (k * (1.0 / k * d) + k * e) * n;
  }

  lemma ScaleTv(tv: real, dt: real, n: real, e: real, path: real)
    requires dt > 0.0 && n > 0.0 && path == 0.5 * ((2.0 * (tv * dt) + e) * n)
    ensures dt * n != 0.0 && Rate(path, dt * n) == tv + Ratio(e, 2.0 * dt)
  {
    Cancel(n, dt);
    calc {
      path * (1.0 / (dt * n));
      (tv * dt + 0.5 * e) * (n * (1.0 / (dt * n)));
      (tv * dt + 0.5 * e) * (1.0 / dt);
      tv * (dt * (1.0 / dt)) + 0.5 * e * (1.0 / dt);
      tv + e / (2.0 * dt);
    }
  }

  lemma Cancel(n: real, d: real)
    requires n != 0.0 && d != 0.0
    ensures d * n != 0.0
    ensures n * (1.0 / (d * n)) == 1.0 / d
  {
    var r := 1.0 / (d * n);
    assert (d * n) * r == 1.0;
    assert d * (n * r) == 1.0;
  }

  lemma ScaleRv(rv: real, base: real, dt: real, n: real, e: real, path: real)
    requires base != 0.0 && dt > 0.0 && n > 0.0
    requires path == (2.0 * (0.5 * base * rv * dt) + e) * n
    ensures dt * n != 0.0 && Mul(base, dt) != 0.0
    ensures Rate(path * (1.0 / base), dt * n) == rv + Ratio(e, Mul(base, dt))
  {
    Cancel(n, dt);
    InverseProduct(base, dt);
    var x := rv * (base * dt) + e;
    var ib, id, w := 1.0 / base, 1.0 / dt, 1.0 / (base * dt);
    assert path == x * n;
    calc {
      path * ib * (1.0 / (dt * n));
      x * ib * (n * (1.0 / (dt * n)));
      x * ib * id;
      x * (ib * id);
      x * w;
      rv * ((base * dt) * w) + e * w;
      rv + e / (base * dt);
    }
  }

  lemma InverseProduct(a: real, b: real)
    requires a != 0.0 && b != 0.0
    ensures a * b != 0.0 && (1.0 / a) * (1.0 / b) == 1.0 / (a * b)
  {
    var x, y := 1.0 / a, 1.0 / b;
    assert a * x == 1.0 && b * y == 1.0;
    assert (a * b) * (x * y) == (a * x) * (b * y);
  }

  /** The wheel paths commanded for a joint period: their sum carries the base ahead, their difference turns it left. */
  lemma CommandedPaths(f: Config, tv: real, rv: real)
    requires f.Valid()
    ensures Mul(f.kr, RightSpeed(f, tv, rv)) + Mul(f.kl, LeftSpeed(f, tv, rv)) == 2.0 * (tv * f.jointsDt)
    ensures Mul(f.kr, RightSpeed(f, tv, rv)) - Mul(f.kl, LeftSpeed(f, tv, rv)) == f.baseline * rv * f.jointsDt
  {
    var p, m := tv * f.jointsDt, 0.5 * f.baseline * rv * f.jointsDt;
    assert f.kl * (1.0 / f.kl * (p - m)) == p - m;
    assert f.kr * (1.0 / f.kr * (p + m)) == p + m;
  }

  /** Wheels that follow the commanded ticks give back the commanded velocities exactly. */
  lemma KinematicRoundTrip(f: Config, tv: real, rv: real)
    requires f.Valid()
    ensures var n := f.periods as real;
            var left, right := LeftSpeed(f, tv, rv) * n, RightSpeed(f, tv, rv) * n;
            MeasuredTv(f, left, right) == tv && MeasuredRv(f, left, right) == rv
  {
    var n := f.periods as real;
    MeasuredFromSpeeds(f, tv, rv, 0.0, 0.0, LeftSpeed(f, tv, rv) * n, RightSpeed(f, tv, rv) * n);
  }

  /** (|kl| + |kr|) / (2 * joints_dt) and (|kl| + |kr|) / (|baseline| * joints_dt). */
  function TvTolerance(f: Config): real
    requires f.Valid()
  {
    Ratio(AbsR(f.kl) + AbsR(f.kr), 2.0 * f.jointsDt)
  }

  function RvTolerance(f: Config): real
    requires f.Valid()
  {
    NonZeroProduct(AbsR(f.baseline), f.jointsDt);
    Ratio(AbsR(f.kl) + AbsR(f.kr), Mul(AbsR(f.baseline), f.jointsDt))
  }

  /** Ticks of a wheel that follows the truncated command for `n` joint periods. */
  function WholeTicks(speed: real, n: nat): real {
    Truncate(speed) as real * n as real
  }

  function TruncationError(speed: real): (e: real)
    ensures AbsR(e) < 1.0
  {
    TruncateError(speed);
    Truncate(speed) as real - speed
  }

  /** With commands truncated to whole ticks the velocities come back within one tick per wheel and joint period. */
  lemma TruncatedRoundTrip(f: Config, tv: real, rv: real)
    requires f.Valid()
    ensures var left, right := WholeTicks(LeftSpeed(f, tv, rv), f.periods), WholeTicks(RightSpeed(f, tv, rv), f.periods);
            && AbsR(MeasuredTv(f, left, right) - tv) < TvTolerance(f)
            && AbsR(MeasuredRv(f, left, right) - rv) < RvTolerance(f)
  {
    hide LeftSpeed, RightSpeed, Truncate, MeasuredTv, MeasuredRv, Plus, Minus, TvTolerance, RvTolerance, TvShift, RvShift;
    var l, r := LeftSpeed(f, tv, rv), RightSpeed(f, tv, rv);
    var left, right := WholeTicks(l, f.periods), WholeTicks(r, f.periods);
    var el, er := TruncationError(l), TruncationError(r);
    MeasuredFromSpeeds(f, tv, rv, el, er, left, right);
    ErrorBound(f, el, er);
    hide WholeTicks, TruncationError;
    TvError(f, Plus(f, el, er));
    RvError(f, Minus(f, el, er));
    Shifted(MeasuredTv(f, left, right), tv, TvShift(f, Plus(f, el, er)));
    Shifted(MeasuredRv(f, left, right), rv, RvShift(f, Minus(f, el, er)));
  }

  lemma Shifted(x: real, y: real, shift: real)
    requires x == y + shift
    ensures AbsR(x - y) == AbsR(shift)
  {
  }

  lemma TvError(f: Config, path: real)
    requires f.Valid() && AbsR(path) < AbsR(f.kl) + AbsR(f.kr)
    ensures AbsR(TvShift(f, path)) < TvTolerance(f)
  {
    hide Ratio;
    QuotientBoundR(path, AbsR(f.kl) + AbsR(f.kr), 2.0 * f.jointsDt, TvShift(f, path));
  }

  lemma RvError(f: Config, turn: real)
    requires f.Valid() && AbsR(turn) < AbsR(f.kl) + AbsR(f.kr)
    ensures AbsR(RvShift(f, turn)) < RvTolerance(f)
  {
    hide Mul, Ratio;
    NonZeroProduct(f.baseline, f.jointsDt);
    AbsProduct(f.baseline, f.jointsDt);
    QuotientBoundR(turn, AbsR(f.kl) + AbsR(f.kr), Mul(f.baseline, f.jointsDt), RvShift(f, turn));
  }

  lemma ErrorBound(f: Config, el: real, er: real)
    requires f.Valid() && AbsR(el) < 1.0 && AbsR(er) < 1.0
    ensures AbsR(Plus(f, el, er)) < AbsR(f.kl) + AbsR(f.kr)
    ensures AbsR(Minus(f, el, er)) < AbsR(f.kl) + AbsR(f.kr)
  {
    hide Mul;
    SmallProduct(f.kl, el);
    SmallProduct(f.kr, er);
    Triangle(Mul(f.kr, er), Mul(f.kl, el), AbsR(f.kr), AbsR(f.kl));
  }

  lemma Triangle(x: real, y: real, a: real, b: real)
    requires AbsR(x) < a && AbsR(y) < b
    ensures AbsR(x + y) < a + b && AbsR(x - y) < a + b
  {
  }

  lemma SmallProduct(k: real, e: real)
    requires k != 0.0 && AbsR(e) < 1.0
    ensures AbsR(Mul(k, e)) < AbsR(k)
  {
    AbsProduct(k, e);
    ProductSign0(AbsR(k), 1.0 - AbsR(e), AbsR(k) * (1.0 - AbsR(e)));
    Distribute(1.0, AbsR(e), AbsR(k));
  }

  lemma AbsProduct(a: real, b: real)
    ensures AbsR(a * b) == AbsR(a) * AbsR(b)
    ensures AbsR(Mul(a, b)) == Mul(AbsR(a), AbsR(b))
  {
    assert (-a) * b == -(a * b) && a * (-b) == -(a * b) && (-a) * (-b) == a * b;
    if a >= 0.0 && b >= 0.0 {
      assert a * b >= 0.0;
    } else if a >= 0.0 {
      assert a * (-b) >= 0.0;
    } else if b >= 0.0 {
      assert (-a) * b >= 0.0;
    } else {
      assert (-a) * (-b) >= 0.0;
    }
  }

  lemma QuotientBoundR(x: real, bound: real, d: real, q: real)
    requires AbsR(x) < bound && d != 0.0 && q == Ratio(x, d)
    ensures AbsR(q) < Ratio(bound, AbsR(d))
  {
    var a := AbsR(d);
    var y := if d > 0.0 then x else -x;
    assert q == y / a;
    assert y < bound && -bound < y;
    DivideOrder(y, bound, a);
    DivideOrder(-bound, y, a);
    assert -bound / a == -(bound / a);
  }

  lemma DivideOrder(x: real, y: real, a: real)
    requires x < y && a > 0.0
    ensures x / a < y / a
  {
  }

  /** The velocity sent to the wheels: a step toward the desired one, limited by acceleration and by top speed. */
  function Adjust(desired: real, measured: real, maxStep: real, max: real): real {
    ClampReal(measured + ClampReal(desired - measured, maxStep), max)
  }

  /** Within the top speed, within one step of the measured velocity, and the desired one if that is possible. */
  lemma AdjustLimits(desired: real, measured: real, maxStep: real, max: real)
    requires maxStep >= 0.0 && max >= 0.0
    ensures AbsR(Adjust(desired, measured, maxStep, max)) <= max
    ensures AbsR(Adjust(desired, measured, maxStep, max) - measured) <= maxStep <==> AbsR(measured) <= max + maxStep
    ensures AbsR(desired) <= max && AbsR(desired - measured) <= maxStep ==> Adjust(desired, measured, maxStep, max) == desired
    ensures desired - measured > maxStep && AbsR(measured + maxStep) <= max ==>
              Adjust(desired, measured, maxStep, max) == measured + maxStep
    ensures measured - desired > maxStep && AbsR(measured - maxStep) <= max ==>
              Adjust(desired, measured, maxStep, max) == measured - maxStep
  {
  }
}
