/** The attitude filter of panda/m3/angle.c (without magnetometer and drift correction), over the reals.
    A square root is any number that is not negative and squares to its argument. */
module Attitude {
  import opened Quaternion

  predicate IsRoot(n: real, x: real) {
    n >= 0.0 && Square(n) == x
  }

  /** `quaternion_norm`, `norm` being the root it divides by. */
  function Normalized(q: Quat, norm: real): Quat
    requires norm != 0.0
  {
    Quat(q.q1/norm, q.q2/norm, q.q3/norm, q.q4/norm)
  }

  /** The objective `fg`: the direction of gravity that `q` predicts, minus the measured one. */
  function Objective(q: Quat, accel: Vec): Vec {
    Vec(2.0*(q.q2*q.q4 - q.q1*q.q3) - accel.x,
        2.0*(q.q1*q.q2 + q.q3*q.q4) - accel.y,
        2.0*(0.5 - q.q2*q.q2 - q.q3*q.q3) - accel.z)
  }

  /** `Jgfg`, before it is normalised. */
  function RawGradient(q: Quat, accel: Vec): Quat {
    var fg := Objective(q, accel);
    Quat(2.0*(-fg.x*q.q3 + fg.y*q.q2),
         2.0*(fg.x*q.q4 + fg.y*q.q1 - 2.0*fg.z*q.q2),
         2.0*(-fg.x*q.q1 + fg.y*q.q4 - 2.0*fg.z*q.q3),
         2.0*(fg.x*q.q2 + fg.y*q.q3))
  }

  function Pure(v: Vec): Quat {
    Quat(0.0, v.x, v.y, v.z)
  }

  /** The new quaternion before `quaternion_norm`; `grad` is the normalised gradient. */
  function Step(q: Quat, gyro: Vec, grad: Quat, errorGain: real, dt: real): Quat {
    var rate := Scale(Mult(q, Pure(gyro)), 0.5);
    var change := Scale(Sub(rate, Scale(grad, errorGain)), dt);
    Add(q, change)
  }

  function Abs(x: real): (r: real)
    ensures r >= 0.0 && (r == x || r == -x)
  {
    if x < 0.0 then -x else x
  }

  /** How far one period moves the attitude along the normalised gradient. */
  function Pull(errorGain: real, dt: real): real {
    Abs(Times(dt, errorGain))
  }

  class Filter {
    var q: Quat
    var dt: real
    var gyroBiasGain: real
    var errorGain: real

    ghost function State(): FilterState
      reads this
    {
      FilterState(q, errorGain)
    }

    /** `angle_init`. */
    constructor (newDt: real, newGyroBiasGain: real, newErrorGain: real)
      ensures q == Quat(1.0, 0.0, 0.0, 0.0) && Norm2(q) == 1.0
      ensures dt == newDt && gyroBiasGain == newGyroBiasGain && errorGain == newErrorGain
    {
      gyroBiasGain := newGyroBiasGain;
      errorGain := newErrorGain;
      dt := newDt;
      q := ONE;
    }

    /** `update_gains`: the parameters it unpacks go to `angle_init`, so the attitude starts over. */
    method UpdateGains(newErrorGain: real, newGyroBiasGain: real)
      modifies this
      ensures q == Quat(1.0, 0.0, 0.0, 0.0) && Norm2(q) == 1.0
      ensures Handles(old(State()), Retuned(newErrorGain), dt, State())
      ensures dt == old(dt) && gyroBiasGain == newGyroBiasGain && errorGain == newErrorGain
    {
      gyroBiasGain := newGyroBiasGain;
      errorGain := newErrorGain;
      q := ONE;
    }

    /** `angle_update`. The divisions in `quaternion_norm` need roots that are not zero; for a unit attitude and a gain
        that moves it by less than a whole unit per period the second root is proved not to be. The attitude becomes the
        unit quaternion that points along the unnormalised step. */
    method AngleUpdate(gyro: Vec, accel: Vec, gradNorm: real, qNorm: real)
      requires qNorm != 0.0 || (Norm2(q) == 1.0 && Pull(errorGain, dt) < 1.0)
      requires IsRoot(gradNorm, Norm2(RawGradient(q, accel))) && gradNorm != 0.0
      requires IsRoot(qNorm, Norm2(Step(q, gyro, Normalized(RawGradient(q, accel), gradNorm), errorGain, dt)))
      modifies `q
      ensures Norm2(q) == 1.0
      ensures Norm2(old(q)) == 1.0 && Pull(errorGain, dt) < 1.0 ==> qNorm >= 1.0 - Pull(errorGain, dt) > 0.0
      ensures Scale(q, qNorm) == Step(old(q), gyro, Normalized(RawGradient(old(q), accel), gradNorm), errorGain, dt)
      ensures Handles(old(State()), Measured(gyro, accel, gradNorm, qNorm), dt, State())
    {
      var grad := RawGradient(q, accel);
      NormalizedIsUnit(grad, gradNorm);
      grad := Normalized(grad, gradNorm);
      if Norm2(q) == 1.0 && Pull(errorGain, dt) < 1.0 {
        StepCannotVanish(q, gyro, grad, errorGain, dt, qNorm);
      }

      var gyroIn := Pure(gyro);
      gyroIn := Mult(q, gyroIn);
      gyroIn := Scale(gyroIn, 0.5);
      grad := Scale(grad, errorGain);
      var qInt := Sub(gyroIn, grad);
      qInt := Scale(qInt, dt);
      var next := Add(q, qInt);
      NormalizedIsUnit(next, qNorm);
      q := Normalized(next, qNorm);
    }
  }

  lemma Quotient(x: real, n: real, u: real, s: real)
    requires n != 0.0 && u == x/n && s == n*n
    ensures u*n == x
    ensures x*x == u*u*s
  {
  }

  lemma CommonFactor(a: real, b: real, c: real, d: real, f: real, sum: real)
    requires sum == a + b + c + d
    ensures a*f + b*f + c*f + d*f == Times(sum, f)
  {
  }

  lemma Cancel(x: real, y: real)
    requires Times(x, y) == y && y > 0.0
    ensures x == 1.0
  {
  }

  /** What `quaternion_norm` is for: a unit quaternion pointing the same way. */
  lemma NormalizedIsUnit(q: Quat, n: real)
    requires IsRoot(n, Norm2(q)) && n != 0.0
    ensures Norm2(Normalized(q, n)) == 1.0
    ensures Scale(Normalized(q, n), n) == q
  {
    var u, s := Normalized(q, n), Square(n);
    Quotient(q.q1, n, u.q1, s);
    Quotient(q.q2, n, u.q2, s);
    Quotient(q.q3, n, u.q3, s);
    Quotient(q.q4, n, u.q4, s);
    hide Times;
    CommonFactor(u.q1*u.q1, u.q2*u.q2, u.q3*u.q3, u.q4*u.q4, s, Norm2(u));
    Cancel(Norm2(u), s);
  }

  lemma MultIsLinear(q: Quat, a: Quat, b: Quat, h: real)
    ensures Mult(q, Add(a, Scale(b, h))) == Add(Mult(q, a), Scale(Mult(q, b), h))
  {
    var c := Scale(b, h);
    ProductDistributes(q, a, c);
    ProductScales(q, b, h);
  }

  lemma ProductDistributes(q: Quat, a: Quat, b: Quat)
    ensures Mult(q, Add(a, b)) == Add(Mult(q, a), Mult(q, b))
  {
    var c := Add(a, b);
    MultIsDots(q, a);
    MultIsDots(q, b);
    MultIsDots(q, c);
    hide Mult, Dot4;
    DotDistributes(q.q1, -q.q2, -q.q3, -q.q4, a.q1, a.q2, a.q3, a.q4, b.q1, b.q2, b.q3, b.q4);
    DotDistributes(q.q2, q.q1, -q.q4, q.q3, a.q1, a.q2, a.q3, a.q4, b.q1, b.q2, b.q3, b.q4);
    DotDistributes(q.q3, q.q4, q.q1, -q.q2, a.q1, a.q2, a.q3, a.q4, b.q1, b.q2, b.q3, b.q4);
    DotDistributes(q.q4, -q.q3, q.q2, q.q1, a.q1, a.q2, a.q3, a.q4, b.q1, b.q2, b.q3, b.q4);
  }

  lemma ProductScales(q: Quat, b: Quat, h: real)
    ensures Mult(q, Scale(b, h)) == Scale(Mult(q, b), h)
  {
    var c := Scale(b, h);
    MultIsDots(q, b);
    MultIsDots(q, c);
    hide Mult, Dot4;
    DotScales(q.q1, -q.q2, -q.q3, -q.q4, b.q1, b.q2, b.q3, b.q4, h, c.q1, c.q2, c.q3, c.q4);
    DotScales(q.q2, q.q1, -q.q4, q.q3, b.q1, b.q2, b.q3, b.q4, h, c.q1, c.q2, c.q3, c.q4);
    DotScales(q.q3, q.q4, q.q1, -q.q2, b.q1, b.q2, b.q3, b.q4, h, c.q1, c.q2, c.q3, c.q4);
    DotScales(q.q4, -q.q3, q.q2, q.q1, b.q1, b.q2, b.q3, b.q4, h, c.q1, c.q2, c.q3, c.q4);
  }

  lemma MultIsDots(a: Quat, b: Quat)
    ensures Mult(a, b) == Quat(Dot4(a.q1, -a.q2, -a.q3, -a.q4, b.q1, b.q2, b.q3, b.q4),
                               Dot4(a.q2, a.q1, -a.q4, a.q3, b.q1, b.q2, b.q3, b.q4),
                               Dot4(a.q3, a.q4, a.q1, -a.q2, b.q1, b.q2, b.q3, b.q4),
                               Dot4(a.q4, -a.q3, a.q2, a.q1, b.q1, b.q2, b.q3, b.q4))
  {
  }

  lemma DotDistributes(a: real, b: real, c: real, d: real, x: real, y: real, z: real, w: real,
                       x': real, y': real, z': real, w': real)
    ensures Dot4(a, b, c, d, x + x', y + y', z + z', w + w') ==
            Dot4(a, b, c, d, x, y, z, w) + Dot4(a, b, c, d, x', y', z', w')
  {
  }

  lemma DotScales(a: real, b: real, c: real, d: real, x: real, y: real, z: real, w: real, h: real,
                  xh: real, yh: real, zh: real, wh: real)
    requires xh == x*h && yh == y*h && zh == z*h && wh == w*h
    ensures Dot4(a, b, c, d, xh, yh, zh, wh) == Dot4(a, b, c, d, x, y, z, w)*h
  {
  }

  /** Adding `h * q * w` to `q` is multiplying `q` by `1 + h * w`. */
  lemma TurnIsProduct(q: Quat, w: Vec, h: real)
    ensures Mult(q, Add(ONE, Scale(Pure(w), h))) == Add(q, Scale(Mult(q, Pure(w)), h))
  {
    assert Mult(q, ONE) == q;
    hide Mult;
    MultIsLinear(q, ONE, Pure(w), h);
  }

  /** How much a step of length `h` along a turn at rate `w` stretches the square of a length. */
  function Stretch(w: Vec, h: real): real {
    1.0 + h*h*(w.x*w.x + w.y*w.y + w.z*w.z)
  }

  lemma TurnLength(w: Vec, h: real)
    ensures Norm2(Add(ONE, Scale(Pure(w), h))) == Stretch(w, h) >= 1.0
  {
  }

  /** Integrating the gyroscope stretches the attitude by exactly `1 + (h |w|)^2` (squared lengths). */
  lemma TurningStretches(q: Quat, w: Vec, h: real)
    ensures Norm2(Add(q, Scale(Mult(q, Pure(w)), h))) == Norm2(q) * Stretch(w, h)
  {
    hide *;
    TurnIsProduct(q, w, h);
    LengthsMultiply(q, Add(ONE, Scale(Pure(w), h)));
    TurnLength(w, h);
  }

  lemma ScaledDifference(a: Quat, b: Quat, f: real)
    ensures Scale(Sub(a, b), f) == Sub(Scale(a, f), Scale(b, f))
  {
  }

  lemma ScaledTwice(a: Quat, f: real, g: real)
    ensures Scale(Scale(a, f), g) == Scale(a, Times(g, f))
  {
  }

  lemma SumAndDifference(a: Quat, b: Quat, c: Quat)
    ensures Add(a, Sub(b, c)) == Sub(Add(a, b), c)
  {
  }

  /** The step of the filter is a turn of `q` minus a correction of length `dt * errorGain`. */
  lemma StepIsTurnMinusCorrection(q: Quat, gyro: Vec, grad: Quat, errorGain: real, dt: real)
    ensures Step(q, gyro, grad, errorGain, dt) ==
            Sub(Add(q, Scale(Mult(q, Pure(gyro)), Times(dt, 0.5))), Scale(grad, Times(dt, errorGain)))
  {
    hide Mult, Scale, Sub, Add, Times;
    var m := Mult(q, Pure(gyro));
    ScaledDifference(Scale(m, 0.5), Scale(grad, errorGain), dt);
    ScaledTwice(m, 0.5, dt);
    ScaledTwice(grad, errorGain, dt);
    SumAndDifference(q, Scale(Scale(m, 0.5), dt), Scale(Scale(grad, errorGain), dt));
  }

  /** A vector of squared length `a >= 1` cannot come closer to the origin than `1 - e` by a step of length `e`;
      `c` is its inner product with the step. */
  lemma GapRemains(a: real, c: real, e: real)
    requires a >= 1.0 && 0.0 <= e < 1.0 && Square(c) <= a * Square(e)
    ensures a - 2.0*c + Square(e) >= Square(1.0 - e)
  {
    hide Square;
    GapSquares(a, c, e);
    if 2.0*c > a - 1.0 + 2.0*e {
      GrowingSquare(a - 1.0 + 2.0*e, 2.0*c);
      NonNegative(e, 1.0 - e);
      NonNegative(a - 1.0, a - 1.0 + 4.0*(e*(1.0 - e)));
    }
  }

  lemma GapSquares(a: real, c: real, e: real)
    ensures Square(2.0*c) == 4.0*Square(c)
    ensures Square(a - 1.0 + 2.0*e) - 4.0*(a*Square(e)) == (a - 1.0)*(a - 1.0 + 4.0*(e*(1.0 - e)))
    ensures a - 2.0*c + Square(e) - Square(1.0 - e) == a - 1.0 + 2.0*e - 2.0*c
  {
  }

  lemma NonNegative(x: real, y: real)
    requires x >= 0.0 && y >= 0.0
    ensures x*y >= 0.0
  {
  }

  lemma GrowingSquare(x: real, y: real)
    requires 0.0 <= x < y
    ensures Square(x) < Square(y)
  {
    assert Square(y) == Square(x) + (y - x)*(y + x);
    assert Times(y - x, y + x) > 0.0;
  }

  lemma GrowingRoot(x: real, y: real)
    requires 0.0 <= x && 0.0 <= y && Square(x) <= Square(y)
    ensures x <= y
  {
    if y < x {
      GrowingSquare(y, x);
    }
  }

  /** The unnormalised step of a unit quaternion along a unit gradient is never shorter than `1 - |dt * errorGain|`. */
  lemma StepCannotVanish(q: Quat, gyro: Vec, grad: Quat, errorGain: real, dt: real, norm: real)
    requires Norm2(q) == 1.0 && Norm2(grad) == 1.0
    requires Pull(errorGain, dt) < 1.0
    requires IsRoot(norm, Norm2(Step(q, gyro, grad, errorGain, dt)))
    ensures norm >= 1.0 - Pull(errorGain, dt) > 0.0
  {
    hide Mult, Norm2, Square, Times, Add, Scale, Sub, Step, Stretch;
    var e, h := Times(dt, errorGain), Times(dt, 0.5);
    var turned := Add(q, Scale(Mult(q, Pure(gyro)), h));
    StepIsTurnMinusCorrection(q, gyro, grad, errorGain, dt);
    TurningStretches(q, gyro, h);
    TurnLength(gyro, h);
    if e >= 0.0 {
      CorrectionLeavesGap(turned, grad, e);
    } else {
      OppositeCorrection(grad, e);
      CorrectionLeavesGap(turned, Scale(grad, -1.0), -e);
    }
    GrowingRoot(1.0 - Abs(e), norm);
  }

  lemma OppositeCorrection(grad: Quat, e: real)
    ensures Scale(Scale(grad, -1.0), -e) == Scale(grad, e)
    ensures Norm2(Scale(grad, -1.0)) == Norm2(grad)
  {
  }

  lemma CorrectionLeavesGap(turned: Quat, grad: Quat, e: real)
    requires Norm2(turned) >= 1.0 && Norm2(grad) == 1.0 && 0.0 <= e < 1.0
    ensures Norm2(Sub(turned, Scale(grad, e))) >= Square(1.0 - e)
  {
    hide Norm2, Dot, Add, Scale, Sub;
    ScaledDot(turned, grad, e);
    CauchySchwarz(turned, Scale(grad, e));
    DifferenceLength(turned, Scale(grad, e));
    GapRemains(Norm2(turned), Dot(turned, Scale(grad, e)), e);
  }

  /** A length is multiplied by the square of the factor, so only one unit quaternion fits under each root. */
  lemma UnitUnderRoot(u: Quat, q: Quat, n: real)
    requires Scale(u, n) == q && IsRoot(n, Norm2(q)) && n != 0.0
    ensures Norm2(u) == 1.0 && u == Normalized(q, n)
  {
    Quotient(q.q1, n, q.q1/n, Square(n));
    Quotient(q.q2, n, q.q2/n, Square(n));
    Quotient(q.q3, n, q.q3/n, Square(n));
    Quotient(q.q4, n, q.q4/n, Square(n));
    SameFactor(u.q1, q.q1/n, n);
    SameFactor(u.q2, q.q2/n, n);
    SameFactor(u.q3, q.q3/n, n);
    SameFactor(u.q4, q.q4/n, n);
    hide Norm2, Square;
    NormalizedIsUnit(q, n);
  }

  lemma SameFactor(x: real, y: real, n: real)
    requires x*n == y*n && n != 0.0
    ensures x == y
  {
  }

  /** What one period brings: a sample of the sensors, with the two roots the filter takes of it, or new gains. */
  datatype Event =
    | Measured(gyro: Vec, accel: Vec, gradNorm: real, qNorm: real)
    | Retuned(newErrorGain: real)

  datatype FilterState = FilterState(q: Quat, errorGain: real)

  /** The gradient has a direction and the roots are roots. */
  ghost predicate Usable(s: FilterState, e: Event, dt: real) {
    match e
    case Measured(gyro, accel, gradNorm, qNorm) =>
      && IsRoot(gradNorm, Norm2(RawGradient(s.q, accel))) && gradNorm != 0.0
      && IsRoot(qNorm, Norm2(Unnormalized(s, e, dt)))
    case Retuned(_) => true
  }

  function Unnormalized(s: FilterState, e: Event, dt: real): Quat
    requires e.Measured? && e.gradNorm != 0.0
  {
    Step(s.q, e.gyro, Normalized(RawGradient(s.q, e.accel), e.gradNorm), s.errorGain, dt)
  }

  /** One call of `angle_update`, as its contract gives it, or of `update_gains`. The division by the second root is
      not assumed to be possible: any outcome is allowed when that root is zero. */
  ghost predicate Handles(s: FilterState, e: Event, dt: real, s': FilterState) {
    Usable(s, e, dt) &&
    match e
    case Measured(_, _, _, qNorm) =>
      s'.errorGain == s.errorGain && (qNorm != 0.0 ==> Scale(s'.q, qNorm) == Unnormalized(s, e, dt))
    case Retuned(newErrorGain) => s' == FilterState(ONE, newErrorGain)
  }

  ghost predicate Run(states: seq<FilterState>, events: seq<Event>, dt: real) {
    && |states| == |events| + 1
    && states[0].q == ONE
    && forall i :: 0 <= i < |events| ==> Handles(states[i], events[i], dt, states[i+1])
  }

  /** Every gain that is set moves the attitude by less than a whole unit per period, in either direction. */
  predicate GainsAreModerate(start: FilterState, events: seq<Event>, dt: real) {
    && Pull(start.errorGain, dt) < 1.0
    && forall i :: 0 <= i < |events| && events[i].Retuned? ==> Pull(events[i].newErrorGain, dt) < 1.0
  }

  ghost predicate Healthy(s: FilterState, dt: real) {
    Norm2(s.q) == 1.0 && Pull(s.errorGain, dt) < 1.0
  }

  lemma HandlingKeepsHealth(s: FilterState, e: Event, dt: real, s': FilterState)
    requires Healthy(s, dt) && Handles(s, e, dt, s')
    requires e.Retuned? ==> Pull(e.newErrorGain, dt) < 1.0
    ensures Healthy(s', dt)
    ensures e.Measured? ==> e.qNorm >= 1.0 - Pull(s.errorGain, dt) > 0.0
  {
    if e.Measured? {
      hide Norm2, Step, Pull, Scale, Square;
      var raw := RawGradient(s.q, e.accel);
      NormalizedIsUnit(raw, e.gradNorm);
      StepCannotVanish(s.q, e.gyro, Normalized(raw, e.gradNorm), s.errorGain, dt, e.qNorm);
      UnitUnderRoot(s'.q, Unnormalized(s, e, dt), e.qNorm);
    }
  }

  /** Over every run with moderate gains the attitude stays a unit quaternion, and the filter never divides by a vanishing
      step. */
  lemma {:induction false} AttitudeStaysUnit(states: seq<FilterState>, events: seq<Event>, dt: real, n: nat)
    requires Run(states, events, dt) && GainsAreModerate(states[0], events, dt) && n <= |events|
    ensures Healthy(states[n], dt)
    ensures forall i :: 0 <= i < n && events[i].Measured? ==> events[i].qNorm > 0.0
    decreases n
  {
    if n == 0 {
      assert Norm2(ONE) == 1.0;
    } else {
      AttitudeStaysUnit(states, events, dt, n - 1);
      hide Norm2, Usable, Pull;
      HandlingKeepsHealth(states[n-1], events[n-1], dt, states[n]);
    }
  }

  /** A run of measurements after a start with this gain, in which the filter divides by a step of length zero. */
  ghost predicate Vanishes(states: seq<FilterState>, events: seq<Event>, errorGain: real, dt: real) {
    && Run(states, events, dt) && states[0].errorGain == errorGain
    && (forall i :: 0 <= i < |events| ==> events[i].Measured?)
    && exists i :: 0 <= i < |events| && events[i].qNorm == 0.0
  }

  /** An attitude tilted about the first axis only, and samples that keep it there. */
  function Tilted(c: real, s: real): Quat {
    Quat(c, s, 0.0, 0.0)
  }

  function TurnRate(turn: real, dt: real): Vec
    requires dt != 0.0
  {
    Vec(2.0*turn/dt, 0.0, 0.0)
  }

  /** The unnormalised step of such an attitude: a turn by `turn` minus a correction of length `e`. */
  lemma TiltedStep(c: real, s: real, turn: real, g: Quat, errorGain: real, dt: real, e: real)
    requires dt != 0.0 && e == Times(dt, errorGain) && g.q3 == g.q4 == 0.0
    ensures Step(Tilted(c, s), TurnRate(turn, dt), g, errorGain, dt) ==
            Tilted(c - s*turn - g.q1*e, s + c*turn - g.q2*e)
  {
    var q, w, h := Tilted(c, s), 2.0*turn/dt, Times(dt, 0.5);
    StepIsTurnMinusCorrection(q, TurnRate(turn, dt), g, errorGain, dt);
    var m := Mult(q, Pure(TurnRate(turn, dt)));
    assert m == Tilted(-s*w, c*w);
    RateTimesPeriod(turn, dt, w, h);
    HalfTurn(s, w, h, turn);
    HalfTurn(c, w, h, turn);
  }

  lemma RateTimesPeriod(turn: real, dt: real, w: real, h: real)
    requires dt != 0.0 && w == 2.0*turn/dt && h == Times(dt, 0.5)
    ensures w*h == turn
  {
    assert w*dt == 2.0*turn;
  }

  lemma HalfTurn(x: real, w: real, h: real, turn: real)
    requires w*h == turn
    ensures x*w*h == x*turn && (-x*w)*h == -(x*turn)
  {
    assert x*w*h == x*(w*h);
  }

  /** From the start one sample brings the attitude to (3/5, 4/5, 0, 0), whatever the gain. */
  function Tilt(errorGain: real, dt: real): (e: Event)
    requires dt != 0.0
    ensures e.Measured?
  {
    Measured(TurnRate(4.0/3.0 + Times(dt, errorGain), dt), Vec(0.0, -0.5, 1.0), 1.0, 5.0/3.0)
  }

  lemma TiltIsHandled(errorGain: real, dt: real)
    requires dt != 0.0
    ensures Handles(FilterState(ONE, errorGain), Tilt(errorGain, dt), dt, FilterState(Tilted(0.6, 0.8), errorGain))
  {
    var s, e := FilterState(ONE, errorGain), Tilt(errorGain, dt);
    assert RawGradient(ONE, e.accel) == Tilted(0.0, 1.0);
    assert Normalized(Tilted(0.0, 1.0), 1.0) == Tilted(0.0, 1.0);
    TiltedStep(1.0, 0.0, 4.0/3.0 + Times(dt, errorGain), Tilted(0.0, 1.0), errorGain, dt, Times(dt, errorGain));
    assert Unnormalized(s, e, dt) == Tilted(1.0, 4.0/3.0);
  }

  /** The measured direction for which the gradient at that attitude points along the attitude turned by `t`, or opposite. */
  function Opposing(sign: real, t: real): Vec {
    Vec(0.0, 0.96 - sign*(3.0 - 4.0*t)/8.0, -0.28 + sign*(7.0 + 24.0*t)/64.0)
  }

  /** At that attitude, with `t*t == e*e - 1`, this sample asks for a correction as long as the turned attitude. */
  function Cancelling(errorGain: real, dt: real, t: real): (e: Event)
    requires dt != 0.0
    ensures e.Measured? && e.qNorm == 0.0
  {
    var sign := if Times(dt, errorGain) < 0.0 then -1.0 else 1.0;
    Measured(TurnRate(t, dt), Opposing(sign, t), Pull(errorGain, dt), 0.0)
  }

  lemma CancellingGradient(sign: real, t: real)
    requires sign == 1.0 || sign == -1.0
    ensures RawGradient(Tilted(0.6, 0.8), Opposing(sign, t)) ==
            Tilted(sign*(0.6 - 0.8*t), sign*(0.8 + 0.6*t))
  {
  }

  lemma CancellingVanishes(errorGain: real, dt: real, t: real, after: FilterState)
    requires dt != 0.0 && Pull(errorGain, dt) >= 1.0 && IsRoot(t, Square(Times(dt, errorGain)) - 1.0)
    requires after.errorGain == errorGain
    ensures Handles(FilterState(Tilted(0.6, 0.8), errorGain), Cancelling(errorGain, dt, t), dt, after)
  {
    hide *;
    var sign := CancellingIs(errorGain, dt, t);
    var e, n := Times(dt, errorGain), Pull(errorGain, dt);
    var raw := Tilted(sign*(0.6 - 0.8*t), sign*(0.8 + 0.6*t));
    CancellingGradient(sign, t);
    CancellingLength(sign, t, e, n);
    CancellingStep(sign, t, e, n, errorGain, dt);
    NoLength();
    VanishingSample(FilterState(Tilted(0.6, 0.8), errorGain), TurnRate(t, dt), Opposing(sign, t), n, raw, dt,
                    Tilted(0.0, 0.0), after);
  }

  lemma CancellingIs(errorGain: real, dt: real, t: real) returns (sign: real)
    requires dt != 0.0
    ensures sign == 1.0 || sign == -1.0
    ensures Pull(errorGain, dt) == Abs(Times(dt, errorGain)) && Times(dt, errorGain) == sign*Pull(errorGain, dt)
    ensures Cancelling(errorGain, dt, t) == Measured(TurnRate(t, dt), Opposing(sign, t), Pull(errorGain, dt), 0.0)
  {
    hide TurnRate, Opposing, Times;
    sign := if Times(dt, errorGain) < 0.0 then -1.0 else 1.0;
  }

  lemma VanishingSample(s: FilterState, gyro: Vec, accel: Vec, n: real, raw: Quat, dt: real, step: Quat, after: FilterState)
    requires RawGradient(s.q, accel) == raw && IsRoot(n, Norm2(raw)) && n != 0.0
    requires Step(s.q, gyro, Normalized(raw, n), s.errorGain, dt) == step && IsRoot(0.0, Norm2(step))
    requires after.errorGain == s.errorGain
    ensures Handles(s, Measured(gyro, accel, n, 0.0), dt, after)
  {
    hide RawGradient, IsRoot, Norm2, Step, Normalized, Scale;
  }

  lemma CancellingStep(sign: real, t: real, e: real, n: real, errorGain: real, dt: real)
    requires (sign == 1.0 || sign == -1.0) && n > 0.0 && e == sign*n && e == Times(dt, errorGain) && dt != 0.0
    ensures Step(Tilted(0.6, 0.8), TurnRate(t, dt), Normalized(Tilted(sign*(0.6 - 0.8*t), sign*(0.8 + 0.6*t)), n),
                 errorGain, dt) == Tilted(0.0, 0.0)
  {
    var a, b := 0.6 - 0.8*t, 0.8 + 0.6*t;
    var g := Normalized(Tilted(sign*a, sign*b), n);
    PulledBack(sign*a, n, sign, e, a);
    PulledBack(sign*b, n, sign, e, b);
    assert g.q3 == g.q4 == 0.0;
    hide Times;
    TiltedStep(0.6, 0.8, t, g, errorGain, dt, e);
    hide Step;
  }

  lemma NoLength()
    ensures IsRoot(0.0, Norm2(Tilted(0.0, 0.0)))
  {
  }

  lemma CancellingLength(sign: real, t: real, e: real, n: real)
    requires (sign == 1.0 || sign == -1.0) && IsRoot(t, Square(e) - 1.0) && n == Abs(e)
    ensures IsRoot(n, Norm2(Tilted(sign*(0.6 - 0.8*t), sign*(0.8 + 0.6*t))))
  {
    var a, b := 0.6 - 0.8*t, 0.8 + 0.6*t;
    assert a*a + b*b == 1.0 + t*t == e*e == n*n;
    assert (sign*a)*(sign*a) == a*a && (sign*b)*(sign*b) == b*b;
  }

  lemma PulledBack(x: real, n: real, sign: real, e: real, a: real)
    requires n > 0.0 && e == sign*n && x == sign*a && (sign == 1.0 || sign == -1.0)
    ensures x/n*e == a
  {
    assert x/n*n == x;
  }

  lemma TwoSamplesVanish(s0: FilterState, e0: Event, s1: FilterState, e1: Event, s2: FilterState, dt: real)
    requires s0.q == ONE && e0.Measured? && e1.Measured? && e1.qNorm == 0.0
    requires Handles(s0, e0, dt, s1) && Handles(s1, e1, dt, s2)
    ensures Vanishes([s0, s1, s2], [e0, e1], s0.errorGain, dt)
  {
    hide Handles;
    assert [e0, e1][1].qNorm == 0.0;
  }

  lemma VanishingRun(errorGain: real, dt: real, t: real) returns (states: seq<FilterState>, events: seq<Event>)
    requires Pull(errorGain, dt) >= 1.0 && IsRoot(t, Square(Times(dt, errorGain)) - 1.0)
    ensures Vanishes(states, events, errorGain, dt)
  {
    hide *;
    PeriodIsNotZero(errorGain, dt);
    var s0, s1 := FilterState(ONE, errorGain), FilterState(Tilted(0.6, 0.8), errorGain);
    var first, second := Tilt(errorGain, dt), Cancelling(errorGain, dt, t);
    TiltIsHandled(errorGain, dt);
    CancellingVanishes(errorGain, dt, t, s1);
    TwoSamplesVanish(s0, first, s1, second, s1, dt);
    states, events := [s0, s1, s1], [first, second];
  }

  lemma PeriodIsNotZero(errorGain: real, dt: real)
    requires Pull(errorGain, dt) >= 1.0
    ensures dt != 0.0
  {
  }

  lemma ModerateNeverVanishes(states: seq<FilterState>, events: seq<Event>, errorGain: real, dt: real)
    requires Pull(errorGain, dt) < 1.0
    ensures !Vanishes(states, events, errorGain, dt)
  {
    hide Handles, Pull, Healthy;
    if Vanishes(states, events, errorGain, dt) {
      AttitudeStaysUnit(states, events, dt, |events|);
      assert false;
    }
  }

  /** Where the second `quaternion_norm` can divide by zero: some run of samples from the start makes the step vanish if and
      only if the gain moves the attitude by at least a whole unit per period, in either direction. */
  lemma VanishesIff(errorGain: real, dt: real, t: real)
    requires Pull(errorGain, dt) >= 1.0 ==> IsRoot(t, Square(Times(dt, errorGain)) - 1.0)
    ensures (exists states, events :: Vanishes(states, events, errorGain, dt)) <==> Pull(errorGain, dt) >= 1.0
  {
    hide Vanishes, Pull, IsRoot, Times;
    if Pull(errorGain, dt) >= 1.0 {
      var states, events := VanishingRun(errorGain, dt, t);
    } else {
      forall states, events
        ensures !Vanishes(states, events, errorGain, dt)
      {
        ModerateNeverVanishes(states, events, errorGain, dt);
      }
    }
  }

  function Size2(v: Vec): real {
    v.x*v.x + v.y*v.y + v.z*v.z
  }

  function Inner(a: Vec, b: Vec): real {
    a.x*b.x + a.y*b.y + a.z*b.z
  }

  /** The derivative of the objective at `q` in direction `d`. */
  function Linear(q: Quat, d: Quat): Vec {
    Vec(2.0*(q.q2*d.q4 + d.q2*q.q4 - q.q1*d.q3 - d.q1*q.q3),
        2.0*(q.q1*d.q2 + d.q1*q.q2 + q.q3*d.q4 + d.q3*q.q4),
        -4.0*(q.q2*d.q2 + q.q3*d.q3))
  }

  /** The second-order part of the objective in direction `d`. */
  function Curvature(d: Quat): Vec {
    Vec(2.0*(d.q2*d.q4 - d.q1*d.q3), 2.0*(d.q1*d.q2 + d.q3*d.q4), -2.0*(d.q2*d.q2 + d.q3*d.q3))
  }

  /** `f + eps * l + eps^2 * c`. */
  function Moved(f: real, l: real, c: real, eps: real): real {
    f + eps*l + eps*eps*c
  }

  function MovedVec(f: Vec, l: Vec, c: Vec, eps: real): Vec {
    Vec(Moved(f.x, l.x, c.x, eps), Moved(f.y, l.y, c.y, eps), Moved(f.z, l.z, c.z, eps))
  }

  function Remainder(f: Vec, l: Vec, c: Vec, eps: real): real {
    Size2(l) + 2.0*Inner(f, c) + 2.0*(eps*Inner(l, c)) + eps*eps*Size2(c)
  }

  /** Minimising the objective: `Jgfg` is exactly the gradient of half the squared objective, so that moving by
      `eps * d` changes the squared objective by `2 eps <Jgfg, d>` and a remainder with the factor `eps^2`. */
  lemma GradientOfObjective(q: Quat, d: Quat, accel: Vec, eps: real)
    ensures Size2(Objective(Add(q, Scale(d, eps)), accel)) ==
      Size2(Objective(q, accel)) + 2.0*(eps*Dot(RawGradient(q, accel), d))
      + eps*eps*Remainder(Objective(q, accel), Linear(q, d), Curvature(d), eps)
  {
    hide *;
    ObjectiveMoves(q, d, accel, eps);
    SquaresMove(Objective(q, accel), Linear(q, d), Curvature(d), eps);
    LinearIsGradient(q, d, accel);
  }

  lemma SquaresMove(f: Vec, l: Vec, c: Vec, eps: real)
    ensures Size2(MovedVec(f, l, c, eps)) == Size2(f) + 2.0*(eps*Inner(f, l)) + eps*eps*Remainder(f, l, c, eps)
  {
    hide Moved, Rest;
    SquareMoves(f.x, l.x, c.x, eps);
    SquareMoves(f.y, l.y, c.y, eps);
    SquareMoves(f.z, l.z, c.z, eps);
    RestsAddUp(f, l, c, eps);
    hide Remainder;
    var x, y, z := Rest(f.x, l.x, c.x, eps), Rest(f.y, l.y, c.y, eps), Rest(f.z, l.z, c.z, eps);
    Sum3(eps*eps, x, y, z);
    Sum3(eps, f.x*l.x, f.y*l.y, f.z*l.z);
  }

  function Rest(f: real, l: real, c: real, eps: real): real {
    l*l + 2.0*(f*c) + 2.0*(eps*(l*c)) + eps*eps*(c*c)
  }

  lemma RestsAddUp(f: Vec, l: Vec, c: Vec, eps: real)
    ensures Remainder(f, l, c, eps) == Rest(f.x, l.x, c.x, eps) + Rest(f.y, l.y, c.y, eps) + Rest(f.z, l.z, c.z, eps)
  {
  }

  lemma Sum3(f: real, x: real, y: real, z: real)
    ensures f*(x + y + z) == f*x + f*y + f*z
  {
  }

  lemma SquareMoves(f: real, l: real, c: real, eps: real)
    ensures Moved(f, l, c, eps)*Moved(f, l, c, eps) == f*f + 2.0*(eps*(f*l)) + eps*eps*Rest(f, l, c, eps)
  {
  }

  lemma ObjectiveMoves(q: Quat, d: Quat, accel: Vec, eps: real)
    ensures Objective(Add(q, Scale(d, eps)), accel) ==
            MovedVec(Objective(q, accel), Linear(q, d), Curvature(d), eps)
  {
    var m := Add(q, Scale(d, eps));
    ObjectiveMovesX(q, d, accel, eps, m);
    ObjectiveMovesY(q, d, accel, eps, m);
    ObjectiveMovesZ(q, d, accel, eps, m);
    hide Moved, Objective, Linear, Curvature;
  }

  lemma ObjectiveMovesX(q: Quat, d: Quat, accel: Vec, eps: real, m: Quat)
    requires m == Add(q, Scale(d, eps))
    ensures Objective(m, accel).x == Moved(Objective(q, accel).x, Linear(q, d).x, Curvature(d).x, eps)
  {
    hide Moved;
    var f, l, c := Objective(q, accel).x, Linear(q, d).x, Curvature(d).x;
    MovedDifference(q.q2, d.q2, q.q4, d.q4, q.q1, d.q1, q.q3, d.q3, accel.x, eps, m.q2, m.q4, m.q1, m.q3, f, l, c);
  }

  lemma ObjectiveMovesY(q: Quat, d: Quat, accel: Vec, eps: real, m: Quat)
    requires m == Add(q, Scale(d, eps))
    ensures Objective(m, accel).y == Moved(Objective(q, accel).y, Linear(q, d).y, Curvature(d).y, eps)
  {
    hide Moved;
    var f, l, c := Objective(q, accel).y, Linear(q, d).y, Curvature(d).y;
    MovedDifference(q.q1, d.q1, q.q2, d.q2, -q.q3, -d.q3, q.q4, d.q4, accel.y, eps, m.q1, m.q2, -m.q3, m.q4, f, l, c);
  }

  lemma ObjectiveMovesZ(q: Quat, d: Quat, accel: Vec, eps: real, m: Quat)
    requires m == Add(q, Scale(d, eps))
    ensures Objective(m, accel).z == Moved(Objective(q, accel).z, Linear(q, d).z, Curvature(d).z, eps)
  {
    hide Moved;
    var f, l, c := Objective(q, accel).z, Linear(q, d).z, Curvature(d).z;
    MovedDifference(-q.q2, -d.q2, q.q2, d.q2, q.q3, d.q3, q.q3, d.q3, accel.z - 1.0, eps,
                    -m.q2, m.q2, m.q3, m.q3, f, l, c);
  }

  lemma MovedDifference(a: real, b: real, c: real, d: real, e: real, f: real, g: real, h: real, k: real, eps: real,
                        ma: real, mc: real, me: real, mg: real, start: real, slope: real, bend: real)
    requires ma == a + b*eps && mc == c + d*eps && me == e + f*eps && mg == g + h*eps
    requires start == 2.0*(a*c - e*g) - k
    requires slope == 2.0*(a*d + b*c - e*h - f*g)
    requires bend == 2.0*(b*d - f*h)
    ensures 2.0*(ma*mc - me*mg) - k == Moved(start, slope, bend, eps)
  {
  }

  lemma LinearIsGradient(q: Quat, d: Quat, accel: Vec)
    ensures Inner(Objective(q, accel), Linear(q, d)) == Dot(RawGradient(q, accel), d)
  {
    hide Objective, Inner, Dot, Linear, Slope;
    LinearTerms(q, d, Objective(q, accel), Linear(q, d));
    GradientTerms(q, d, Objective(q, accel), RawGradient(q, accel));
  }

  /** The change of half the squared objective, term by term. */
  function Slope(q: Quat, d: Quat, f: Vec): real {
    2.0*(f.x*q.q2*d.q4 + f.x*d.q2*q.q4 - f.x*q.q1*d.q3 - f.x*d.q1*q.q3)
    + 2.0*(f.y*q.q1*d.q2 + f.y*d.q1*q.q2 + f.y*q.q3*d.q4 + f.y*d.q3*q.q4)
    - 4.0*(f.z*q.q2*d.q2 + f.z*q.q3*d.q3)
  }

  lemma LinearTerms(q: Quat, d: Quat, f: Vec, l: Vec)
    requires l == Linear(q, d)
    ensures Inner(f, l) == Slope(q, d, f)
  {
  }

  lemma GradientTerms(q: Quat, d: Quat, f: Vec, r: Quat)
    requires r == Quat(2.0*(-f.x*q.q3 + f.y*q.q2), 2.0*(f.x*q.q4 + f.y*q.q1 - 2.0*f.z*q.q2),
                       2.0*(-f.x*q.q1 + f.y*q.q4 - 2.0*f.z*q.q3), 2.0*(f.x*q.q2 + f.y*q.q3))
    ensures Dot(r, d) == Slope(q, d, f)
  {
  }

  /** The direction predicted for gravity is the image of the vertical axis under the rotation of a unit `q`:
      the objective compares it with the measured one. */
  lemma ObjectiveIsRotatedVertical(q: Quat, accel: Vec)
    requires Norm2(q) == 1.0
    ensures var g := Mult(Mult(Conj(q), Pure(Vec(0.0, 0.0, 1.0))), q);
      g.q1 == 0.0 && Objective(q, accel) == Vec(g.q2 - accel.x, g.q3 - accel.y, g.q4 - accel.z)
  {
  }

  /** Where the first `quaternion_norm` divides by zero: exactly when the measured direction is the predicted one, or
      when the estimate is level and the measured direction, of whatever length and sign, has no horizontal part. The
      estimate is level right after `angle_init`. */
  lemma GradientVanishesIff(q: Quat, accel: Vec, gradNorm: real)
    requires Norm2(q) == 1.0 && IsRoot(gradNorm, Norm2(RawGradient(q, accel)))
    ensures gradNorm == 0.0 <==> Objective(q, accel) == NOWHERE || (Level(q) && Vertical(accel))
  {
    var g, f := RawGradient(q, accel), Objective(q, accel);
    LengthIsPositive(g);
    assert gradNorm == 0.0 <==> Norm2(g) == 0.0;
    assert Norm2(g) == 0.0 ==> g == Quat(0.0, 0.0, 0.0, 0.0);
    if g == Quat(0.0, 0.0, 0.0, 0.0) {
      GradientForcesObjective(q, f);
    }
  }

  const NOWHERE := Vec(0.0, 0.0, 0.0)

  predicate Level(q: Quat) {
    q.q2 == 0.0 && q.q3 == 0.0
  }

  predicate Vertical(v: Vec) {
    v.x == 0.0 && v.y == 0.0
  }

  lemma GradientForcesObjective(q: Quat, f: Vec)
    requires Norm2(q) == 1.0
    requires -f.x*q.q3 + f.y*q.q2 == 0.0 && f.x*q.q2 + f.y*q.q3 == 0.0
    requires f.x*q.q4 + f.y*q.q1 - 2.0*f.z*q.q2 == 0.0 && -f.x*q.q1 + f.y*q.q4 - 2.0*f.z*q.q3 == 0.0
    ensures Vertical(f) && (f == NOWHERE || Level(q))
  {
  }
}
