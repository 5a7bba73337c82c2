/** The motors: the control tick of panda/m3/control.c, `set_motor` of panda/m3/main.c and the pulse widths of
    panda/m3/pwm.c. */
module Motors {
  import opened Basics
  import opened Frames

  const UINT16_MAX := 0xFFFF
  /** The timer counts up from here and starts over after 0xFFFFFFFF, 400 times a second. */
  const RELOAD := 0xFFFE_88FF
  /** One millisecond in ticks of the timer. */
  const MILLISECOND := 0x9600
  const THROTTLE_MAX := 40000
  const THROTTLE_MIN := 5000

  type Setting = v: int | 0 <= v <= 0xFFFF

  /** The value of the match register for a setting, in 32-bit arithmetic: the pin falls when the timer gets there. */
  function Match(val: Setting): nat {
    U32(RELOAD + MILLISECOND + U32(val * MILLISECOND) / UINT16_MAX)
  }

  /** No step of `pwm_set` wraps: the pulse lasts between one and two milliseconds, both ends are exact, in between it
      is the setting's share of a millisecond rounded down, and it always ends before the timer starts over. */
  lemma PulseIsExact(val: Setting)
    ensures 0xFFFE_88FF + 38400 <= Match(val) <= 0xFFFE_88FF + 2 * 38400 < 0xFFFF_FFFF
    ensures var share := Match(val) - 0xFFFE_88FF - 38400;
      share * 65535 <= val * 38400 < (share + 1) * 65535
    ensures Match(val) == 0xFFFE_88FF + 38400 <==> val <= 1
    ensures Match(val) == 0xFFFE_88FF + 2 * 38400 <==> val == 65535
  {
  }

  lemma LargerSettingLongerPulse(v: Setting, w: Setting)
    requires v <= w
    ensures Match(v) <= Match(w)
    ensures w >= v + 2 ==> Match(v) < Match(w)
  {
  }

  /** What an `int` holds after an addition. */
  function S32(x: int): (r: int)
    ensures -0x8000_0000 <= r < 0x8000_0000
    ensures -0x8000_0000 <= x < 0x8000_0000 ==> r == x
  {
    (x + 0x8000_0000) % 0x1_0000_0000 - 0x8000_0000
  }

  lemma S32IsCongruent(x: int) returns (q: int)
    ensures x - S32(x) == 0x1_0000_0000 * q
  {
    q := (x + 0x8000_0000) / 0x1_0000_0000;
  }

  predicate IsSafe(v: Setting) {
    v == 0 || THROTTLE_MIN <= v <= THROTTLE_MAX
  }

  /** The setting `set_motor_safe` chooses: the greatest safe one that is not above `val`, and off below zero. */
  function SafeSetting(val: int): (r: Setting)
    ensures IsSafe(r) && (r == 0 || r <= val)
    ensures forall v: Setting :: IsSafe(v) && v <= val ==> v <= r
  {
    if val < THROTTLE_MIN then 0 else Min(val, THROTTLE_MAX)
  }

  type Settings = s: seq<Setting> | |s| == 4 witness [0, 0, 0, 0]

  datatype Flight = Flight(armed: bool, throttle: Setting, motors: Settings)

  const OFF: Settings := [0, 0, 0, 0]
  /** What `init_timer` sets. */
  const POWER_ON: Settings := [UINT16_MAX, UINT16_MAX, UINT16_MAX, UINT16_MAX]

  /** One period: the outputs of the two controllers and the frame `command_process` dispatches, if any. */
  datatype Tick = Tick(pitchOut: int, rollOut: int, frame: Option<Frame>)

  /** Two payload bytes as a `uint16_t`, least significant byte first. */
  function Uint16(low: byte, high: byte): Setting {
    low as int + 256 * (high as int)
  }

  /** Splitting a 16-bit number into its low and its high byte, which is how a command carries it, and joining them. */
  lemma Uint16Joins(v: Setting)
    ensures Uint16(v % 256, v / 256) == v
  {
  }

  predicate IsArm(f: Option<Frame>) {
    f.Some? && f.value.cmd == 'a' as int
  }

  predicate IsDisarm(f: Option<Frame>) {
    f.Some? && f.value.cmd == 's' as int
  }

  predicate IsControl(f: Option<Frame>) {
    f.Some? && f.value.cmd == 'o' as int && |f.value.payload| == 14
  }

  /** A `set_motor` command that names a motor. */
  predicate IsRaw(f: Option<Frame>) {
    f.Some? && f.value.cmd == 'm' as int && |f.value.payload| == 3 && 1 <= f.value.payload[0] <= 4
  }

  function RawMotor(f: Option<Frame>): (i: nat)
    requires IsRaw(f)
    ensures i < 4
  {
    f.value.payload[0] - 1
  }

  function RawSetting(f: Option<Frame>): Setting
    requires IsRaw(f)
  {
    Uint16(f.value.payload[1], f.value.payload[2])
  }

  /** Motors 1 and 3 are on the roll axis, 2 and 4 on the pitch axis. */
  function Driven(s: Flight, pitchOut: int, rollOut: int): Settings {
    if s.armed then
      [SafeSetting(S32(s.throttle + rollOut)), SafeSetting(S32(s.throttle - pitchOut)),
       SafeSetting(S32(s.throttle - rollOut)), SafeSetting(S32(s.throttle + pitchOut))]
    else s.motors
  }

  /** A motor would have to turn faster than it may. */
  predicate ExceedsMaximum(throttle: Setting, pitchOut: int, rollOut: int) {
    || S32(throttle + rollOut) > THROTTLE_MAX || S32(throttle - pitchOut) > THROTTLE_MAX
    || S32(throttle - rollOut) > THROTTLE_MAX || S32(throttle + pitchOut) > THROTTLE_MAX
  }

  /** What the handler of a command changes. */
  function Commanded(s: Flight, f: Option<Frame>): Flight {
    if IsArm(f) then s.(armed := true)
    else if IsDisarm(f) then s.(armed := false, motors := OFF)
    else if IsControl(f) then s.(throttle := Uint16(f.value.payload[12], f.value.payload[13]))
    else if IsRaw(f) then s.(motors := s.motors[RawMotor(f) := RawSetting(f)])
    else s
  }

  /** One `control_update`: the motors are set before the command is processed. */
  function Ticked(s: Flight, t: Tick): Flight {
    Commanded(Flight(s.armed, s.throttle, Driven(s, t.pitchOut, t.rollOut)), t.frame)
  }

  class Control {
    var armed: bool
    var throttle: Setting
    const tmar: array<nat>
    ghost var motors: Settings

    ghost predicate Valid()
      reads this, tmar
    {
      tmar.Length == 4 && forall i :: 0 <= i < 4 ==> tmar[i] == Match(motors[i])
    }

    ghost function State(): Flight
      reads this
    {
      Flight(armed, throttle, motors)
    }

    /** `pwm_init` and the initial values of control.c. */
    constructor ()
      ensures Valid() && fresh(tmar)
      ensures State() == Flight(false, 0, [65535, 65535, 65535, 65535])
    {
      armed, throttle, motors := false, 0, POWER_ON;
      tmar := new nat[4];
      new;
      PwmSet(0, UINT16_MAX);
      PwmSet(1, UINT16_MAX);
      PwmSet(2, UINT16_MAX);
      PwmSet(3, UINT16_MAX);
    }

    /** `pwm_set`. */
    method PwmSet(i: nat, val: Setting)
      requires tmar.Length == 4 && i < 4
      modifies tmar, this`motors
      ensures tmar[i] == Match(val) && motors == old(motors)[i := val]
      ensures forall j :: 0 <= j < 4 && j != i ==> tmar[j] == old(tmar[j])
    {
      var scaled: nat := val;
      scaled := U32(scaled * 0x9600);
      scaled := scaled / UINT16_MAX;
      tmar[i] := U32(0xFFFE_88FF + 0x9600 + scaled);
      motors := motors[i := val];
    }

    /** `set_motor_safe`. */
    method SetMotorSafe(i: nat, val: int) returns (warnMax: bool)
      requires Valid() && i < 4
      modifies tmar, this`motors
      ensures Valid() && motors == old(motors)[i := SafeSetting(val)]
      ensures warnMax <==> val > THROTTLE_MAX
    {
      warnMax := false;
      if val < THROTTLE_MIN {
        PwmSet(i, 0);
      } else if val > THROTTLE_MAX {
        PwmSet(i, THROTTLE_MAX);
        warnMax := true;
      } else {
        PwmSet(i, val);
      }
    }

    /** The four calls of `set_motor_safe` in `control_update`. */
    method SetMotors(motor1: int, motor2: int, motor3: int, motor4: int) returns (warnMax: bool)
      requires Valid()
      modifies tmar, this`motors
      ensures Valid()
      ensures motors == [SafeSetting(motor1), SafeSetting(motor2), SafeSetting(motor3), SafeSetting(motor4)]
      ensures warnMax <==>
        motor1 > THROTTLE_MAX || motor2 > THROTTLE_MAX || motor3 > THROTTLE_MAX || motor4 > THROTTLE_MAX
    {
      var warn1 := SetMotorSafe(0, motor1);
      var warn2 := SetMotorSafe(1, motor2);
      var warn3 := SetMotorSafe(2, motor3);
      var warn4 := SetMotorSafe(3, motor4);
      warnMax := warn1 || warn2 || warn3 || warn4;
    }

    /** The first part of `control_update`, given what the controllers compute: mixing, and setting the motors of an
        armed craft. */
    method Drive(pitchOut: int, rollOut: int) returns (warnMax: bool)
      requires Valid()
      modifies tmar, this`motors
      ensures Valid() && motors == Driven(old(State()), pitchOut, rollOut)
      ensures warnMax <==> armed && ExceedsMaximum(throttle, pitchOut, rollOut)
    {
      hide S32, SafeSetting, Valid;
      var avgMotor := throttle;
      warnMax := false;
      var motor2 := S32(avgMotor - pitchOut);
      var motor4 := S32(avgMotor + pitchOut);
      var motor3 := S32(avgMotor - rollOut);
      var motor1 := S32(avgMotor + rollOut);
      if armed {
        warnMax := SetMotors(motor1, motor2, motor3, motor4);
      }
    }

    /** `control_update`, given what the controllers compute and what `command_process` dispatches. It warns when a
        motor would have been above the maximum. */
    method ControlUpdate(t: Tick) returns (warnMax: bool)
      requires Valid()
      modifies this, tmar
      ensures Valid() && State() == Ticked(old(State()), t)
      ensures warnMax <==> old(armed) && ExceedsMaximum(old(throttle), t.pitchOut, t.rollOut)
    {
      warnMax := Drive(t.pitchOut, t.rollOut);
      hide Driven, Commanded, ExceedsMaximum;
      Dispatch(t.frame);
    }

    /** The handlers of the commands that concern the motors: `arm_cmd`, `disarm_cmd`, `control_cmd`, `set_motor`. */
    method Dispatch(frame: Option<Frame>)
      requires Valid()
      modifies this, tmar
      ensures Valid()
      ensures State() == Commanded(old(State()), frame)
    {
      if frame.Some? {
        var buf, length := frame.value.payload, |frame.value.payload|;
        if frame.value.cmd == 'a' as int {
          armed := true;
        } else if frame.value.cmd == 's' as int {
          armed := false;
          var _ := SetMotorSafe(0, 0);
          var _ := SetMotorSafe(1, 0);
          var _ := SetMotorSafe(2, 0);
          var _ := SetMotorSafe(3, 0);
        } else if frame.value.cmd == 'o' as int {
          if length == 14 {
            throttle := Uint16(buf[12], buf[13]);
          }
        } else if frame.value.cmd == 'm' as int {
          if length == 3 {
            var motor := buf[0];
            var val := Uint16(buf[1], buf[2]);
            if 1 <= motor <= 4 {
              PwmSet(motor - 1, val);
            }
          }
        }
      }
    }
  }

  /** No sum of the mix leaves the range of `int`. */
  predicate NoOverflow(s: Flight, t: Tick) {
    && -0x8000_0000 <= s.throttle + t.pitchOut < 0x8000_0000 && -0x8000_0000 <= s.throttle - t.pitchOut < 0x8000_0000
    && -0x8000_0000 <= s.throttle + t.rollOut < 0x8000_0000 && -0x8000_0000 <= s.throttle - t.rollOut < 0x8000_0000
  }

  /** A tick without a command, in numbers: each of the four motors of an armed craft is off below 5000, at 40000 above
      40000, and in between at the throttle plus or minus the output of its axis; the tick warns exactly if one of them
      is above 40000. An unarmed craft does not change. */
  lemma ArmedTickInNumbers(s: Flight, t: Tick)
    requires t.frame == None && NoOverflow(s, t)
    ensures !s.armed ==> Ticked(s, t) == s
    ensures s.armed ==>
      var r, v := Ticked(s, t), s.throttle;
      && r.armed && r.throttle == v
      && r.motors[0] == (if v + t.rollOut < 5000 then 0 else if v + t.rollOut > 40000 then 40000 else v + t.rollOut)
      && r.motors[1] == (if v - t.pitchOut < 5000 then 0 else if v - t.pitchOut > 40000 then 40000 else v - t.pitchOut)
      && r.motors[2] == (if v - t.rollOut < 5000 then 0 else if v - t.rollOut > 40000 then 40000 else v - t.rollOut)
      && r.motors[3] == (if v + t.pitchOut < 5000 then 0 else if v + t.pitchOut > 40000 then 40000 else v + t.pitchOut)
    ensures ExceedsMaximum(s.throttle, t.pitchOut, t.rollOut) <==>
      || s.throttle + t.rollOut > 40000 || s.throttle - t.pitchOut > 40000
      || s.throttle - t.rollOut > 40000 || s.throttle + t.pitchOut > 40000
  {
  }

  /** What a command adds to the tick that brings it. */
  lemma CommandInNumbers(s: Flight, t: Tick, cmd: byte, buf: Payload)
    requires t.frame == Some(Frame(cmd, buf))
    ensures var quiet, r := Ticked(s, t.(frame := None)), Ticked(s, t);
      if cmd == 'a' as int then r == Flight(true, quiet.throttle, quiet.motors)
      else if cmd == 's' as int then r == Flight(false, quiet.throttle, [0, 0, 0, 0])
      else if cmd == 'o' as int && |buf| == 14 then
        r == Flight(quiet.armed, buf[12] as int + 256 * (buf[13] as int), quiet.motors)
      else if cmd == 'm' as int && |buf| == 3 && 1 <= buf[0] <= 4 then
        r == Flight(quiet.armed, quiet.throttle, quiet.motors[buf[0] - 1 := buf[1] as int + 256 * (buf[2] as int)])
      else r == quiet
  {
  }

  function After(s: Flight, ticks: seq<Tick>): Flight {
    if ticks == [] then s else Ticked(After(s, ticks[..|ticks|-1]), ticks[|ticks|-1])
  }

  const START := Flight(false, 0, POWER_ON)

  predicate AllSafe(m: Settings) {
    forall i :: 0 <= i < 4 ==> IsSafe(m[i])
  }

  /** The one way to an unsafe setting: a raw command. */
  predicate SetsUnsafely(f: Option<Frame>) {
    IsRaw(f) && !IsSafe(RawSetting(f))
  }

  /** A tick that drives the motors, because they are armed or by a disarm command, leaves safe settings exactly when it
      does not bring an unsafe raw command. */
  lemma TickIsSafeIff(s: Flight, t: Tick)
    requires s.armed || IsDisarm(t.frame) || AllSafe(s.motors)
    ensures AllSafe(Ticked(s, t).motors) <==> !SetsUnsafely(t.frame)
  {
    var m := Driven(s, t.pitchOut, t.rollOut);
    if s.armed {
      assert AllSafe(m);
    }
    if IsRaw(t.frame) {
      var i, v := RawMotor(t.frame), RawSetting(t.frame);
      assert Ticked(s, t).motors[i] == v;
      forall j | 0 <= j < 4 && AllSafe(m)
        ensures j != i ==> IsSafe(Ticked(s, t).motors[j])
      {
        assert IsSafe(m[j]);
      }
    }
  }

  /** Who decided last whether the motors are armed. */
  predicate ArmedBy(ticks: seq<Tick>) {
    if ticks == [] then false
    else
      var f := ticks[|ticks|-1].frame;
      IsArm(f) || (!IsDisarm(f) && ArmedBy(ticks[..|ticks|-1]))
  }

  lemma {:induction false} ArmedIsLastCommand(ticks: seq<Tick>)
    ensures After(START, ticks).armed <==> ArmedBy(ticks)
  {
    if ticks != [] {
      ArmedIsLastCommand(ticks[..|ticks|-1]);
    }
  }

  /** Some tick has driven the motors: an armed one, or one with a disarm command. */
  predicate HaveBeenDriven(ticks: seq<Tick>) {
    exists i :: 0 <= i < |ticks| && (ArmedBy(ticks[..i]) || IsDisarm(ticks[i].frame))
  }

  predicate HasRaw(ticks: seq<Tick>) {
    exists i :: 0 <= i < |ticks| && IsRaw(ticks[i].frame)
  }

  /** Over every run without unsafe raw commands: once the motors have been driven, each is off or between the two
      bounds. Before that all are where `init_timer` left them, which is not off, unless a raw command moved one. */
  lemma {:induction false} MotorsStaySafe(ticks: seq<Tick>)
    requires forall i :: 0 <= i < |ticks| ==> !SetsUnsafely(ticks[i].frame)
    ensures HaveBeenDriven(ticks) ==> AllSafe(After(START, ticks).motors)
    ensures !HaveBeenDriven(ticks) && !HasRaw(ticks) ==> After(START, ticks).motors == [65535, 65535, 65535, 65535]
  {
    if ticks != [] {
      var n := |ticks| - 1;
      var before, t := ticks[..n], ticks[n];
      var s := After(START, before);
      MotorsStaySafe(before);
      ArmedIsLastCommand(before);
      assert HaveBeenDriven(ticks) <==> HaveBeenDriven(before) || ArmedBy(before) || IsDisarm(t.frame) by {
        forall i | 0 <= i < n
          ensures ticks[..i] == before[..i]
        {
        }
      }
      assert HasRaw(before) || IsRaw(t.frame) ==> HasRaw(ticks);
      if HaveBeenDriven(ticks) {
        TickIsSafeIff(s, t);
      }
    }
  }

  /** Exactly when a tick moves a motor that is not armed: a disarm command switches it off, or a raw command sets it. */
  lemma UnarmedMotorMovesIff(s: Flight, t: Tick, i: nat)
    requires !s.armed && i < 4
    ensures Ticked(s, t).motors[i] != s.motors[i] <==>
      || (IsDisarm(t.frame) && s.motors[i] != 0)
      || (IsRaw(t.frame) && RawMotor(t.frame) == i && RawSetting(t.frame) != s.motors[i])
  {
  }

  /** Motors that are off and not armed stay off exactly when no raw command sets one of them to something else. */
  lemma OffStaysOffIff(s: Flight, t: Tick)
    requires !s.armed && s.motors == OFF
    ensures Ticked(s, t).motors == OFF <==> !(IsRaw(t.frame) && RawSetting(t.frame) != 0)
  {
    AllOff(Ticked(s, t).motors);
  }

  lemma AllOff(m: Settings)
    ensures m == OFF <==> m[0] == 0 && m[1] == 0 && m[2] == 0 && m[3] == 0
  {
  }

  /** The last raw setting of motor `i` in the ticks behind `from` and before `n`, 0 if there is none since the motors
      were last disarmed. */
  function RawSince(ticks: seq<Tick>, from: nat, n: nat, i: nat): Setting
    requires from < n <= |ticks| && i < 4
    decreases n
  {
    var f := ticks[n-1].frame;
    if n - 1 == from || IsDisarm(f) then 0
    else if IsRaw(f) && RawMotor(f) == i then RawSetting(f)
    else RawSince(ticks, from, n - 1, i)
  }

  /** After a disarm command at tick `from`, up to and including the tick of the next arm command, every motor has the
      last raw setting it was sent since then, and is off if there is none, whatever the controllers compute. */
  lemma {:induction false} DisarmedMotorsAreRaw(s: Flight, ticks: seq<Tick>, from: nat, n: nat)
    requires from < n <= |ticks| && IsDisarm(ticks[from].frame)
    requires forall k :: from < k < n - 1 ==> !IsArm(ticks[k].frame)
    ensures forall i: nat :: i < 4 ==> After(s, ticks[..n]).motors[i] == RawSince(ticks, from, n, i)
    ensures n - 1 == from || !IsArm(ticks[n-1].frame) ==> !After(s, ticks[..n]).armed
    decreases n
  {
    assert ticks[..n][..n-1] == ticks[..n-1];
    if n - 1 > from {
      DisarmedMotorsAreRaw(s, ticks, from, n - 1);
    }
  }

  /** No motor has been left at a raw setting other than 0. */
  predicate NoneRaised(ticks: seq<Tick>, from: nat, n: nat)
    requires from < n <= |ticks|
  {
    && RawSince(ticks, from, n, 0) == 0 && RawSince(ticks, from, n, 1) == 0
    && RawSince(ticks, from, n, 2) == 0 && RawSince(ticks, from, n, 3) == 0
  }

  /** So they are all off if and only if the last raw setting of each of them since the disarm command, if any, is 0. */
  lemma DisarmedMotorsAreOffIff(s: Flight, ticks: seq<Tick>, from: nat, n: nat)
    requires from < n <= |ticks| && IsDisarm(ticks[from].frame)
    requires forall k :: from < k < n - 1 ==> !IsArm(ticks[k].frame)
    ensures After(s, ticks[..n]).motors == OFF <==> NoneRaised(ticks, from, n)
  {
    DisarmedMotorsAreRaw(s, ticks, from, n);
    var m := After(s, ticks[..n]).motors;
    hide RawSince, After;
    AllOff(m);
  }

  /** A throttle inside the bounds, corrections that keep all motors inside them: nothing is cut off, and the
      corrections redistribute the thrust without changing its sum. */
  lemma CorrectionsKeepThrust(s: Flight, t: Tick)
    requires s.armed
    requires 5000 <= s.throttle + t.pitchOut <= 40000 && 5000 <= s.throttle - t.pitchOut <= 40000
    requires 5000 <= s.throttle + t.rollOut <= 40000 && 5000 <= s.throttle - t.rollOut <= 40000
    ensures var m := Driven(s, t.pitchOut, t.rollOut);
      var m1, m2, m3, m4 := m[0] as int, m[1] as int, m[2] as int, m[3] as int;
      m1 + m3 == 2 * (s.throttle as int) == m2 + m4 && m1 - m3 == 2 * t.rollOut && m4 - m2 == 2 * t.pitchOut
  {
    ArmedTickInNumbers(s, t.(frame := None));
  }

  /** A raw command reaches a motor although nothing is armed. */
  lemma RawCommandNeedsNoArming()
    ensures var ticks := [Tick(0, 0, Some(Frame('s' as int, []))), Tick(0, 0, Some(Frame('m' as int, [1, 255, 255])))];
      !ArmedBy(ticks) && After(START, ticks).motors[0] == UINT16_MAX
  {
  }
}
