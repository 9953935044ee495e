/** The PID back end shared by APqrPID3 and APqrPIDLTLP4.

    While correcting, each tick logs the residual `Vm - reference` at the current offset,
    adds it to the integral when the gate allows, takes the least-squares slope of the last
    `length` residuals as the derivative, and forms `PID = K_p * e + K_i * Int + K_d * slope`.
    Only when the offset has reached `corr_start - 1` and the PID value moved by more than
    `PID_tresh` since the last tick are the outputs rewritten.  A negative PID below
    `blue_Vrev` drives the blue channel, a positive one the red channel, each scaled by its
    resistance and clipped at 5 V.  Otherwise both go dark.  Otherwise the previous light
    output is kept. */
module PidCore {
  import opened Common
  import opened Regression

  /** Gains and thresholds of the PID.  `len` is `length` (`dlength` in APqrPIDLTLP4), the
      number of residuals in the slope window; `period` is the sample period in ms; `ring`
      is `(int)modulo`, the ring the window indices are reduced by. */
  datatype PidConfig = PidConfig(
    kp: real,
    ki: real,
    kd: real,
    corrStart: real,
    pidThresh: real,
    minPid: real,
    blueVrev: real,
    rmBlue: real,
    rmRed: real,
    len: nat,
    period: real,
    ring: nat)
  {
    predicate Valid()
    {
      rmBlue > 0.0 && rmRed > 0.0 && 0 < ring <= Cap
    }
  }

  /** State of the PID: the integral `Int`, the last `PID` value, the last LED drive `VLED`,
      the two outputs and the residual log `Vm_diff_log`. */
  datatype Pid = Pid(integral: real, pid: real, vled: real, out0: real, out1: real, diffLog: seq<real>)
  {
    /** At most one channel is lit; the red one and `VLED` stay in [0, 5]; the blue one
        too, unless it holds the pacing level `pace`. */
    predicate Safe(pace: real)
    {
      && |diffLog| == Cap
      && 0.0 <= vled <= LedMax
      && (out0 == 0.0 || out1 == 0.0)
      && 0.0 <= out1 <= LedMax
      && (0.0 <= out0 <= LedMax || out0 == pace)
    }
  }

  /** The state after `cleanup()` and the `PID`/`Int` resets, with the outputs given. */
  function Cleared(p: Pid): (r: Pid)
    ensures r.integral == 0.0 && r.pid == 0.0
    ensures r.diffLog == Zeros()
    ensures r.vled == p.vled && r.out0 == p.out0 && r.out1 == p.out1
  {
    p.(integral := 0.0, pid := 0.0, diffLog := Zeros())
  }

  /** Both outputs dark; the LED drive level is kept. */
  function Dark(p: Pid): (r: Pid)
    ensures r.out0 == 0.0 && r.out1 == 0.0
    ensures r == p.(out0 := 0.0, out1 := 0.0)
  {
    p.(out0 := 0.0, out1 := 0.0)
  }

  /** The gate on the integral: the LED is below its maximum, and either the cell is below
      `blue_Vrev` (blue can still depolarise) or the residual is positive (red can
      repolarise). */
  predicate IntegralGate(p: Pid, c: PidConfig, vm: real, e: real)
  {
    p.vled < LedMax && (vm < c.blueVrev || e > 0.0)
  }

  /** The hysteresis test: the offset has reached `corr_start - 1` and `PID` moved by more
      than `PID_tresh`. */
  predicate Rewrites(c: PidConfig, pos: nat, previous: real, current: real)
  {
    pos as real >= c.corrStart - 1.0 && Abs(previous - current) > c.pidThresh
  }

  datatype Channel = Blue | Red | Off

  /** The channel a PID value asks for. */
  function ChannelOf(c: PidConfig, pid: real, vm: real): Channel
  {
    if pid < 0.0 && Abs(pid) > c.minPid && vm < c.blueVrev then Blue
    else if pid > 0.0 && Abs(pid) > c.minPid then Red
    else Off
  }

  /** The positive drive `x` scaled by `1/Rm` and clipped at 5 V. */
  lemma ScaledDrive(x: real, rm: real)
    requires x > 0.0 && rm > 0.0
    ensures 0.0 < ClipAbove(x * (1.0 / rm), LedMax) <= LedMax
    ensures var v := ClipAbove(x * (1.0 / rm), LedMax); v == LedMax || v * rm == x
  {
    assert 1.0 / rm > 0.0;
    assert x * (1.0 / rm) > 0.0;
    assert x * (1.0 / rm) * rm == x;
  }

  /** The output stage once the hysteresis test passed.  The driven channel carries `VLED`,
      proportional to the PID value through the channel's resistance unless clipped at 5,
      and the other channel is dark. */
  function Drive(p: Pid, c: PidConfig, pid: real, vm: real): (r: Pid)
    requires c.Valid()
    ensures r == p.(vled := r.vled, out0 := r.out0, out1 := r.out1)
    ensures r.out0 == 0.0 || r.out1 == 0.0
    ensures ChannelOf(c, pid, vm) == Blue ==>
              && r.out1 == 0.0 && r.out0 == r.vled && 0.0 < r.vled <= LedMax
              && (r.vled == LedMax || r.vled * c.rmBlue == -pid)
    ensures ChannelOf(c, pid, vm) == Red ==>
              && r.out0 == 0.0 && r.out1 == r.vled && 0.0 < r.vled <= LedMax
              && (r.vled == LedMax || r.vled * c.rmRed == pid)
    ensures ChannelOf(c, pid, vm) == Off ==> r.out0 == 0.0 && r.out1 == 0.0 && r.vled == p.vled
  {
    match ChannelOf(c, pid, vm)
    case Blue =>
      ScaledDrive(-pid, c.rmBlue);
      var v := ClipAbove(-pid * (1.0 / c.rmBlue), LedMax);
      p.(vled := v, out0 := v, out1 := 0.0)
    case Red =>
      ScaledDrive(pid, c.rmRed);
      var v := ClipAbove(pid * (1.0 / c.rmRed), LedMax);
      p.(vled := v, out1 := v, out0 := 0.0)
    case Off =>
      Dark(p)
  }

  /** The residual window the slope is taken over: the last `len` entries of the log up to
      offset `pos`, reduced by the ring size. */
  function ResidualWindow(log: seq<real>, c: PidConfig, pos: nat, outside: int -> real): (w: seq<real>)
    requires c.Valid()
    ensures |w| == c.len
  {
    Window(log, pos, c.len, c.ring, outside)
  }

  /** First half of a correcting tick: the residual `e` is logged at offset `pos` and, when
      the gate allows, added to the integral. */
  function Absorb(p: Pid, c: PidConfig, pos: nat, vm: real, e: real): (r: Pid)
    requires |p.diffLog| == Cap && pos < Cap
    ensures r == p.(diffLog := r.diffLog, integral := r.integral)
    ensures r.diffLog == p.diffLog[pos := e]
    ensures IntegralGate(p, c, vm, e) ==> r.integral == p.integral + e
    ensures !IntegralGate(p, c, vm, e) ==> r.integral == p.integral
  {
    p.(diffLog := p.diffLog[pos := e],
       integral := if IntegralGate(p, c, vm, e) then p.integral + e else p.integral)
  }

  /** `K_p * e + K_i * Int + K_d * slope`, the slope taken over the residual window
      ending at offset `pos`. */
  function PidValue(p: Pid, c: PidConfig, pos: nat, e: real, outside: int -> real): real
    requires c.Valid()
  {
    c.kp * e + c.ki * p.integral + c.kd * Slope(ResidualWindow(p.diffLog, c, pos, outside), Times(c.period))
  }

  /** Second half: the new PID value replaces the old one, and the outputs are rewritten only
      when the hysteresis test passes. */
  function Respond(p: Pid, c: PidConfig, pos: nat, vm: real, pid: real): (r: Pid)
    requires c.Valid()
    ensures r.pid == pid && r.integral == p.integral && r.diffLog == p.diffLog
    ensures !Rewrites(c, pos, p.pid, pid) ==> r.vled == p.vled && r.out0 == p.out0 && r.out1 == p.out1
    ensures Rewrites(c, pos, p.pid, pid) ==>
              && (r.out0 == 0.0 || r.out1 == 0.0)
              && (r.out0 != 0.0 ==> ChannelOf(c, pid, vm) == Blue && r.out0 == r.vled)
              && (r.out1 != 0.0 ==> ChannelOf(c, pid, vm) == Red && r.out1 == r.vled)
              && (ChannelOf(c, pid, vm) == Off ==> r.vled == p.vled)
    ensures Rewrites(c, pos, p.pid, pid) ==> r == Drive(p.(pid := pid), c, pid, vm)
  {
    var p1 := p.(pid := pid);
    if Rewrites(c, pos, p.pid, pid) then Drive(p1, c, pid, vm) else p1
  }

  /** One correcting tick of the PID at offset `pos` against the reference value `ref`.
      `outside` gives the residual log's contents beyond its ends. */
  function PidTick(p: Pid, c: PidConfig, pos: nat, vm: real, ref: real, outside: int -> real): (r: Pid)
    requires c.Valid() && |p.diffLog| == Cap && pos < Cap
    ensures r.diffLog == p.diffLog[pos := vm - ref]
    ensures IntegralGate(p, c, vm, vm - ref) ==> r.integral == p.integral + (vm - ref)
    ensures !IntegralGate(p, c, vm, vm - ref) ==> r.integral == p.integral
    ensures !Rewrites(c, pos, p.pid, r.pid) ==> r.vled == p.vled && r.out0 == p.out0 && r.out1 == p.out1
    ensures Rewrites(c, pos, p.pid, r.pid) ==> r.out0 == 0.0 || r.out1 == 0.0
    ensures r.pid == PidValue(Absorb(p, c, pos, vm, vm - ref), c, pos, vm - ref, outside)
    ensures Rewrites(c, pos, p.pid, r.pid) ==>
              r == Drive(Absorb(p, c, pos, vm, vm - ref).(pid := r.pid), c, r.pid, vm)
  {
    var p1 := Absorb(p, c, pos, vm, vm - ref);
    Respond(p1, c, pos, vm, PidValue(p1, c, pos, vm - ref, outside))
  }

  /** A correcting tick keeps the outputs safe: the channels stay exclusive and within
      [0, 5], whatever the gains and the residuals. */
  lemma PidTickKeepsSafe(p: Pid, c: PidConfig, pos: nat, vm: real, ref: real, outside: int -> real, pace: real)
    requires c.Valid() && p.Safe(pace) && pos < Cap
    ensures PidTick(p, c, pos, vm, ref, outside).Safe(pace)
  {
  }

  /** With `K_i = K_d = 0` the controller is purely proportional: `PID = K_p * e`, and
      when the hysteresis test passes a positive value above `min_PID` lights the red
      channel at `PID / Rm_red` (clipped at 5), a negative one below `blue_Vrev` the blue
      channel at `-PID / Rm_blue`, the other channel dark. */
  lemma ProportionalDrive(p: Pid, c: PidConfig, pos: nat, vm: real, ref: real, outside: int -> real)
    requires c.Valid() && |p.diffLog| == Cap && pos < Cap && c.ki == 0.0 && c.kd == 0.0
    ensures var r := PidTick(p, c, pos, vm, ref, outside);
      && r.pid == c.kp * (vm - ref)
      && (Rewrites(c, pos, p.pid, r.pid) && r.pid > 0.0 && r.pid > c.minPid ==>
            r.out0 == 0.0 && r.out1 == r.vled && (r.vled == LedMax || r.vled * c.rmRed == r.pid))
      && (Rewrites(c, pos, p.pid, r.pid) && r.pid < 0.0 && -r.pid > c.minPid && vm < c.blueVrev ==>
            r.out1 == 0.0 && r.out0 == r.vled && (r.vled == LedMax || r.vled * c.rmBlue == -r.pid))
  {
  }

  /** Darkening keeps the outputs safe. */
  lemma DarkKeepsSafe(p: Pid, pace: real)
    requires p.Safe(pace)
    ensures Dark(p).Safe(pace)
  {
  }
}
