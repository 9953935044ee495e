/** APqrPIDLTLP4: the PID back end against a reference read from a loaded waveform
    instead of a learned one.  There is no learning phase: any upstroke above `V_cutoff`
    while idle starts a pass over the wave.  While idle and below `V_light_on`, the blue
    channel paces at `pulse_strength`.  `idx` is the offset inside the corrected pass and
    `idx2` the position in the wave; at the end of the wave `idx2` wraps to 0, correction
    stops, both outputs go dark and, when a loop limit is set, `loop` counts the pass.
    Once `loop` reaches `nloops` (non-zero) the module only logs the sample.  `Step` reads
    the delayed sample of the entry test `1/dt` slots back around the wave; the source's
    unsigned index is kept in `DelayedIndexAsWritten` and `StepAsWritten`. */
module APqrPIDLTLP4 {
  import opened Common
  import PidCore

  /** `idx`, `idx2` and `loop` are `size_t`: arithmetic on them is modulo 2^64. */
  const SizeMod: nat := 0x1_0000_0000_0000_0000

  /** `x + 1` on a `size_t`. */
  function Inc(x: nat): (r: nat)
    requires x < SizeMod
    ensures r < SizeMod
    ensures x + 1 < SizeMod ==> r == x + 1
    ensures x + 1 == SizeMod ==> r == 0
  {
    (x + 1) % SizeMod
  }

  /** The PID parameters, the wave with its `gain` and `offset`, the pacing level
      `pulse_strength` and threshold `V_light_on`, the upstroke test (`V_cutoff`,
      `slope_thresh`, `delay = (int)(1/dt)`) and the loop limit `nloops` (0: no limit). */
  datatype Config = Config(
    pid: PidCore.PidConfig,
    wave: seq<real>,
    gain: real,
    offset: real,
    pulse: real,
    vLightOn: real,
    vCutoff: real,
    slopeThresh: real,
    delay: nat,
    nloops: nat)
  {
    predicate Valid()
    {
      pid.Valid() && |wave| < SizeMod
    }
  }

  /** The controller: `act`, the two indices, the loop count, the sample log and the PID. */
  datatype State = State(act: bool, idx: nat, idx2: nat, loop: nat, vmLog: seq<real>, ctl: PidCore.Pid)
  {
    /** Safe outputs (the blue channel may hold the pacing level), `idx2` inside the wave,
        and while correcting `idx` no further than `idx2`, so `wave[idx]` is in range. */
    predicate Valid(c: Config)
    {
      && |vmLog| == Cap
      && ctl.Safe(c.pulse)
      && idx < SizeMod && idx2 < SizeMod
      && (|c.wave| > 0 ==> idx2 < |c.wave|)
      && (act ==> idx <= idx2)
    }
  }

  function Init(): (s: State)
    ensures !s.act && s.idx == 0 && s.idx2 == 0 && s.loop == 0
    ensures s.ctl.out0 == 0.0 && s.ctl.out1 == 0.0
    ensures forall c: Config :: s.Valid(c)
  {
    State(false, 0, 0, 0, Zeros(), PidCore.Pid(0.0, 0.0, 0.0, 0.0, 0.0, Zeros()))
  }

  /** `update(MODIFY)`: both indices restart, `PID` and `Int` are zeroed and both logs
      cleared; `act`, `loop` and the outputs are left. */
  function Modify(s: State): (r: State)
    ensures r.idx == 0 && r.idx2 == 0 && r.act == s.act && r.loop == s.loop
    ensures r.vmLog == Zeros() && r.ctl == PidCore.Cleared(s.ctl)
    ensures forall c: Config :: s.Valid(c) ==> r.Valid(c)
  {
    s.(idx := 0, idx2 := 0, vmLog := Zeros(), ctl := PidCore.Cleared(s.ctl))
  }

  /** `update(PAUSE)`: outputs dark, correction off, indices and loop count back to 0. */
  function Pause(s: State): (r: State)
    ensures !r.act && r.idx == 0 && r.idx2 == 0 && r.loop == 0
    ensures r.ctl == s.ctl.(out0 := 0.0, out1 := 0.0) && r.vmLog == s.vmLog
    ensures forall c: Config :: s.Valid(c) ==> r.Valid(c)
  {
    s.(act := false, idx := 0, idx2 := 0, loop := 0, ctl := PidCore.Dark(s.ctl))
  }

  /** `idx2 % wave.size()`, the slot of `Vm_log` the tick writes. */
  function Slot(s: State, c: Config): (i: nat)
    requires |c.wave| > 0
    ensures i < |c.wave|
    ensures s.idx2 < |c.wave| ==> i == s.idx2
  {
    RemOfSmaller(s.idx2, |c.wave|);
    s.idx2 % |c.wave|
  }

  /** `Vm_log[idx2 % wave.size()] = Vm`. */
  function LogSample(s: State, c: Config, vm: real): (r: State)
    requires |c.wave| > 0 && |s.vmLog| == Cap && Slot(s, c) < Cap
    ensures r == s.(vmLog := s.vmLog[Slot(s, c) := vm])
  {
    s.(vmLog := s.vmLog[Slot(s, c) := vm])
  }

  /** The loop limit is set and reached. */
  predicate Halted(s: State, c: Config)
  {
    c.nloops != 0 && s.loop >= c.nloops
  }

  /** `a - b` on `size_t`: modulo 2^64. */
  function SizeSub(a: nat, b: nat): (r: nat)
    requires a < SizeMod
    ensures r < SizeMod
    ensures a >= b ==> r == a - b
    ensures a < b && b - a <= SizeMod ==> r == SizeMod + a - b
  {
    RemOfSmaller(a - b, SizeMod);
    RemOfSmaller(SizeMod + a - b, SizeMod);
    (a - b) % SizeMod
  }

  /** A remainder of a natural number below the modulus is the number itself. */
  lemma RemOfSmaller(x: int, m: nat)
    requires m > 0
    ensures 0 <= x < m ==> x % m == x
    ensures -(m as int) <= x < 0 ==> x % m == x + m
  {
  }

  /** `(idx2 - (int)(1/dt)) % wave.size()` as written: the subtraction is unsigned, so a
      delay longer than `idx2` wraps modulo 2^64 before the remainder is taken. */
  function DelayedIndexAsWritten(s: State, c: Config): (i: nat)
    requires |c.wave| > 0 && s.idx2 < SizeMod
    ensures i < |c.wave|
    ensures s.idx2 >= c.delay ==> i == (s.idx2 - c.delay) % |c.wave|
    ensures s.idx2 < c.delay <= s.idx2 + SizeMod ==> i == (SizeMod + s.idx2 - c.delay) % |c.wave|
  {
    SizeSub(s.idx2, c.delay) % |c.wave|
  }

  /** The slot of the wave `delay` ticks before `idx2`, counting around the wave: the
      sample logged `1/dt` ticks ago when the wave is replayed in a loop. */
  function DelayedIndex(s: State, c: Config): (i: nat)
    requires |c.wave| > 0
    ensures i < |c.wave|
    ensures (s.idx2 - c.delay - i) % |c.wave| == 0
  {
    var n := |c.wave|;
    var d := s.idx2 - c.delay;
    ModUnique(d - d % n, n, d / n, 0);
    d % n
  }

  /** Once `idx2` has reached the delay the two readings agree; before that, the unsigned
      wrap makes the source read the wrong slot: with a wave of 1000 samples and `1/dt = 1`,
      the first tick of a loop reads slot 615 (2^64 - 1 modulo 1000) instead of the last
      slot, 999. */
  lemma DelayedIndexAfterWrap(s: State, c: Config)
    requires |c.wave| > 0 && s.idx2 < SizeMod
    ensures s.idx2 >= c.delay ==> DelayedIndexAsWritten(s, c) == DelayedIndex(s, c)
    ensures |c.wave| == 1000 && c.delay == 1 && s.idx2 == 0 ==>
              DelayedIndexAsWritten(s, c) == 615 && DelayedIndex(s, c) == 999
  {
  }

  /** Idle and below `V_light_on`: pace on the blue channel. */
  function Pace(s: State, c: Config, vm: real): (r: State)
    ensures !s.act && vm < c.vLightOn ==> r == s.(ctl := s.ctl.(out0 := c.pulse, out1 := 0.0))
    ensures !(!s.act && vm < c.vLightOn) ==> r == s
    ensures s.ctl.Safe(c.pulse) ==> r.ctl.Safe(c.pulse)
  {
    if !s.act && vm < c.vLightOn then s.(ctl := s.ctl.(out0 := c.pulse, out1 := 0.0)) else s
  }

  /** The entry test: idle, a rise of at least `slope_thresh` against the delayed sample,
      and above `V_cutoff`.  No learned reference is needed. */
  predicate Entry(s: State, c: Config, vm: real, rise: real)
  {
    !s.act && rise >= c.slopeThresh && vm > c.vCutoff
  }

  /** Entry sets `idx = 0` and `act = 1`. */
  function Enter(s: State, c: Config, vm: real, rise: real): (r: State)
    ensures Entry(s, c, vm, rise) ==> r == s.(idx := 0, act := true)
    ensures !Entry(s, c, vm, rise) ==> r == s
  {
    if Entry(s, c, vm, rise) then s.(idx := 0, act := true) else s
  }

  /** The reference at offset `idx`: `wave[idx] * gain + offset`. */
  function Reference(c: Config, idx: nat): real
    requires idx < |c.wave|
  {
    c.wave[idx] * c.gain + c.offset
  }

  /** While correcting, one PID tick at offset `idx` against the wave reference; the logged
      residual is `Vm` minus that reference. */
  function Correct(s: State, c: Config, t: Tick): (r: State)
    requires c.Valid() && s.ctl.Safe(c.pulse)
    requires s.act ==> s.idx < |c.wave| && s.idx < Cap
    ensures s.act ==> r == s.(ctl := PidCore.PidTick(s.ctl, c.pid, s.idx, t.vm, Reference(c, s.idx), t.stray.diffLog))
    ensures s.act ==> r.ctl.diffLog[s.idx] == t.vm - (c.wave[s.idx] * c.gain + c.offset)
    ensures !s.act ==> r == s
    ensures r.ctl.Safe(c.pulse)
  {
    if s.act then
      PidCore.PidTickKeepsSafe(s.ctl, c.pid, s.idx, t.vm, Reference(c, s.idx), t.stray.diffLog, c.pulse);
      s.(ctl := PidCore.PidTick(s.ctl, c.pid, s.idx, t.vm, Reference(c, s.idx), t.stray.diffLog))
    else
      s
  }

  /** `idx++`, `idx2++`, and at the end of the wave: `idx2 = 0`, correction off, both
      outputs dark, and `++loop` when a loop limit is set. */
  function Advance(s: State, c: Config): (r: State)
    requires |c.wave| > 0 && c.Valid() && s.idx2 < |c.wave| && s.idx < SizeMod
    ensures r.idx2 < |c.wave| && r.idx == Inc(s.idx) && r.vmLog == s.vmLog
    ensures s.idx2 + 1 == |c.wave| ==>
              && r.idx2 == 0 && !r.act
              && r.ctl == PidCore.Dark(s.ctl)
              && r.loop == (if c.nloops != 0 then s.loop + 1 else s.loop)
    ensures s.idx2 + 1 < |c.wave| ==>
              r.idx2 == s.idx2 + 1 && r.act == s.act && r.ctl == s.ctl && r.loop == s.loop
    ensures s.act && s.idx <= s.idx2 && r.act ==> r.idx == s.idx + 1 && r.idx <= r.idx2
  {
    var idx := Inc(s.idx);
    var idx2 := Inc(s.idx2);
    if idx2 >= |c.wave| then
      s.(idx := idx, idx2 := 0, act := false, ctl := PidCore.Dark(s.ctl),
         loop := if c.nloops != 0 then s.loop + 1 else s.loop)
    else
      s.(idx := idx, idx2 := idx2)
  }

  /** The sample's rise against the one read at `back`, read after logging. */
  function RiseAt(s: State, c: Config, vm: real, back: nat, outside: int -> real): real
    requires |c.wave| > 0 && |s.vmLog| == Cap && Slot(s, c) < Cap
  {
    vm - Load(LogSample(s, c, vm).vmLog, back, outside)
  }

  /** The rise against the sample logged `delay` ticks back around the wave. */
  function Rise(s: State, c: Config, vm: real, outside: int -> real): real
    requires |c.wave| > 0 && |s.vmLog| == Cap && Slot(s, c) < Cap
  {
    RiseAt(s, c, vm, DelayedIndex(s, c), outside)
  }

  /** The tick before the PID, with the delayed sample read at `back`: pacing, then the
      entry test.  Neither step moves `idx` unless it restarts it at 0. */
  function FrontAt(s: State, c: Config, t: Tick, back: nat): (r: State)
    requires |c.wave| > 0 && |s.vmLog| == Cap && Slot(s, c) < Cap
    ensures r.idx2 == s.idx2 && r.loop == s.loop && r.vmLog == s.vmLog[Slot(s, c) := t.vm]
    ensures r.act ==> (s.act && r.idx == s.idx) || r.idx == 0
  {
    var rise := RiseAt(s, c, t.vm, back, t.stray.vmLog);
    Enter(Pace(LogSample(s, c, t.vm), c, t.vm), c, t.vm, rise)
  }

  function Front(s: State, c: Config, t: Tick): (r: State)
    requires |c.wave| > 0 && |s.vmLog| == Cap && Slot(s, c) < Cap
  {
    FrontAt(s, c, t, DelayedIndex(s, c))
  }

  /** Every array access of the tick stays in range: the `Vm_log` write, and the
      `Vm_diff_log[idx]` write when the tick corrects, which lies at or before `idx2`. */
  predicate TickOk(s: State, c: Config, t: Tick)
  {
    |c.wave| > 0 ==> s.idx2 < Cap
  }

  /** The tick past the empty-wave test, reading the delayed sample at `back`. */
  function StepAt(s: State, c: Config, t: Tick, back: nat): (r: State)
    requires c.Valid() && s.Valid(c) && TickOk(s, c, t) && |c.wave| > 0
    ensures r.Valid(c)
    ensures Halted(s, c) ==> r == s.(vmLog := s.vmLog[s.idx2 := t.vm])
    ensures !Halted(s, c) ==> r == Advance(Correct(FrontAt(s, c, t, back), c, t), c)
  {
    var s0 := LogSample(s, c, t.vm);
    if Halted(s0, c) then
      s0
    else
      var s1 := FrontAt(s, c, t, back);
      Advance(Correct(s1, c, t), c)
  }

  /** The corrected tick: a missing wave stops the tick before anything is touched, and the
      delayed sample is read around the wave. */
  function Step(s: State, c: Config, t: Tick): (r: State)
    requires c.Valid() && s.Valid(c) && TickOk(s, c, t)
    ensures r.Valid(c)
    ensures |c.wave| == 0 ==> r == s
    ensures |c.wave| > 0 && Halted(s, c) ==> r == s.(vmLog := s.vmLog[s.idx2 := t.vm])
    ensures |c.wave| > 0 && !Halted(s, c) ==> r == Advance(Correct(Front(s, c, t), c, t), c)
  {
    if |c.wave| == 0 then s else StepAt(s, c, t, DelayedIndex(s, c))
  }

  /** While idle below `V_light_on`, a tick that neither starts a pass nor ends the wave
      leaves the blue channel at the pacing level and the red one dark. */
  lemma PacingWhileIdle(s: State, c: Config, t: Tick)
    requires c.Valid() && s.Valid(c) && TickOk(s, c, t) && |c.wave| > 0 && !Halted(s, c)
    requires !s.act && t.vm < c.vLightOn
    requires !Entry(s, c, t.vm, Rise(s, c, t.vm, t.stray.vmLog)) && s.idx2 + 1 < |c.wave|
    ensures Step(s, c, t).ctl.out0 == c.pulse && Step(s, c, t).ctl.out1 == 0.0
    ensures !Step(s, c, t).act
  {
    var s1 := Front(s, c, t);
    assert s1.ctl.out0 == c.pulse && s1.ctl.out1 == 0.0 && !s1.act;
  }

  /** An upstroke while idle starts a pass with no learning phase: `idx` restarts, the
      tick corrects at offset 0 against `wave[0] * gain + offset`, and unless the wave
      ends on this tick the pass goes on at offset 1. */
  lemma EntryStartsPass(s: State, c: Config, t: Tick)
    requires c.Valid() && s.Valid(c) && TickOk(s, c, t) && |c.wave| > 0 && !Halted(s, c)
    requires Entry(s, c, t.vm, Rise(s, c, t.vm, t.stray.vmLog))
    ensures Step(s, c, t).ctl.diffLog[0] == t.vm - (c.wave[0] * c.gain + c.offset)
    ensures s.idx2 + 1 < |c.wave| ==> Step(s, c, t).act && Step(s, c, t).idx == 1
  {
    var s1 := Front(s, c, t);
    assert s1.act && s1.idx == 0;
    var s2 := Correct(s1, c, t);
    assert s2.ctl.diffLog[0] == t.vm - (c.wave[0] * c.gain + c.offset);
  }

  /** At the end of the wave the pass ends: `idx2` back to 0, correction off, both outputs
      dark, and the pass counted exactly when a loop limit is set. */
  lemma WrapEndsPass(s: State, c: Config, t: Tick)
    requires c.Valid() && s.Valid(c) && TickOk(s, c, t) && |c.wave| > 0 && !Halted(s, c)
    requires s.idx2 + 1 == |c.wave|
    ensures var r := Step(s, c, t);
      && r.idx2 == 0 && !r.act && r.ctl.out0 == 0.0 && r.ctl.out1 == 0.0
      && r.loop == (if c.nloops != 0 then s.loop + 1 else s.loop)
  {
    var s2 := Correct(Front(s, c, t), c, t);
    assert s2.idx2 == s.idx2 && s2.loop == s.loop;
  }

  /** The outcome of the tick as written: it completes, or it divides by zero. */
  datatype Outcome = Completed(next: State) | DividesByZero

  /** The tick as written: `idx2 % wave.size()` is evaluated for the `Vm_log` write before
      the empty-wave test, so with no wave loaded the remainder divides by zero; otherwise
      the delayed sample is read at the unsigned index, which agrees with `Step` once
      `idx2` has reached the delay. */
  function StepAsWritten(s: State, c: Config, t: Tick): (r: Outcome)
    requires c.Valid() && s.Valid(c) && TickOk(s, c, t)
    ensures |c.wave| == 0 <==> r.DividesByZero?
    ensures r.Completed? ==> r.next.Valid(c)
    ensures r.Completed? && s.idx2 >= c.delay ==> r.next == Step(s, c, t)
  {
    if |c.wave| == 0 then
      DividesByZero
    else
      DelayedIndexAfterWrap(s, c);
      Completed(StepAt(s, c, t, DelayedIndexAsWritten(s, c)))
  }
}
