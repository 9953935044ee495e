/** APqrPID3: the learning front end followed by the PID back end, against the learned
    reference `ideal_AP[count]`, with the optional integral reset near rest and the
    `BCL_cutoff * BCL` cutoff. */
module APqrPID3 {
  import opened Common
  import Learning
  import PidCore

  /** The parameters of the front end and of the PID, and `reset_I_on`.  Both read the
      ring size from the same `modulo`. */
  datatype Config = Config(learn: Learning.LearnConfig, pid: PidCore.PidConfig, resetOn: bool)
  {
    predicate Valid()
    {
      learn.Valid() && pid.Valid() && pid.ring == learn.ring
    }
  }

  /** The controller: the front end, the PID, and the bookkeeping of the integral reset
      (`prev_idx` and `reset_I_counter`). */
  datatype State = State(front: Learning.Learner, ctl: PidCore.Pid, prevIdx: int, resetCount: nat)
  {
    /** The learning invariants of the front end, and safe outputs. */
    predicate Valid(c: Config)
    {
      front.Valid(c.learn) && ctl.Safe(0.0)
    }
  }

  /** The state after `initParameters` and the zero-initialised arrays. */
  function Init(): (s: State)
    ensures s.front == Learning.Init()
    ensures s.ctl.out0 == 0.0 && s.ctl.out1 == 0.0 && s.ctl.vled == 0.0
    ensures s.ctl.integral == 0.0 && s.ctl.pid == 0.0
    ensures forall c: Config :: s.Valid(c)
  {
    State(Learning.Init(), PidCore.Pid(0.0, 0.0, 0.0, 0.0, 0.0, Zeros()), 0, 0)
  }

  /** `update(MODIFY)`: the front end and the PID restart, the buffers are cleared; `act`,
      the outputs, `VLED` and the reset bookkeeping are left as they were. */
  function Modify(s: State): (r: State)
    ensures r.front == Learning.Reset(s.front)
    ensures r.ctl.integral == 0.0 && r.ctl.pid == 0.0 && r.ctl.diffLog == Zeros()
    ensures r.ctl.out0 == s.ctl.out0 && r.ctl.out1 == s.ctl.out1 && r.ctl.vled == s.ctl.vled
    ensures r.prevIdx == s.prevIdx && r.resetCount == s.resetCount
    ensures forall c: Config :: s.Valid(c) ==> r.Valid(c)
  {
    s.(front := Learning.Reset(s.front), ctl := PidCore.Cleared(s.ctl))
  }

  /** `update(PAUSE)`: both outputs dark and correction off. */
  function Pause(s: State): (r: State)
    ensures !r.front.act && r.ctl.out0 == 0.0 && r.ctl.out1 == 0.0
    ensures r == s.(front := s.front.(act := false), ctl := s.ctl.(out0 := 0.0, out1 := 0.0))
    ensures forall c: Config :: s.Valid(c) ==> r.Valid(c)
  {
    s.(front := s.front.(act := false), ctl := PidCore.Dark(s.ctl))
  }

  /** The membrane potential is within 0.005 mV of the reference at the cutoff offset
      `int(BCL_cutoff * BCL)`, which the model reads through `outside` when it lies beyond
      the reference buffer. */
  predicate NearRest(s: State, c: Config, vm: real, outside: int -> real)
  {
    c.resetOn && Abs(vm - Load(s.front.idealAP, Trunc(c.learn.bclCutoff * s.front.bcl), outside)) < 0.005
  }

  /** The length of the run of consecutive near-rest ticks after this one. */
  function RunLength(s: State): nat
  {
    if s.front.count - s.prevIdx == 1 then s.resetCount + 1 else 0
  }

  /** The integral reset: near rest, `prev_idx` follows `count` and the counter counts
      consecutive near-rest ticks; when it reaches `length`, `Int` and the counter go back
      to zero.  The counter therefore stays below `length`. */
  function ResetIntegral(s: State, c: Config, vm: real, outside: int -> real): (r: State)
    ensures !NearRest(s, c, vm, outside) ==> r == s
    ensures NearRest(s, c, vm, outside) ==> r.prevIdx == s.front.count && r.front == s.front
    ensures NearRest(s, c, vm, outside) && RunLength(s) == c.pid.len ==>
              r.ctl == s.ctl.(integral := 0.0) && r.resetCount == 0
    ensures NearRest(s, c, vm, outside) && RunLength(s) != c.pid.len ==>
              r.ctl == s.ctl && r.resetCount == RunLength(s)
    ensures s.resetCount < c.pid.len ==> r.resetCount < c.pid.len
  {
    if NearRest(s, c, vm, outside) then
      var run := RunLength(s);
      if run == c.pid.len then
        s.(ctl := s.ctl.(integral := 0.0), prevIdx := s.front.count, resetCount := 0)
      else
        s.(prevIdx := s.front.count, resetCount := run)
    else
      s
  }

  /** The PID part of the tick, after the front end: correct against `ideal_AP[count]`
      while `act` is on, dark otherwise. */
  function Correct(l: Learning.Learner, p: PidCore.Pid, c: Config, t: Tick): (r: PidCore.Pid)
    requires c.Valid() && |l.idealAP| == Cap && p.Safe(0.0)
    requires l.act ==> l.count < Cap
    ensures !l.act ==> r == PidCore.Dark(p)
    ensures l.act ==> r == PidCore.PidTick(p, c.pid, l.count, t.vm, l.idealAP[l.count], t.stray.diffLog)
    ensures r.Safe(0.0)
  {
    if l.act then
      PidCore.PidTickKeepsSafe(p, c.pid, l.count, t.vm, l.idealAP[l.count], t.stray.diffLog, 0.0);
      PidCore.PidTick(p, c.pid, l.count, t.vm, l.idealAP[l.count], t.stray.diffLog)
    else
      PidCore.Dark(p)
  }

  /** The tick after the front end has run and left `l1`: correction, the integral reset,
      the cutoff and `count++`.  Outputs are dark whenever correction is off at the end of
      the tick, and the cutoff always leaves them dark; while correcting before the cutoff,
      a PID value that moved by no more than `PID_tresh` (or an offset before
      `corr_start - 1`) leaves outputs and `VLED` as they were; the integral changes only
      through its gate or the reset. */
  function Back(s: State, l1: Learning.Learner, c: Config, t: Tick): (r: State)
    requires c.Valid() && s.ctl.Safe(0.0) && l1.Valid(c.learn) && (l1.act ==> l1.count < Cap)
    ensures r.front == Learning.EndTick(l1, c.learn)
    ensures r.ctl.Safe(0.0)
    ensures !r.front.act ==> r.ctl.out0 == 0.0 && r.ctl.out1 == 0.0
    ensures Learning.PastCutoff(l1, c.learn) ==> !r.front.act && r.ctl.out0 == 0.0 && r.ctl.out1 == 0.0
    ensures (l1.act && !Learning.PastCutoff(l1, c.learn) && !PidCore.Rewrites(c.pid, l1.count, s.ctl.pid, r.ctl.pid))
              ==> r.ctl.out0 == s.ctl.out0 && r.ctl.out1 == s.ctl.out1 && r.ctl.vled == s.ctl.vled
    ensures r.ctl.integral == 0.0 || r.ctl.integral == s.ctl.integral ||
            (l1.act && PidCore.IntegralGate(s.ctl, c.pid, t.vm, t.vm - l1.idealAP[l1.count]))
  {
    var p1 := Correct(l1, s.ctl, c, t);
    var s2 := ResetIntegral(State(l1, p1, s.prevIdx, s.resetCount), c, t.vm, t.stray.ideal);
    var p3 := if Learning.PastCutoff(l1, c.learn) then PidCore.Dark(s2.ctl) else s2.ctl;
    State(Learning.EndTick(l1, c.learn), p3, s2.prevIdx, s2.resetCount)
  }

  /** One call of `execute`: the shared front end, then the PID back end.  It keeps the
      learning invariants and the output safety. */
  function Step(s: State, c: Config, t: Tick): (r: State)
    requires c.Valid() && s.Valid(c) && Learning.TickOk(s.front, c.learn, t)
    ensures r.Valid(c)
    ensures r.front == Learning.FrontTick(s.front, c.learn, t)
    ensures !r.front.act ==> r.ctl.out0 == 0.0 && r.ctl.out1 == 0.0
  {
    Back(s, Learning.LearnStep(s.front, c.learn, t.vm, t.stray.vmLog), c, t)
  }
}
