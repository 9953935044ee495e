/** APqr7: the learning front end followed by an unclamped fixed-gain current command,
    the reference sample on the second output, the resistance adaptation without a floor,
    and the `BCL_cutoff * BCL` cutoff. */
module APqr7 {
  import opened Common
  import Learning
  import Adaptation

  /** Scale from the current `Iout` to the command voltage, `-Iout * 2.5e-3`. */
  const VoltsPerCurrent: real := 0.0025

  datatype Config = Config(learn: Learning.LearnConfig, adapt: Adaptation.AdaptConfig, cm: real, corr: bool)
  {
    predicate Valid()
    {
      learn.Valid() && adapt.Valid()
    }
  }

  /** The controller: the front end, the adapted resistance `Rm`, the residual log, the
      command `output(0)` and the reference echo `output(1)`. */
  datatype State = State(front: Learning.Learner, rm: real, diffLog: seq<real>, out0: real, out1: real)
  {
    predicate Valid(c: Config)
    {
      front.Valid(c.learn) && rm > 0.0 && |diffLog| == Cap
    }
  }

  /** The command for residual `e`: `-(Cm * (1/Rm) * e) * 2.5e-3`. */
  function Command(c: Config, rm: real, e: real): (v: real)
    requires rm > 0.0
    ensures v * rm == -VoltsPerCurrent * c.cm * e
    ensures e == 0.0 ==> v == 0.0
  {
    var iout := c.cm * (1.0 / rm) * e;
    assert iout * rm == c.cm * e;
    -iout * VoltsPerCurrent
  }

  function Init(rm: real): (s: State)
    requires rm > 0.0
    ensures s.front == Learning.Init() && s.rm == rm && s.out0 == 0.0
    ensures forall c: Config :: s.Valid(c)
  {
    State(Learning.Init(), rm, Zeros(), 0.0, 0.0)
  }

  /** `update(MODIFY)` with the resistance `rm` read back from the panel. */
  function Modify(s: State, rm: real): (r: State)
    requires rm > 0.0
    ensures r.front == Learning.Reset(s.front) && r.rm == rm && r.diffLog == Zeros()
    ensures r.out0 == s.out0 && r.out1 == s.out1
    ensures forall c: Config :: s.Valid(c) ==> r.Valid(c)
  {
    State(Learning.Reset(s.front), rm, Zeros(), s.out0, s.out1)
  }

  /** `update(PAUSE)`: `output(0)` dark and correction off; `output(1)` is not touched. */
  function Pause(s: State): (r: State)
    ensures !r.front.act && r.out0 == 0.0 && r.out1 == s.out1
    ensures r == s.(front := s.front.(act := false), out0 := 0.0)
    ensures forall c: Config :: s.Valid(c) ==> r.Valid(c)
  {
    s.(front := s.front.(act := false), out0 := 0.0)
  }

  predicate Adapts(l1: Learning.Learner, c: Config, e: real)
  {
    c.corr && l1.act && l1.count > 1 && Adaptation.AboveNoise(c.adapt, e)
  }

  /** The tick after the front end has left `l1`. */
  function Back(s: State, l1: Learning.Learner, c: Config, t: Tick): (r: State)
    requires c.Valid() && s.Valid(c) && l1.Valid(c.learn) && (l1.act ==> l1.count < Cap)
    ensures r.Valid(c)
    ensures r.front == Learning.EndTick(l1, c.learn)
    ensures l1.act ==> r.diffLog == s.diffLog[l1.count := t.vm - l1.idealAP[l1.count]]
    ensures l1.act ==> r.out1 == l1.idealAP[l1.count]
    ensures !l1.act ==> r.diffLog == s.diffLog && r.out1 == s.out1
    ensures l1.act && !Learning.PastCutoff(l1, c.learn) ==>
              r.out0 * s.rm == -VoltsPerCurrent * c.cm * (t.vm - l1.idealAP[l1.count])
    ensures !l1.act && !Learning.PastCutoff(l1, c.learn) ==> r.out0 == s.out0
    ensures Learning.PastCutoff(l1, c.learn) ==> !r.front.act && r.out0 == 0.0
    ensures l1.act && Adapts(l1, c, t.vm - l1.idealAP[l1.count]) ==>
              r.rm == Adaptation.Adapt(s.rm, s.diffLog[l1.count - 1], t.vm - l1.idealAP[l1.count], c.adapt, false)
    ensures !(l1.act && Adapts(l1, c, t.vm - l1.idealAP[l1.count])) ==> r.rm == s.rm
  {
    var e := if l1.act then t.vm - l1.idealAP[l1.count] else 0.0;
    var out0 := if l1.act then Command(c, s.rm, e) else s.out0;
    var out1 := if l1.act then l1.idealAP[l1.count] else s.out1;
    var log := if l1.act then s.diffLog[l1.count := e] else s.diffLog;
    var rm := if l1.act && Adapts(l1, c, e) then Adaptation.Adapt(s.rm, log[l1.count - 1], log[l1.count], c.adapt, false) else s.rm;
    var out0' := if Learning.PastCutoff(l1, c.learn) then 0.0 else out0;
    State(Learning.EndTick(l1, c.learn), rm, log, out0', out1)
  }

  /** One call of `execute`.  While a pass goes on, output 1 shows the reference at the
      offset just corrected. */
  function Step(s: State, c: Config, t: Tick): (r: State)
    requires c.Valid() && s.Valid(c) && Learning.TickOk(s.front, c.learn, t)
    ensures r.Valid(c)
    ensures r.front == Learning.FrontTick(s.front, c.learn, t)
    ensures r.front.act ==> 1 <= r.front.count <= Cap && r.out1 == r.front.idealAP[r.front.count - 1]
  {
    Back(s, Learning.LearnStep(s.front, c.learn, t.vm, t.stray.vmLog), c, t)
  }
}
