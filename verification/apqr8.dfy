/** APqr8: the learning front end followed by a fixed-gain current output clamped to
    [0, 5] V, with the floored resistance adaptation and the `BCL_cutoff * BCL` cutoff. */
module APqr8 {
  import opened Common
  import Learning
  import Adaptation

  /** The front end's parameters, `Rm_corr_up`/`Rm_corr_down`/`noise_tresh`, `Cm` and
      `corr` (adaptation on). */
  datatype Config = Config(learn: Learning.LearnConfig, adapt: Adaptation.AdaptConfig, cm: real, corr: bool)
  {
    predicate Valid()
    {
      learn.Valid() && adapt.Valid()
    }
  }

  /** The controller: the front end, the adapted resistance `Rm`, the residual log and the
      LED drive `output(0)`. */
  datatype State = State(front: Learning.Learner, rm: real, diffLog: seq<real>, out0: real)
  {
    predicate Valid(c: Config)
    {
      && front.Valid(c.learn)
      && rm > 0.0
      && |diffLog| == Cap
      && 0.0 <= out0 <= LedMax
    }
  }

  /** `Cm * (1/Rm) * residual`, the current asked for. */
  function Current(c: Config, rm: real, e: real): real
    requires rm != 0.0
  {
    c.cm * (1.0 / rm) * e
  }

  /** The two clamps of `Iout`, in source order: below 0 becomes 0, above 5 becomes 5. */
  function Clamp(i: real): (v: real)
    ensures 0.0 <= v <= LedMax
    ensures 0.0 <= i <= LedMax ==> v == i
    ensures i < 0.0 ==> v == 0.0
    ensures i > LedMax ==> v == LedMax
  {
    var v := if i < 0.0 then 0.0 else i;
    if v > LedMax then LedMax else v
  }

  /** A zero residual asks for no current. */
  lemma ZeroResidualGivesNoOutput(c: Config, rm: real)
    requires rm != 0.0
    ensures Clamp(Current(c, rm, 0.0)) == 0.0
  {
  }

  /** The state after `initParameters` with the resistance `rm`. */
  function Init(rm: real): (s: State)
    requires rm > 0.0
    ensures s.front == Learning.Init() && s.rm == rm && s.out0 == 0.0
    ensures forall c: Config :: s.Valid(c)
  {
    State(Learning.Init(), rm, Zeros(), 0.0)
  }

  /** `update(MODIFY)` with the resistance `rm` read back from the panel: the front end
      restarts, the buffers are cleared, `act` and the output are left as they were. */
  function Modify(s: State, rm: real): (r: State)
    requires rm > 0.0
    ensures r.front == Learning.Reset(s.front) && r.rm == rm && r.diffLog == Zeros() && r.out0 == s.out0
    ensures forall c: Config :: s.Valid(c) ==> r.Valid(c)
  {
    State(Learning.Reset(s.front), rm, Zeros(), s.out0)
  }

  /** `update(PAUSE)`: output dark, correction off. */
  function Pause(s: State): (r: State)
    ensures !r.front.act && r.out0 == 0.0
    ensures r == s.(front := s.front.(act := false), out0 := 0.0)
    ensures forall c: Config :: s.Valid(c) ==> r.Valid(c)
  {
    s.(front := s.front.(act := false), out0 := 0.0)
  }

  /** Whether the tick adapts `Rm`: `corr == 1 && act == 1 && count > 1` and the residual
      above the noise threshold. */
  predicate Adapts(l1: Learning.Learner, c: Config, e: real)
  {
    c.corr && l1.act && l1.count > 1 && Adaptation.AboveNoise(c.adapt, e)
  }

  /** The tick after the front end has left `l1`: the clamped output and the residual log
      while correcting, the adaptation, the cutoff and `count++`. */
  function Back(s: State, l1: Learning.Learner, c: Config, t: Tick): (r: State)
    requires c.Valid() && s.Valid(c) && l1.Valid(c.learn) && (l1.act ==> l1.count < Cap)
    ensures r.Valid(c)
    ensures r.front == Learning.EndTick(l1, c.learn)
    ensures l1.act ==> r.diffLog == s.diffLog[l1.count := t.vm - l1.idealAP[l1.count]]
    ensures !l1.act ==> r.diffLog == s.diffLog
    ensures !l1.act && !Learning.PastCutoff(l1, c.learn) ==> r.out0 == s.out0
    ensures l1.act && !Learning.PastCutoff(l1, c.learn) ==>
              var i := Current(c, s.rm, t.vm - l1.idealAP[l1.count]);
              && (0.0 <= i <= LedMax ==> r.out0 == i)
              && (i < 0.0 ==> r.out0 == 0.0)
              && (i > LedMax ==> r.out0 == LedMax)
    ensures Learning.PastCutoff(l1, c.learn) ==> !r.front.act && r.out0 == 0.0
    ensures l1.act && Adapts(l1, c, t.vm - l1.idealAP[l1.count]) ==>
              r.rm == Adaptation.Adapt(s.rm, s.diffLog[l1.count - 1], t.vm - l1.idealAP[l1.count], c.adapt, true)
    ensures !(l1.act && Adapts(l1, c, t.vm - l1.idealAP[l1.count])) ==> r.rm == s.rm
  {
    var e := if l1.act then t.vm - l1.idealAP[l1.count] else 0.0;
    var out0 := if l1.act then Clamp(Current(c, s.rm, e)) else s.out0;
    var log := if l1.act then s.diffLog[l1.count := e] else s.diffLog;
    var rm := if l1.act && Adapts(l1, c, e) then Adaptation.Adapt(s.rm, log[l1.count - 1], log[l1.count], c.adapt, true) else s.rm;
    var out0' := if Learning.PastCutoff(l1, c.learn) then 0.0 else out0;
    State(Learning.EndTick(l1, c.learn), rm, log, out0')
  }

  /** One call of `execute`: the shared front end, then the clamped output stage.  The
      resistance moves by at most one factor per tick. */
  function Step(s: State, c: Config, t: Tick): (r: State)
    requires c.Valid() && s.Valid(c) && Learning.TickOk(s.front, c.learn, t)
    ensures r.Valid(c)
    ensures r.front == Learning.FrontTick(s.front, c.learn, t)
    ensures r.rm == s.rm || r.rm == s.rm * c.adapt.up || r.rm == s.rm / c.adapt.down
  {
    Back(s, Learning.LearnStep(s.front, c.learn, t.vm, t.stray.vmLog), c, t)
  }
}
