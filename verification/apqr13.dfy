/** APqr13: the learning front end followed by two light channels.  A negative residual
    below `blue_Vrev` drives the blue channel (`output(0)`), a positive residual the red
    channel (`output(1)`), each through its own adapted resistance and clipped at
    `VLED_max`.  Each resistance adapts only while its channel was lit on the tick before. */
module APqr13 {
  import opened Common
  import Learning
  import Adaptation

  /** The front end's parameters, the adaptation's, `corr_start`, `blue_Vrev` and
      `VLED_max`. */
  datatype Config = Config(
    learn: Learning.LearnConfig,
    adapt: Adaptation.AdaptConfig,
    corrStart: real,
    blueVrev: real,
    vledMax: real)
  {
    predicate Valid()
    {
      learn.Valid() && adapt.Valid() && vledMax >= 0.0
    }
  }

  /** The controller: the front end, the two resistances, the channel flags `blue` and
      `red`, the residual log and the two outputs. */
  datatype State = State(
    front: Learning.Learner,
    rmBlue: real,
    rmRed: real,
    blue: bool,
    red: bool,
    diffLog: seq<real>,
    out0: real,
    out1: real)
  {
    /** The learning invariants, positive resistances, at most one channel flagged and at
        most one lit, and both outputs within [0, `VLED_max`]. */
    predicate Valid(c: Config)
    {
      && front.Valid(c.learn)
      && rmBlue > 0.0 && rmRed > 0.0
      && |diffLog| == Cap
      && !(blue && red)
      && (out0 == 0.0 || out1 == 0.0)
      && 0.0 <= out0 <= c.vledMax
      && 0.0 <= out1 <= c.vledMax
    }
  }

  function Init(rmBlue: real, rmRed: real): (s: State)
    requires rmBlue > 0.0 && rmRed > 0.0
    ensures s.front == Learning.Init() && !s.blue && !s.red && s.out0 == 0.0 && s.out1 == 0.0
    ensures forall c: Config :: c.Valid() ==> s.Valid(c)
  {
    State(Learning.Init(), rmBlue, rmRed, false, false, Zeros(), 0.0, 0.0)
  }

  /** `update(MODIFY)` with the resistances read back from the panel: the front end
      restarts and the buffers are cleared; `act`, the flags and the outputs are left. */
  function Modify(s: State, rmBlue: real, rmRed: real): (r: State)
    requires rmBlue > 0.0 && rmRed > 0.0
    ensures r.front == Learning.Reset(s.front) && r.rmBlue == rmBlue && r.rmRed == rmRed
    ensures r.diffLog == Zeros()
    ensures r.blue == s.blue && r.red == s.red && r.out0 == s.out0 && r.out1 == s.out1
    ensures forall c: Config :: s.Valid(c) ==> r.Valid(c)
  {
    s.(front := Learning.Reset(s.front), rmBlue := rmBlue, rmRed := rmRed, diffLog := Zeros())
  }

  /** `update(PAUSE)`: both outputs dark, correction off. */
  function Pause(s: State): (r: State)
    ensures !r.front.act && r.out0 == 0.0 && r.out1 == 0.0
    ensures r == s.(front := s.front.(act := false), out0 := 0.0, out1 := 0.0)
    ensures forall c: Config :: s.Valid(c) ==> r.Valid(c)
  {
    s.(front := s.front.(act := false), out0 := 0.0, out1 := 0.0)
  }

  /** Both outputs dark and both flags cleared. */
  function Dark(s: State): (r: State)
    ensures r == s.(blue := false, red := false, out0 := 0.0, out1 := 0.0)
  {
    s.(blue := false, red := false, out0 := 0.0, out1 := 0.0)
  }

  /** The correction offset has reached `corr_start - 1`. */
  predicate Started(l1: Learning.Learner, c: Config)
  {
    l1.count as real >= c.corrStart - 1.0
  }

  /** One channel's resistance after the tick: adapted (with the floor) only when the tick
      has started correcting, the residual is above the noise, and the channel was lit. */
  function AdaptChannel(rm: real, lit: bool, l1: Learning.Learner, c: Config, prev: real, e: real): (r: real)
    requires c.Valid() && rm > 0.0
    ensures r > 0.0
    ensures Started(l1, c) && Adaptation.AboveNoise(c.adapt, e) && lit ==>
              r == Adaptation.Adapt(rm, prev, e, c.adapt, true)
    ensures !(Started(l1, c) && Adaptation.AboveNoise(c.adapt, e) && lit) ==> r == rm
  {
    if Started(l1, c) && Adaptation.AboveNoise(c.adapt, e) && lit then
      Adaptation.Adapt(rm, prev, e, c.adapt, true)
    else
      rm
  }

  /** The channel selection of a correcting tick for residual `e`, with the resistances
      already adapted. */
  function Select(s: State, c: Config, vm: real, e: real): (r: State)
    requires c.Valid() && s.rmBlue > 0.0 && s.rmRed > 0.0
    ensures r == s.(blue := r.blue, red := r.red, out0 := r.out0, out1 := r.out1)
    ensures e < 0.0 && vm < c.blueVrev ==>
              && r.blue && !r.red && r.out1 == 0.0
              && 0.0 <= r.out0 <= c.vledMax
              && (r.out0 == c.vledMax || r.out0 * s.rmBlue == -e)
    ensures !(e < 0.0 && vm < c.blueVrev) && e > 0.0 ==>
              && r.red && !r.blue && r.out0 == 0.0
              && 0.0 <= r.out1 <= c.vledMax
              && (r.out1 == c.vledMax || r.out1 * s.rmRed == e)
    ensures !(e < 0.0 && vm < c.blueVrev) && !(e > 0.0) ==> r == Dark(s)
  {
    if e < 0.0 && vm < c.blueVrev then
      var v := ClipAbove(-e * (1.0 / s.rmBlue), c.vledMax);
      assert -e * (1.0 / s.rmBlue) * s.rmBlue == -e;
      assert -e * (1.0 / s.rmBlue) > 0.0;
      s.(blue := true, red := false, out0 := v, out1 := 0.0)
    else if e > 0.0 then
      var v := ClipAbove(e * (1.0 / s.rmRed), c.vledMax);
      assert e * (1.0 / s.rmRed) * s.rmRed == e;
      assert e * (1.0 / s.rmRed) > 0.0;
      s.(blue := false, red := true, out0 := 0.0, out1 := v)
    else
      Dark(s)
  }

  /** The residual of a correcting tick, `Vm - ideal_AP[count]`. */
  function Residual(l1: Learning.Learner, t: Tick): real
    requires l1.count < |l1.idealAP|
  {
    t.vm - l1.idealAP[l1.count]
  }

  /** First half of a correcting tick: log the residual at `count` and adapt the resistance
      of whichever channel was lit on the previous tick, comparing with the residual at
      `count - 1` (read through `outside` at `count == 0`). */
  function Absorb(s: State, l1: Learning.Learner, c: Config, t: Tick): (r: State)
    requires c.Valid() && s.Valid(c) && l1.count < Cap && |l1.idealAP| == Cap
    ensures var e := Residual(l1, t);
      var prev := Load(s.diffLog, l1.count - 1, t.stray.diffLog);
      r == s.(front := l1, diffLog := s.diffLog[l1.count := e],
              rmBlue := AdaptChannel(s.rmBlue, s.blue, l1, c, prev, e),
              rmRed := AdaptChannel(s.rmRed, s.red, l1, c, prev, e))
    ensures r.rmBlue > 0.0 && r.rmRed > 0.0 && |r.diffLog| == Cap
  {
    var e := Residual(l1, t);
    var log := s.diffLog[l1.count := e];
    var prev := Load(log, l1.count - 1, t.stray.diffLog);
    assert prev == Load(s.diffLog, l1.count - 1, t.stray.diffLog);
    s.(front := l1, diffLog := log,
       rmBlue := AdaptChannel(s.rmBlue, s.blue, l1, c, prev, e),
       rmRed := AdaptChannel(s.rmRed, s.red, l1, c, prev, e))
  }

  /** The correcting part of the tick after the front end has left `l1`: before
      `corr_start - 1`, or without `act`, both channels go dark. */
  function Correct(s: State, l1: Learning.Learner, c: Config, t: Tick): (r: State)
    requires c.Valid() && s.Valid(c) && l1.Valid(c.learn) && (l1.act ==> l1.count < Cap)
    ensures r.Valid(c) && r.front == l1
    ensures !l1.act || !Started(l1, c) ==> !r.blue && !r.red && r.out0 == 0.0 && r.out1 == 0.0
    ensures !l1.act ==> r.diffLog == s.diffLog && r.rmBlue == s.rmBlue && r.rmRed == s.rmRed
    ensures l1.act && Started(l1, c) ==> r == Select(Absorb(s, l1, c, t), c, t.vm, Residual(l1, t))
    ensures l1.act && !Started(l1, c) ==> r == Dark(Absorb(s, l1, c, t))
    ensures !s.blue ==> r.rmBlue == s.rmBlue
    ensures !s.red ==> r.rmRed == s.rmRed
  {
    if l1.act then
      var s1 := Absorb(s, l1, c, t);
      if Started(l1, c) then Select(s1, c, t.vm, Residual(l1, t)) else Dark(s1)
    else
      Dark(s.(front := l1))
  }

  /** The tick after the front end has left `l1`: correction, then the cutoff, which darks
      `output(0)` only, then `count++`. */
  function Back(s: State, l1: Learning.Learner, c: Config, t: Tick): (r: State)
    requires c.Valid() && s.Valid(c) && l1.Valid(c.learn) && (l1.act ==> l1.count < Cap)
    ensures r.Valid(c)
    ensures r.front == Learning.EndTick(l1, c.learn)
    ensures var m := Correct(s, l1, c, t);
      && (Learning.PastCutoff(l1, c.learn) ==> !r.front.act && r == m.(front := r.front, out0 := 0.0))
      && (!Learning.PastCutoff(l1, c.learn) ==> r == m.(front := r.front))
  {
    var m := Correct(s, l1, c, t);
    var out0 := if Learning.PastCutoff(l1, c.learn) then 0.0 else m.out0;
    m.(front := Learning.EndTick(l1, c.learn), out0 := out0)
  }

  /** One call of `execute`.  Only a channel lit on the previous tick has its resistance
      adapted. */
  function Step(s: State, c: Config, t: Tick): (r: State)
    requires c.Valid() && s.Valid(c) && Learning.TickOk(s.front, c.learn, t)
    ensures r.Valid(c)
    ensures r.front == Learning.FrontTick(s.front, c.learn, t)
    ensures !s.blue ==> r.rmBlue == s.rmBlue
    ensures !s.red ==> r.rmRed == s.rmRed
  {
    Back(s, Learning.LearnStep(s.front, c.learn, t.vm, t.stray.vmLog), c, t)
  }
}
