/** The front end shared by APqr7, APqr8, APqr13 and APqrPID3: the first half of each
    variant's `execute`.  Each tick logs the sample in the ring buffer, compares it with
    the sample `delay` ticks back to find upstrokes and falling edges, learns the reference
    cycle (`ideal_AP`) and the basic cycle length (`BCL`) by running average over the first
    `lognum` cycles, and switches correction on (`act`) at the first upstroke once learning
    is over.  The end of every tick applies the `BCL_cutoff * BCL` cutoff and advances
    `count`. */
module Learning {
  import opened Common

  /** Parameters of the front end.  `delay` is `(int)(1/period)`, how many ticks back the
      edge tests look; `ring` is `(int)modulo`, the part of the sample log in use. */
  datatype LearnConfig = LearnConfig(
    slopeThresh: real,
    vCutoff: real,
    lognum: int,
    bclCutoff: real,
    delay: nat,
    ring: nat)
  {
    predicate Valid()
    {
      0 < ring <= Cap
    }
  }

  /** State of the front end.  `aps` counts learned upstrokes and is -1 before the first;
      `count2` is the offset inside the cycle being learned; `count` counts ticks and is
      the offset inside the cycle being corrected once `act` is set. */
  datatype Learner = Learner(
    count: nat,
    count2: nat,
    aps: int,
    bcl: real,
    enter: bool,
    logIdealOn: bool,
    act: bool,
    vmLog: seq<real>,
    idealAP: seq<real>)
  {
    predicate Valid(c: LearnConfig)
    {
      && |vmLog| == Cap
      && |idealAP| == Cap
      && -1 <= aps
      && (aps == -1 || aps <= c.lognum)
      && (logIdealOn <==> aps >= 0)
    }
  }

  /** The state `initParameters` and the zero-initialised arrays give. */
  function Init(): Learner
  {
    Learner(0, 0, -1, 0.0, false, false, false, Zeros(), Zeros())
  }

  /** The front-end part of `update(MODIFY)`: counters, `BCL` and the flags go back to their
      initial values and `cleanup()` zeroes the buffers; `act` is left as it was. */
  function Reset(l: Learner): (r: Learner)
    ensures r.count == 0 && r.count2 == 0 && r.aps == -1 && r.bcl == 0.0
    ensures !r.enter && !r.logIdealOn && r.act == l.act
    ensures |r.vmLog| == Cap && |r.idealAP| == Cap
    ensures forall i :: 0 <= i < Cap ==> r.vmLog[i] == 0.0 && r.idealAP[i] == 0.0
  {
    Learner(0, 0, -1, 0.0, false, false, l.act, Zeros(), Zeros())
  }

  /** `Vm_log[count % (int)modulo] = Vm`: the slot lies inside the ring, it now holds the
      sample, and nothing else of the learner changes. */
  function Record(l: Learner, c: LearnConfig, vm: real): (r: Learner)
    requires c.Valid() && |l.vmLog| == Cap
    ensures 0 <= l.count % c.ring < c.ring <= Cap
    ensures |r.vmLog| == Cap && r.vmLog[l.count % c.ring] == vm
    ensures forall i :: 0 <= i < Cap && i != l.count % c.ring ==> r.vmLog[i] == l.vmLog[i]
    ensures r == l.(vmLog := r.vmLog)
  {
    l.(vmLog := l.vmLog[l.count % c.ring := vm])
  }

  /** Index of the sample `delay` ticks back: `(count - delay) % (int)modulo` with C++'s
      truncating remainder, negative while fewer than `delay` ticks have passed. */
  function DelayedIndex(l: Learner, c: LearnConfig): int
    requires c.Valid()
  {
    CRem(l.count - c.delay, c.ring)
  }

  /** The new sample minus the sample `delay` ticks back, read after the new one is logged;
      every edge test of the tick uses this one difference. */
  function Rise(l: Learner, c: LearnConfig, vm: real, outside: int -> real): real
    requires c.Valid() && |l.vmLog| == Cap
  {
    vm - Load(Record(l, c, vm).vmLog, DelayedIndex(l, c), outside)
  }

  /** The delayed index is negative, so the read leaves the buffer, exactly when fewer than
      `delay` ticks have passed and the distance is not a multiple of the ring size. */
  lemma DelayedIndexLeavesBuffer(l: Learner, c: LearnConfig)
    requires c.Valid()
    ensures DelayedIndex(l, c) < 0 <==> l.count < c.delay && (c.delay - l.count) % c.ring != 0
    ensures 0 <= DelayedIndex(l, c) ==> DelayedIndex(l, c) < c.ring
  {
  }

  /** The running mean after one more value: `(mean * n + v) / (n + 1)`, the update of both
      `BCL` and `ideal_AP[k]`. */
  function RunningMean(mean: real, n: int, v: real): (m: real)
    requires n >= 0
    ensures m * (n + 1) as real == mean * n as real + v
  {
    (mean * n as real + v) / (n + 1) as real
  }

  /** Upstroke while learning: enough history, slope at least `slope_thresh`, fewer than
      `lognum` cycles learned, not already inside an upstroke, above `V_cutoff`. */
  predicate LearnUpstroke(l: Learner, c: LearnConfig, vm: real, rise: real)
  {
    l.count >= c.delay && rise >= c.slopeThresh && l.aps < c.lognum && !l.enter && vm > c.vCutoff
  }

  /** A new learned cycle begins: the running mean of cycle lengths takes in the cycle just
      finished (nothing before the first upstroke), logging starts at offset 0. */
  function BeginCycle(l: Learner): (r: Learner)
    requires l.aps >= -1
    ensures r.aps == l.aps + 1 && r.enter && r.logIdealOn && r.count2 == 0
    ensures l.aps == -1 ==> r.bcl == 0.0
    ensures l.aps >= 0 ==> r.bcl * (l.aps + 1) as real == l.bcl * l.aps as real + l.count2 as real
    ensures r == l.(bcl := r.bcl, logIdealOn := true, count2 := 0, enter := true, aps := r.aps)
  {
    var bcl := if l.aps == -1 then 0.0 else RunningMean(l.bcl, l.aps, l.count2 as real);
    l.(bcl := bcl, logIdealOn := true, count2 := 0, enter := true, aps := l.aps + 1)
  }

  /** Whether this tick's sample goes into the reference. */
  predicate Logging(l: Learner, c: LearnConfig)
  {
    l.aps < c.lognum && l.logIdealOn
  }

  /** Running average of the sample into `ideal_AP[count2]`, weight `aps` for the old value. */
  function LogIdeal(l: Learner, c: LearnConfig, vm: real): (r: Learner)
    requires l.Valid(c)
    requires Logging(l, c) ==> l.count2 < Cap
    ensures !Logging(l, c) ==> r == l
    ensures Logging(l, c) ==>
              && r == l.(idealAP := r.idealAP, count2 := l.count2 + 1)
              && r.idealAP == l.idealAP[l.count2 := RunningMean(l.idealAP[l.count2], l.aps, vm)]
              && r.idealAP[l.count2] * (l.aps + 1) as real == l.idealAP[l.count2] * l.aps as real + vm
  {
    if Logging(l, c) then
      var k := l.count2;
      l.(idealAP := l.idealAP[k := RunningMean(l.idealAP[k], l.aps, vm)],
         count2 := k + 1)
    else
      l
  }

  /** Upstroke once learning is over: correction is off, slope at least `slope_thresh`,
      at least `lognum` cycles learned, above `V_cutoff`. */
  predicate CorrectionUpstroke(l: Learner, c: LearnConfig, vm: real, rise: real)
  {
    !l.act && rise >= c.slopeThresh && l.aps >= c.lognum && vm > c.vCutoff
  }

  /** The `ideal_AP[count2]` write of the tick stays inside the array.  This is the only
      index of the front end that can leave its array on the high side. */
  predicate LogSlotOk(l: Learner, c: LearnConfig, vm: real, outside: int -> real)
    requires c.Valid() && l.Valid(c)
  {
    LearnUpstroke(l, c, vm, Rise(l, c, vm, outside)) || !Logging(l, c) || l.count2 < Cap
  }

  /** Lines of `execute` from the learning upstroke test to the switch into correction,
      given the tick's rise; the sample is already logged. */
  function Learn(l: Learner, c: LearnConfig, vm: real, rise: real): (r: Learner)
    requires l.Valid(c)
    requires LearnUpstroke(l, c, vm, rise) || !Logging(l, c) || l.count2 < Cap
    ensures r.Valid(c)
    ensures r.vmLog == l.vmLog
    ensures var up := LearnUpstroke(l, c, vm, rise);
      && (up ==> r.aps == l.aps + 1 && r.logIdealOn)
      && (up && l.aps == -1 ==> r.bcl == 0.0)
      && (up && l.aps >= 0 ==> r.bcl * (l.aps + 1) as real == l.bcl * l.aps as real + l.count2 as real)
      && (!up ==> r.aps == l.aps && r.logIdealOn == l.logIdealOn && r.bcl == l.bcl)
    ensures r.enter == ((LearnUpstroke(l, c, vm, rise) || l.enter) && rise >= 0.0)
    ensures var slot := if LearnUpstroke(l, c, vm, rise) then 0 else l.count2;
      && (Logging(r, c) ==>
            && slot < Cap && r.count2 == slot + 1
            && r.idealAP == l.idealAP[slot := RunningMean(l.idealAP[slot], r.aps, vm)])
      && (!Logging(r, c) ==> r.count2 == slot && r.idealAP == l.idealAP)
    ensures r.act == (l.act || (rise >= c.slopeThresh && r.aps >= c.lognum && vm > c.vCutoff))
    ensures r.count == (if !l.act && r.act then 0 else l.count)
  {
    var up := LearnUpstroke(l, c, vm, rise);
    var l2 := if up then BeginCycle(l) else l;
    var l3 := if rise < 0.0 && l2.enter then l2.(enter := false) else l2;
    assert Logging(l3, c) ==> l3.count2 == (if up then 0 else l.count2);
    var l4 := LogIdeal(l3, c, vm);
    if CorrectionUpstroke(l4, c, vm, rise) then l4.(count := 0, act := true) else l4
  }

  /** The learning half of `execute`, up to and including the switch into correction. */
  function LearnStep(l: Learner, c: LearnConfig, vm: real, outside: int -> real): (r: Learner)
    requires c.Valid() && l.Valid(c)
    requires LogSlotOk(l, c, vm, outside)
    ensures r.Valid(c)
    ensures r.vmLog == l.vmLog[l.count % c.ring := vm]
    ensures var up := LearnUpstroke(l, c, vm, Rise(l, c, vm, outside));
      && (up ==> r.aps == l.aps + 1 && r.logIdealOn)
      && (up && l.aps == -1 ==> r.bcl == 0.0)
      && (up && l.aps >= 0 ==> r.bcl * (l.aps + 1) as real == l.bcl * l.aps as real + l.count2 as real)
      && (!up ==> r.aps == l.aps && r.logIdealOn == l.logIdealOn && r.bcl == l.bcl)
    ensures r.enter == ((LearnUpstroke(l, c, vm, Rise(l, c, vm, outside)) || l.enter) && Rise(l, c, vm, outside) >= 0.0)
    ensures var slot := if LearnUpstroke(l, c, vm, Rise(l, c, vm, outside)) then 0 else l.count2;
      && (Logging(r, c) ==>
            && slot < Cap && r.count2 == slot + 1
            && r.idealAP == l.idealAP[slot := RunningMean(l.idealAP[slot], r.aps, vm)])
      && (!Logging(r, c) ==> r.count2 == slot && r.idealAP == l.idealAP)
    ensures r.act == (l.act || (Rise(l, c, vm, outside) >= c.slopeThresh && r.aps >= c.lognum && vm > c.vCutoff))
    ensures r.count == (if !l.act && r.act then 0 else l.count)
  {
    var l1 := Record(l, c, vm);
    var rise := Rise(l, c, vm, outside);
    assert LearnUpstroke(l1, c, vm, rise) == LearnUpstroke(l, c, vm, rise);
    Learn(l1, c, vm, rise)
  }

  /** Whether the corrected offset is past `BCL_cutoff * BCL`. */
  predicate PastCutoff(l: Learner, c: LearnConfig)
  {
    l.count as real > c.bclCutoff * l.bcl
  }

  /** The end of every tick: past the cutoff correction stops, then `count++`. */
  function EndTick(l: Learner, c: LearnConfig): (r: Learner)
    ensures r.count == l.count + 1
    ensures PastCutoff(l, c) ==> !r.act
    ensures !PastCutoff(l, c) ==> r.act == l.act
    ensures r == l.(count := r.count, act := r.act)
  {
    l.(act := l.act && !PastCutoff(l, c), count := l.count + 1)
  }

  /** Every array index of the tick stays in range: the learning write, and, when the tick
      corrects, `ideal_AP[count]` and `Vm_diff_log[count]`. */
  predicate TickOk(l: Learner, c: LearnConfig, t: Tick)
    requires c.Valid() && l.Valid(c)
  {
    && LogSlotOk(l, c, t.vm, t.stray.vmLog)
    && var l1 := LearnStep(l, c, t.vm, t.stray.vmLog);
       l1.act ==> l1.count < Cap
  }

  /** What one tick does to the front end in every learning variant. */
  function FrontTick(l: Learner, c: LearnConfig, t: Tick): (r: Learner)
    requires c.Valid() && l.Valid(c)
    requires LogSlotOk(l, c, t.vm, t.stray.vmLog)
    ensures r.Valid(c)
    ensures r.aps == l.aps || r.aps == l.aps + 1
    ensures r.act ==> l.act || r.aps >= c.lognum
  {
    EndTick(LearnStep(l, c, t.vm, t.stray.vmLog), c)
  }

  /** Every tick of `ticks` from `l` keeps its learning write in range. */
  predicate RunDefined(l: Learner, c: LearnConfig, ticks: seq<Tick>)
    requires c.Valid() && l.Valid(c)
    decreases |ticks|
  {
    |ticks| == 0 ||
    (LogSlotOk(l, c, ticks[0].vm, ticks[0].stray.vmLog) && RunDefined(FrontTick(l, c, ticks[0]), c, ticks[1..]))
  }

  /** The front end after the ticks `ticks`, in order. */
  function Run(l: Learner, c: LearnConfig, ticks: seq<Tick>): (r: Learner)
    requires c.Valid() && l.Valid(c) && RunDefined(l, c, ticks)
    ensures r.Valid(c)
    decreases |ticks|
  {
    if |ticks| == 0 then l else Run(FrontTick(l, c, ticks[0]), c, ticks[1..])
  }

  /** Over any run: `APs` stays within -1..`lognum` and never falls, and once correction is
      on, at least `lognum` cycles have been learned; so from `Init()` correction never
      starts before the reference is complete. */
  lemma {:induction false} RunKeepsLearningOrder(l: Learner, c: LearnConfig, ticks: seq<Tick>)
    requires c.Valid() && l.Valid(c) && RunDefined(l, c, ticks)
    requires l.act ==> l.aps >= c.lognum
    ensures var r := Run(l, c, ticks);
      && -1 <= r.aps && (r.aps == -1 || r.aps <= c.lognum)
      && l.aps <= r.aps <= l.aps + |ticks|
      && (r.act ==> r.aps >= c.lognum)
    decreases |ticks|
  {
    if |ticks| > 0 {
      var l1 := FrontTick(l, c, ticks[0]);
      RunKeepsLearningOrder(l1, c, ticks[1..]);
    }
  }

  /** From the initial state, correction never runs before `lognum` cycles are learned. */
  lemma NoCorrectionBeforeReference(c: LearnConfig, ticks: seq<Tick>)
    requires c.Valid() && Init().Valid(c) && RunDefined(Init(), c, ticks)
    ensures Run(Init(), c, ticks).act ==> Run(Init(), c, ticks).aps >= c.lognum
  {
    RunKeepsLearningOrder(Init(), c, ticks);
  }
}
