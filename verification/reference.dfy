/** What the learned quantities mean.  The front end updates `ideal_AP[k]` and `BCL` with
    a running average; this module records, next to a run, the samples each learned cycle
    logged, and proves that at every tick `ideal_AP[k]` is the mean of the logged cycles'
    samples at offset `k` (for offsets every one of those cycles reached) and `BCL` is the
    mean of the completed cycles' lengths. */
module Reference {
  import opened Common
  import opened Learning

  /** Every one of the first `n` cycles reached offset `k`. */
  predicate Reaches(hist: seq<seq<real>>, n: nat, k: nat)
  {
    n <= |hist| && forall i :: 0 <= i < n ==> k < |hist[i]|
  }

  /** Sum over the first `n` cycles of their sample at offset `k`. */
  function ColSum(hist: seq<seq<real>>, n: nat, k: nat): real
    requires Reaches(hist, n, k)
  {
    if n == 0 then 0.0 else ColSum(hist, n - 1, k) + hist[n - 1][k]
  }

  /** Sum of the lengths of the first `n` cycles. */
  function LenSum(hist: seq<seq<real>>, n: nat): real
    requires n <= |hist|
  {
    if n == 0 then 0.0 else LenSum(hist, n - 1) + |hist[n - 1]| as real
  }

  /** How many cycles have been averaged into the reference at offset `k`: the cycle being
      learned counts once it has logged offset `k`. */
  function Weight(l: Learner, c: LearnConfig, k: nat): nat
    requires l.aps >= 0
  {
    if Logging(l, c) && k < l.count2 then l.aps + 1 else l.aps
  }

  /** `hist` holds the samples logged in each learned cycle so far: one entry per learned
      upstroke while learning (the last one growing), `lognum` entries once it is over.
      The reference and `BCL` are the means of those samples and lengths. */
  ghost predicate Tracks(l: Learner, c: LearnConfig, hist: seq<seq<real>>)
  {
    && (l.aps == -1 ==> hist == [])
    && (0 <= l.aps < c.lognum ==> |hist| == l.aps + 1 && |hist[l.aps]| == l.count2)
    && (0 <= l.aps && c.lognum <= l.aps ==> |hist| == l.aps)
    && (0 <= l.aps ==>
          && (l.aps == 0 ==> l.bcl == 0.0)
          && l.bcl * l.aps as real == LenSum(hist, l.aps)
          && forall k: nat :: k < |l.idealAP| ==> MeanAt(l, c, hist, k))
  }

  /** At offset `k` the reference times its weight is the sum of the cycles' samples, when
      every cycle weighed in reached that offset. */
  ghost predicate MeanAt(l: Learner, c: LearnConfig, hist: seq<seq<real>>, k: nat)
    requires l.aps >= 0 && k < |l.idealAP|
  {
    var w := Weight(l, c, k);
    Reaches(hist, w, k) ==> l.idealAP[k] * w as real == ColSum(hist, w, k)
  }

  /** The per-cycle samples after a tick whose learning upstroke test gave `up`: the
      upstroke opens a new cycle while fewer than `lognum` cycles are complete, and a logged
      sample joins the last cycle. */
  ghost function Appended(l: Learner, c: LearnConfig, hist: seq<seq<real>>, up: bool, vm: real): seq<seq<real>>
  {
    var h1 := if up && l.aps + 1 < c.lognum then hist + [[]] else hist;
    var aps1 := if up then l.aps + 1 else l.aps;
    if 0 <= aps1 < c.lognum && |h1| > 0 then h1[|h1| - 1 := h1[|h1| - 1] + [vm]] else h1
  }

  /** The per-cycle samples after the tick `t`. */
  ghost function Logged(l: Learner, c: LearnConfig, hist: seq<seq<real>>, t: Tick): seq<seq<real>>
    requires c.Valid() && l.Valid(c)
  {
    Appended(l, c, hist, LearnUpstroke(l, c, t.vm, Rise(l, c, t.vm, t.stray.vmLog)), t.vm)
  }

  /** The samples each learned cycle logged over a run. */
  ghost function History(l: Learner, c: LearnConfig, hist: seq<seq<real>>, ticks: seq<Tick>): seq<seq<real>>
    requires c.Valid() && l.Valid(c) && RunDefined(l, c, ticks)
    decreases |ticks|
  {
    if |ticks| == 0 then hist
    else History(FrontTick(l, c, ticks[0]), c, Logged(l, c, hist, ticks[0]), ticks[1..])
  }

  lemma {:induction false} ColSumFrame(h1: seq<seq<real>>, h2: seq<seq<real>>, n: nat, k: nat)
    requires Reaches(h1, n, k) && Reaches(h2, n, k)
    requires forall i :: 0 <= i < n ==> h1[i][k] == h2[i][k]
    ensures ColSum(h1, n, k) == ColSum(h2, n, k)
  {
    if n > 0 {
      ColSumFrame(h1, h2, n - 1, k);
    }
  }

  lemma {:induction false} LenSumFrame(h1: seq<seq<real>>, h2: seq<seq<real>>, n: nat)
    requires n <= |h1| && n <= |h2|
    requires forall i :: 0 <= i < n ==> |h1[i]| == |h2[i]|
    ensures LenSum(h1, n) == LenSum(h2, n)
  {
    if n > 0 {
      LenSumFrame(h1, h2, n - 1);
    }
  }

  /** Tracking depends on the counters of learning only, not on the tick count, the
      correction flag, the upstroke flag or the sample log. */
  lemma TracksFrame(l: Learner, l': Learner, c: LearnConfig, hist: seq<seq<real>>)
    requires Tracks(l, c, hist)
    requires l'.aps == l.aps && l'.count2 == l.count2 && l'.bcl == l.bcl
    requires l'.logIdealOn == l.logIdealOn && l'.idealAP == l.idealAP
    ensures Tracks(l', c, hist)
  {
    if l.aps >= 0 {
      forall k: nat | k < |l'.idealAP|
        ensures MeanAt(l', c, hist, k)
      {
        assert MeanAt(l, c, hist, k);
        assert Weight(l', c, k) == Weight(l, c, k);
      }
    }
  }

  /** After a learning upstroke the reference at offset `k` is still the mean of every
      cycle that reached it: its weight is the number of cycles learned so far. */
  lemma BeginCycleMeanAt(l: Learner, c: LearnConfig, hist: seq<seq<real>>, h: seq<seq<real>>, k: nat)
    requires l.Valid(c) && 0 <= l.aps < c.lognum && k < |l.idealAP|
    requires Tracks(l, c, hist)
    requires h == if l.aps + 1 < c.lognum then hist + [[]] else hist
    ensures MeanAt(BeginCycle(l), c, h, k)
  {
    var r := BeginCycle(l);
    var a := l.aps;
    assert |hist| == a + 1 && |hist[a]| == l.count2;
    assert Weight(r, c, k) == a + 1;
    if Reaches(h, a + 1, k) {
      assert k < |h[a]| && h[a] == hist[a];
      assert Weight(l, c, k) == a + 1;
      assert Reaches(hist, a + 1, k);
      assert MeanAt(l, c, hist, k);
      ColSumFrame(hist, h, a + 1, k);
    }
  }

  /** A learning upstroke keeps the history in step: the finished cycle joins the mean of
      cycle lengths and every offset it reached already carries its weight. */
  lemma TracksBeginCycle(l: Learner, c: LearnConfig, hist: seq<seq<real>>)
    requires l.Valid(c) && l.aps < c.lognum
    requires Tracks(l, c, hist)
    ensures var h := if l.aps + 1 < c.lognum then hist + [[]] else hist;
      Tracks(BeginCycle(l), c, h)
  {
    var r := BeginCycle(l);
    var h := if l.aps + 1 < c.lognum then hist + [[]] else hist;
    var a := l.aps;
    if a >= 0 {
      assert |hist| == a + 1 && |hist[a]| == l.count2;
      LenSumFrame(hist, h, a + 1);
      assert LenSum(h, a + 1) == LenSum(hist, a) + l.count2 as real;
      forall k: nat | k < |r.idealAP|
        ensures MeanAt(r, c, h, k)
      {
        BeginCycleMeanAt(l, c, hist, h, k);
      }
    }
  }

  /** The running-average step at the offset being logged: the new sample joins the sum. */
  lemma MeanAbsorbsSample(hist: seq<seq<real>>, h: seq<seq<real>>, a: nat, k: nat, before: real, after: real, vm: real)
    requires |hist| == a + 1 && k == |hist[a]| && h == hist[a := hist[a] + [vm]]
    requires Reaches(hist, a, k) ==> before * a as real == ColSum(hist, a, k)
    requires after * (a + 1) as real == before * a as real + vm
    ensures Reaches(h, a + 1, k) ==> after * (a + 1) as real == ColSum(h, a + 1, k)
  {
    if Reaches(h, a + 1, k) {
      forall i | 0 <= i < a
        ensures k < |hist[i]|
      {
        assert h[i] == hist[i];
      }
      ColSumFrame(hist, h, a, k);
      assert h[a][k] == vm;
    }
  }

  /** Cycles other than the last one are untouched by a sample joining the last one. */
  lemma ReachesBefore(hist: seq<seq<real>>, h: seq<seq<real>>, a: nat, n: nat, k: nat)
    requires |hist| == a + 1 && |h| == a + 1 && h[..a] == hist[..a]
    requires n <= a + 1 && (n == a + 1 ==> k < |hist[a]| && k < |h[a]| && h[a][k] == hist[a][k])
    requires Reaches(h, n, k)
    ensures Reaches(hist, n, k) && ColSum(h, n, k) == ColSum(hist, n, k)
  {
    forall i | 0 <= i < n
      ensures k < |hist[i]| && h[i][k] == hist[i][k]
    {
      if i < a {
        assert h[i] == h[..a][i] == hist[..a][i] == hist[i];
      }
    }
    ColSumFrame(hist, h, n, k);
  }

  /** After logging a sample at offset `count2`, the reference at every offset `k` is
      still the mean of the cycles weighed in there. */
  lemma LogIdealMeanAt(l: Learner, c: LearnConfig, hist: seq<seq<real>>, vm: real, k: nat)
    requires l.Valid(c) && Logging(l, c) && l.count2 < Cap && k < Cap
    requires Tracks(l, c, hist)
    ensures MeanAt(LogIdeal(l, c, vm), c, hist[l.aps := hist[l.aps] + [vm]], k)
  {
    var r := LogIdeal(l, c, vm);
    var a := l.aps;
    var h := hist[a := hist[a] + [vm]];
    assert |hist| == a + 1 && |hist[a]| == l.count2;
    assert h[..a] == hist[..a];
    assert MeanAt(l, c, hist, k);
    if k == l.count2 {
      MeanAbsorbsSample(hist, h, a, k, l.idealAP[k], r.idealAP[k], vm);
    } else {
      assert r.idealAP[k] == l.idealAP[k];
      var w := Weight(r, c, k);
      assert w == Weight(l, c, k);
      if Reaches(h, w, k) {
        ReachesBefore(hist, h, a, w, k);
      }
    }
  }

  /** Logging a sample keeps the history in step: the reference at that offset takes in one
      more cycle's sample, every other offset is untouched. */
  lemma TracksLogIdeal(l: Learner, c: LearnConfig, hist: seq<seq<real>>, vm: real)
    requires l.Valid(c)
    requires Logging(l, c) ==> l.count2 < Cap
    requires Tracks(l, c, hist)
    ensures var h := if Logging(l, c) then hist[l.aps := hist[l.aps] + [vm]] else hist;
      Tracks(LogIdeal(l, c, vm), c, h)
  {
    if Logging(l, c) {
      var r := LogIdeal(l, c, vm);
      var a := l.aps;
      var h := hist[a := hist[a] + [vm]];
      assert |hist| == a + 1;
      LenSumFrame(hist, h, a);
      forall k: nat | k < |r.idealAP|
        ensures MeanAt(r, c, h, k)
      {
        LogIdealMeanAt(l, c, hist, vm, k);
      }
    }
  }

  /** The upstroke test and the end of an upstroke keep the history in step, a new cycle
      opened when a learning upstroke starts one. */
  lemma TracksOpen(l: Learner, c: LearnConfig, hist: seq<seq<real>>, vm: real, rise: real)
    requires l.Valid(c) && Tracks(l, c, hist)
    ensures var up := LearnUpstroke(l, c, vm, rise);
            var l2 := if up then BeginCycle(l) else l;
            var l3 := if rise < 0.0 && l2.enter then l2.(enter := false) else l2;
      Tracks(l3, c, if up && l.aps + 1 < c.lognum then hist + [[]] else hist)
  {
    var up := LearnUpstroke(l, c, vm, rise);
    var h1 := if up && l.aps + 1 < c.lognum then hist + [[]] else hist;
    var l2 := if up then BeginCycle(l) else l;
    if up {
      TracksBeginCycle(l, c, hist);
    }
    var l3 := if rise < 0.0 && l2.enter then l2.(enter := false) else l2;
    TracksFrame(l2, l3, c, h1);
  }

  /** The learning lines of a tick keep the reference and `BCL` equal to the means of the
      logged cycles. */
  lemma TracksLearn(l: Learner, c: LearnConfig, hist: seq<seq<real>>, vm: real, rise: real)
    requires l.Valid(c) && (LearnUpstroke(l, c, vm, rise) || !Logging(l, c) || l.count2 < Cap)
    requires Tracks(l, c, hist)
    ensures Tracks(Learn(l, c, vm, rise), c, Appended(l, c, hist, LearnUpstroke(l, c, vm, rise), vm))
  {
    var up := LearnUpstroke(l, c, vm, rise);
    var h1 := if up && l.aps + 1 < c.lognum then hist + [[]] else hist;
    var l2 := if up then BeginCycle(l) else l;
    var l3 := if rise < 0.0 && l2.enter then l2.(enter := false) else l2;
    TracksOpen(l, c, hist, vm, rise);
    var l4 := LogIdeal(l3, c, vm);
    TracksLogIdeal(l3, c, h1, vm);
    var h2 := if Logging(l3, c) then h1[l3.aps := h1[l3.aps] + [vm]] else h1;
    assert h2 == Appended(l, c, hist, up, vm);
    var l5 := if CorrectionUpstroke(l4, c, vm, rise) then l4.(count := 0, act := true) else l4;
    TracksFrame(l4, l5, c, h2);
  }

  /** One tick of any learning variant keeps the reference and `BCL` equal to the means of
      the logged cycles. */
  lemma TracksTick(l: Learner, c: LearnConfig, hist: seq<seq<real>>, t: Tick)
    requires c.Valid() && l.Valid(c) && LogSlotOk(l, c, t.vm, t.stray.vmLog)
    requires Tracks(l, c, hist)
    ensures Tracks(FrontTick(l, c, t), c, Logged(l, c, hist, t))
  {
    var rise := Rise(l, c, t.vm, t.stray.vmLog);
    var l1 := Record(l, c, t.vm);
    TracksFrame(l, l1, c, hist);
    assert LearnUpstroke(l1, c, t.vm, rise) == LearnUpstroke(l, c, t.vm, rise);
    TracksLearn(l1, c, hist, t.vm, rise);
    var l5 := LearnStep(l, c, t.vm, t.stray.vmLog);
    TracksFrame(l5, EndTick(l5, c), c, Logged(l, c, hist, t));
  }

  /** Over a whole run the reference and `BCL` remain the means of the logged cycles. */
  lemma {:induction false} RunTracks(l: Learner, c: LearnConfig, hist: seq<seq<real>>, ticks: seq<Tick>)
    requires c.Valid() && l.Valid(c) && RunDefined(l, c, ticks)
    requires Tracks(l, c, hist)
    ensures Tracks(Run(l, c, ticks), c, History(l, c, hist, ticks))
    decreases |ticks|
  {
    if |ticks| > 0 {
      TracksTick(l, c, hist, ticks[0]);
      RunTracks(FrontTick(l, c, ticks[0]), c, Logged(l, c, hist, ticks[0]), ticks[1..]);
    }
  }

  /** Once `lognum` cycles are learned the weights are all `lognum`: `BCL` is the mean of
      the logged cycles' lengths and, at every offset all of them reached, the reference is
      the mean of their samples there. */
  lemma MeansOnceLearned(l: Learner, c: LearnConfig, h: seq<seq<real>>)
    requires l.Valid(c) && c.lognum >= 1 && l.aps == c.lognum
    requires Tracks(l, c, h)
    ensures |h| == c.lognum
    ensures l.bcl == LenSum(h, c.lognum) / c.lognum as real
    ensures forall k: nat :: k < Cap && Reaches(h, c.lognum, k) ==>
              l.idealAP[k] == ColSum(h, c.lognum, k) / c.lognum as real
  {
    DivideOut(l.bcl, c.lognum, LenSum(h, c.lognum));
    forall k: nat | k < Cap && Reaches(h, c.lognum, k)
      ensures l.idealAP[k] == ColSum(h, c.lognum, k) / c.lognum as real
    {
      assert MeanAt(l, c, h, k);
      assert Weight(l, c, k) == c.lognum;
      DivideOut(l.idealAP[k], c.lognum, ColSum(h, c.lognum, k));
    }
  }

  lemma DivideOut(x: real, n: nat, s: real)
    requires n > 0 && x * n as real == s
    ensures x == s / n as real
  {
  }

  /** From the initial state, once `lognum` cycles are learned: exactly `lognum` cycles were
      logged, `BCL` is the mean of their lengths, and at every offset all of them reached,
      `ideal_AP` is the mean of their samples there. */
  lemma ReferenceIsMeanOfLoggedCycles(c: LearnConfig, ticks: seq<Tick>)
    requires c.Valid() && c.lognum >= 1 && RunDefined(Init(), c, ticks)
    ensures var l := Run(Init(), c, ticks);
            var h := History(Init(), c, [], ticks);
      l.aps == c.lognum ==>
        && |h| == c.lognum
        && l.bcl == LenSum(h, c.lognum) / c.lognum as real
        && forall k: nat :: k < Cap && Reaches(h, c.lognum, k) ==>
             l.idealAP[k] == ColSum(h, c.lognum, k) / c.lognum as real
  {
    RunTracks(Init(), c, [], ticks);
    var l := Run(Init(), c, ticks);
    if l.aps == c.lognum {
      MeansOnceLearned(l, c, History(Init(), c, [], ticks));
    }
  }

  /** Cycles that agree at offset `k` sum there to `n` times their common sample. */
  lemma {:induction false} ColSumOfAgreeingCycles(hist: seq<seq<real>>, n: nat, k: nat, v: real)
    requires Reaches(hist, n, k)
    requires forall i :: 0 <= i < n ==> hist[i][k] == v
    ensures ColSum(hist, n, k) == n as real * v
  {
    if n > 0 {
      ColSumOfAgreeingCycles(hist, n - 1, k, v);
    }
  }

  /** Identical learned cycles are reproduced exactly: once `lognum` cycles are learned,
      if every logged cycle has sample `v` at offset `k`, the reference there is `v`. */
  lemma IdenticalCyclesAreReproduced(l: Learner, c: LearnConfig, h: seq<seq<real>>, k: nat, v: real)
    requires l.Valid(c) && c.lognum >= 1 && l.aps == c.lognum
    requires Tracks(l, c, h)
    requires k < Cap && Reaches(h, c.lognum, k)
    requires forall i :: 0 <= i < c.lognum ==> h[i][k] == v
    ensures l.idealAP[k] == v
  {
    MeansOnceLearned(l, c, h);
    ColSumOfAgreeingCycles(h, c.lognum, k, v);
  }
}
