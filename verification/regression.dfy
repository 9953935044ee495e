/** The least-squares slope of the residual that the PID variants use as their derivative
    term.  The four sums are written twice: as the loops the controller runs over its ring
    buffer, and as recursive reference definitions over the window of samples they visit.
    The reference sums take the sample times as a function `t` (the controller's is
    `Times(period)`, sample `j` at `j * period`); the slope of a window whose samples lie
    on a straight line in those times is that line's slope. */
module Regression {
  import opened Common

  /** What `slope` is set to when the denominator is too small to divide by. */
  const Sentinel: real := 10000.0

  /** Smallest absolute denominator the slope is computed from. */
  const MinDenominator: real := 0.001

  /** The controller's sample times: sample `j` of a window is taken at `j * period`. */
  function Times(p: real): nat -> real
  {
    j => j as real * p
  }

  /** Sum of the first `n` sample times. */
  function SumX(t: nat -> real, n: nat): real
  {
    if n == 0 then 0.0 else SumX(t, n - 1) + t(n - 1)
  }

  /** Sum of the squares of the first `n` sample times. */
  function SumX2(t: nat -> real, n: nat): real
  {
    if n == 0 then 0.0 else SumX2(t, n - 1) + t(n - 1) * t(n - 1)
  }

  /** Sum of the samples of a window. */
  function SumY(w: seq<real>): real
  {
    if |w| == 0 then 0.0 else SumY(w[..|w| - 1]) + w[|w| - 1]
  }

  /** Sum of each sample times its sample time. */
  function SumXY(w: seq<real>, t: nat -> real): real
  {
    if |w| == 0 then 0.0 else SumXY(w[..|w| - 1], t) + w[|w| - 1] * t(|w| - 1)
  }

  /** The `len` samples the sums visit, oldest first: buffer positions `n - len + 1 .. n`,
      each taken with C++'s truncating `% modulo` (so negative positions read outside the
      buffer). */
  function Window(arr: seq<real>, n: int, len: nat, ring: nat, outside: int -> real): (w: seq<real>)
    requires ring > 0
    ensures |w| == len
    ensures forall j :: 0 <= j < len ==> w[j] == Load(arr, CRem(n - len + 1 + j, ring), outside)
  {
    seq(len, j requires 0 <= j < len => Load(arr, CRem(n - len + 1 + j, ring), outside))
  }

  function Numerator(w: seq<real>, t: nat -> real): real
  {
    |w| as real * SumXY(w, t) - SumX(t, |w|) * SumY(w)
  }

  function Denominator(t: nat -> real, len: nat): real
  {
    len as real * SumX2(t, len) - SumX(t, len) * SumX(t, len)
  }

  /** The slope of the window, or the sentinel when the denominator is below the
      threshold. */
  function Slope(w: seq<real>, t: nat -> real): (s: real)
    ensures Abs(Denominator(t, |w|)) < MinDenominator ==> s == Sentinel
    ensures Abs(Denominator(t, |w|)) >= MinDenominator ==> s * Denominator(t, |w|) == Numerator(w, t)
  {
    var den := Denominator(t, |w|);
    if Abs(den) < MinDenominator then Sentinel else Numerator(w, t) / den
  }

  /** Gauss: the controller's sample times sum to `period * len * (len - 1) / 2`. */
  lemma {:induction false} SumXClosedForm(p: real, len: nat)
    ensures 2.0 * SumX(Times(p), len) == p * len as real * (len as real - 1.0)
  {
    if len > 0 {
      SumXClosedForm(p, len - 1);
      var n := (len - 1) as real;
      assert 2.0 * SumX(Times(p), len) == p * n * (n - 1.0) + 2.0 * n * p;
      assert p * n * (n - 1.0) + 2.0 * n * p == p * (n + 1.0) * n;
    }
  }

  /** Their squares sum to `period^2 * (len - 1) * len * (2 len - 1) / 6`. */
  lemma {:induction false} SumX2ClosedForm(p: real, len: nat)
    ensures 6.0 * SumX2(Times(p), len) == p * p * (len as real - 1.0) * len as real * (2.0 * len as real - 1.0)
  {
    if len > 0 {
      SumX2ClosedForm(p, len - 1);
      var n := (len - 1) as real;
      var q := p * p;
      assert (n * p) * (n * p) == q * (n * n);
      assert 6.0 * SumX2(Times(p), len) == q * (n - 1.0) * n * (2.0 * n - 1.0) + 6.0 * (q * (n * n));
      assert q * (n - 1.0) * n * (2.0 * n - 1.0) + 6.0 * (q * (n * n)) == q * n * (n + 1.0) * (2.0 * n + 1.0);
    }
  }

  /** The controller's denominator is `period^2 * len^2 * (len^2 - 1) / 12`: never
      negative, and zero exactly for windows of fewer than two samples or a zero period. */
  lemma DenominatorClosedForm(p: real, len: nat)
    ensures 12.0 * Denominator(Times(p), len) == p * p * len as real * len as real * (len as real * len as real - 1.0)
  {
    var l := len as real;
    var sx := SumX(Times(p), len);
    var sx2 := SumX2(Times(p), len);
    SumXClosedForm(p, len);
    SumX2ClosedForm(p, len);
    assert 12.0 * (l * sx2) == 2.0 * l * (6.0 * sx2);
    assert 12.0 * (sx * sx) == 3.0 * (2.0 * sx) * (2.0 * sx);
  }

  /** A window of fewer than two samples has no slope: the sentinel comes back. */
  lemma ShortWindowIsSentinel(w: seq<real>, p: real)
    requires |w| <= 1
    ensures Slope(w, Times(p)) == Sentinel
  {
    DenominatorClosedForm(p, |w|);
  }

  /** The samples of the line `a + b * t` at the sample times. */
  function Line(a: real, b: real, t: nat -> real, len: nat): (w: seq<real>)
    ensures |w| == len
    ensures forall j :: 0 <= j < len ==> w[j] == a + b * t(j)
  {
    seq(len, j requires 0 <= j < len => a + b * t(j))
  }

  /** Dropping the last sample of a line leaves the shorter line. */
  lemma LinePrefix(a: real, b: real, t: nat -> real, len: nat)
    requires len > 0
    ensures Line(a, b, t, len)[..len - 1] == Line(a, b, t, len - 1)
  {
  }

  lemma LineSumYStep(a: real, b: real, t: nat -> real, len: nat)
    requires len > 0
    requires SumY(Line(a, b, t, len - 1)) == a * (len - 1) as real + b * SumX(t, len - 1)
    ensures SumY(Line(a, b, t, len)) == a * len as real + b * SumX(t, len)
  {
    var w := Line(a, b, t, len);
    LinePrefix(a, b, t, len);
    assert w[len - 1] == a + b * t(len - 1);
    assert SumX(t, len) == SumX(t, len - 1) + t(len - 1);
  }

  lemma {:induction false} LineSumY(a: real, b: real, t: nat -> real, len: nat)
    ensures SumY(Line(a, b, t, len)) == a * len as real + b * SumX(t, len)
  {
    if len > 0 {
      LineSumY(a, b, t, len - 1);
      LineSumYStep(a, b, t, len);
    }
  }

  lemma LineStepArith(a: real, b: real, x: real, last: real, sx: real, sx2: real, acc: real, sx': real, sx2': real, s: real)
    requires acc == a * sx + b * sx2 && last == a + b * x && s == acc + last * x
    requires sx' == sx + x && sx2' == sx2 + x * x
    ensures s == a * sx' + b * sx2'
  {
  }

  lemma LineSumXYStep(a: real, b: real, t: nat -> real, len: nat)
    requires len > 0
    requires SumXY(Line(a, b, t, len - 1), t) == a * SumX(t, len - 1) + b * SumX2(t, len - 1)
    ensures SumXY(Line(a, b, t, len), t) == a * SumX(t, len) + b * SumX2(t, len)
  {
    var w := Line(a, b, t, len);
    LinePrefix(a, b, t, len);
    LineStepArith(a, b, t(len - 1), w[len - 1], SumX(t, len - 1), SumX2(t, len - 1), SumXY(w[..len - 1], t),
                  SumX(t, len), SumX2(t, len), SumXY(w, t));
  }

  lemma {:induction false} LineSumXY(a: real, b: real, t: nat -> real, len: nat)
    ensures SumXY(Line(a, b, t, len), t) == a * SumX(t, len) + b * SumX2(t, len)
  {
    if len > 0 {
      LineSumXY(a, b, t, len - 1);
      LineSumXYStep(a, b, t, len);
    }
  }

  lemma NumeratorOfLineArith(a: real, b: real, l: real, sx: real, sx2: real, sy: real, sxy: real, den: real, num: real)
    requires sy == a * l + b * sx && sxy == a * sx + b * sx2
    requires den == l * sx2 - sx * sx && num == l * sxy - sx * sy
    ensures num == b * den
  {
  }

  /** The sample sum of a line, with every quantity named. */
  lemma LineSumYNamed(a: real, b: real, t: nat -> real, len: nat, w: seq<real>, l: real, sx: real, sy: real)
    requires w == Line(a, b, t, len) && l == len as real && sx == SumX(t, len) && sy == SumY(w)
    ensures sy == a * l + b * sx
  {
    LineSumY(a, b, t, len);
  }

  /** The cross sum of a line, with every quantity named. */
  lemma LineSumXYNamed(a: real, b: real, t: nat -> real, len: nat, w: seq<real>, sx: real, sx2: real, sxy: real)
    requires w == Line(a, b, t, len) && sx == SumX(t, len) && sx2 == SumX2(t, len) && sxy == SumXY(w, t)
    ensures sxy == a * sx + b * sx2
  {
    LineSumXY(a, b, t, len);
  }

  /** The numerator of a window, with every quantity named. */
  lemma NumeratorNamed(w: seq<real>, t: nat -> real, l: real, sx: real, sy: real, sxy: real, num: real)
    requires l == |w| as real && sx == SumX(t, |w|) && sy == SumY(w) && sxy == SumXY(w, t)
    requires num == Numerator(w, t)
    ensures num == l * sxy - sx * sy
  {
  }

  /** On a line the numerator is the slope times the denominator. */
  lemma NumeratorOfLine(a: real, b: real, t: nat -> real, len: nat, num: real, den: real)
    requires num == Numerator(Line(a, b, t, len), t) && den == Denominator(t, len)
    ensures num == b * den
  {
    var w := Line(a, b, t, len);
    var l, sx, sx2 := len as real, SumX(t, len), SumX2(t, len);
    var sy, sxy := SumY(w), SumXY(w, t);
    NumeratorNamed(w, t, l, sx, sy, sxy, num);
    assert den == l * sx2 - sx * sx;
    LineSumYNamed(a, b, t, len, w, l, sx, sy);
    LineSumXYNamed(a, b, t, len, w, sx, sx2, sxy);
    NumeratorOfLineArith(a, b, l, sx, sx2, sy, sxy, den, num);
  }

  /** A slope whose numerator is `b` times a usable denominator is `b`. */
  lemma SlopeOfMultiple(w: seq<real>, t: nat -> real, b: real, s: real, num: real, den: real)
    requires s == Slope(w, t) && num == Numerator(w, t) && den == Denominator(t, |w|)
    requires Abs(den) >= MinDenominator && num == b * den
    ensures s == b
  {
    assert s * den == b * den;
  }

  /** Least squares is exact on a line: a window whose samples are `a + b * t(j)` has slope
      `b`, whenever the denominator is usable. */
  lemma SlopeRecoversLine(a: real, b: real, t: nat -> real, len: nat)
    requires Abs(Denominator(t, len)) >= MinDenominator
    ensures Slope(Line(a, b, t, len), t) == b
  {
    var w := Line(a, b, t, len);
    var num, den := Numerator(w, t), Denominator(t, len);
    NumeratorOfLine(a, b, t, len, num, den);
    SlopeOfMultiple(w, t, b, Slope(w, t), num, den);
  }

  /** A flat window has slope zero. */
  lemma FlatWindowHasZeroSlope(a: real, t: nat -> real, len: nat)
    requires Abs(Denominator(t, len)) >= MinDenominator
    ensures Slope(Line(a, 0.0, t, len), t) == 0.0
  {
    SlopeRecoversLine(a, 0.0, t, len);
  }

  /** `sumx(period, length)`, as the loop computes it. */
  method SumXLoop(p: real, len: nat) returns (s: real)
    ensures s == SumX(Times(p), len)
  {
    s := 0.0;
    var i := 0;
    while i < len
      invariant 0 <= i <= len
      invariant s == SumX(Times(p), i)
    {
      s := s + i as real * p;
      i := i + 1;
    }
  }

  /** `sumx2(period, length)`, as the loop computes it. */
  method SumX2Loop(p: real, len: nat) returns (s: real)
    ensures s == SumX2(Times(p), len)
  {
    s := 0.0;
    var i := 0;
    while i < len
      invariant 0 <= i <= len
      invariant s == SumX2(Times(p), i)
    {
      assert i as real * p * i as real * p == Times(p)(i) * Times(p)(i);
      s := s + i as real * p * i as real * p;
      i := i + 1;
    }
  }

  /** `sumy(arr, n, length, modulo)`: the samples at positions `n - length + 1 .. n`. */
  method SumYLoop(arr: seq<real>, n: int, len: nat, ring: nat, outside: int -> real) returns (s: real)
    requires ring > 0
    ensures s == SumY(Window(arr, n, len, ring, outside))
  {
    ghost var w := Window(arr, n, len, ring, outside);
    s := 0.0;
    var i := n - len + 1;
    while i < n + 1
      invariant n - len + 1 <= i <= n + 1
      invariant s == SumY(w[..i - (n - len + 1)])
    {
      var j := i - (n - len + 1);
      assert w[..j + 1][..j] == w[..j];
      s := s + Load(arr, CRem(i, ring), outside);
      i := i + 1;
    }
    assert w[..len] == w;
  }

  /** `sumxy(arr, n, length, period, modulo)`: each sample times `j * period`, `j` counting
      from zero at the oldest sample. */
  /** Taking in the next sample of the window adds its weighted term `y * (j * period)`. */
  lemma SumXYExtend(w: seq<real>, j: nat, p: real, s: real, y: real)
    requires j < |w| && s == SumXY(w[..j], Times(p)) && y == w[j]
    ensures s + y * (j as real * p) == SumXY(w[..j + 1], Times(p))
  {
    assert w[..j + 1][..j] == w[..j];
    assert Times(p)(j) == j as real * p;
  }

  method SumXYLoop(arr: seq<real>, n: int, len: nat, p: real, ring: nat, outside: int -> real) returns (s: real)
    requires ring > 0
    ensures s == SumXY(Window(arr, n, len, ring, outside), Times(p))
  {
    ghost var w := Window(arr, n, len, ring, outside);
    s := 0.0;
    var j := 0;
    var i := n - len + 1;
    while i < n + 1
      invariant n - len + 1 <= i <= n + 1
      invariant j == i - (n - len + 1)
      invariant s == SumXY(w[..j], Times(p))
    {
      var y := Load(arr, CRem(i, ring), outside);
      SumXYExtend(w, j, p, s, y);
      s := s + y * (j as real * p);
      j := j + 1;
      i := i + 1;
    }
    assert w[..len] == w;
  }
}
