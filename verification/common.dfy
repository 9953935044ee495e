/** Numeric helpers and the memory model shared by every controller variant.

    Every variant keeps three fixed arrays of `Cap` doubles (the sample log, the learned
    reference and the residual log).  Indices are computed with C++ integer arithmetic, and
    some of them can leave an array.  A read outside an array returns whatever lies in
    memory there; the model does not know that value, so each tick carries a `Stray` oracle
    that supplies it.  A write outside an array is never modelled: the operations that
    write require their index to be in range. */
module Common {

  /** Capacity of each of the three sample buffers (`double Vm_log[10000]` and friends). */
  const Cap: nat := 10000

  /** Upper limit of the LED driver voltage in the PID variants. */
  const LedMax: real := 5.0

  function Abs(x: real): real
  {
    if x < 0.0 then -x else x
  }

  /** `v` clipped from above, as in `if (v > max) { v = max; }`. */
  function ClipAbove(v: real, max: real): (r: real)
    ensures r <= max && r <= v
    ensures r == v || r == max
  {
    if v > max then max else v
  }

  /** C/C++ `%` on a signed dividend: the quotient truncates toward zero, so the remainder
      is the one congruent to `a` modulo `n` that carries the sign of `a` — zero or negative
      for a negative dividend, and zero exactly for a multiple of `n`. */
  function CRem(a: int, n: nat): (r: int)
    requires n > 0
    ensures (a - r) % n == 0
    ensures a >= 0 ==> 0 <= r < n && r == a % n
    ensures a < 0 ==> -(n as int) < r <= 0
    ensures r == 0 <==> a % n == 0
  {
    if a >= 0 then
      ModUnique(a - a % n, n, a / n, 0);
      a % n
    else
      NegativeRem(a, n);
      -((-a) % n)
  }

  /** The Euclidean remainder is the only one in [0, n): `a = n*k + x` fixes it. */
  lemma ModUnique(a: int, n: nat, k: int, x: int)
    requires n > 0 && a == n * k + x && 0 <= x < n
    ensures a % n == x
  {
    var q, r := a / n, a % n;
    assert n * (k - q) == r - x;
    MulBounds(n, k - q);
  }

  /** A non-zero multiple of `n` is at least `n` away from zero. */
  lemma MulBounds(n: nat, m: int)
    requires n > 0
    ensures m >= 1 ==> n * m >= n
    ensures m <= -1 ==> n * m <= -(n as int)
  {
  }

  /** Facts behind the truncating remainder of a negative dividend: it differs from `a`
      by a multiple of `n`, and vanishes exactly when `a` is a multiple of `n`. */
  lemma NegativeRem(a: int, n: nat)
    requires n > 0 && a < 0
    ensures (a + (-a) % n) % n == 0
    ensures (-a) % n == 0 <==> a % n == 0
  {
    var q, m := (-a) / n, (-a) % n;
    assert a + m == n * -q;
    ModUnique(a + m, n, -q, 0);
    if m == 0 {
      ModUnique(a, n, -q, 0);
    } else {
      assert a == n * (-q - 1) + (n - m);
      ModUnique(a, n, -q - 1, n - m);
    }
  }

  /** C/C++ conversion of a double to an integer: truncation toward zero. */
  function Trunc(x: real): (i: int)
    ensures x >= 0.0 ==> i >= 0 && i as real <= x < i as real + 1.0
    ensures x < 0.0 ==> i <= 0 && i as real - 1.0 < x <= i as real
  {
    if x >= 0.0 then x.Floor else -((-x).Floor)
  }

  /** What a read at an out-of-range index of each buffer returns during one tick. */
  datatype Stray = Stray(vmLog: int -> real, ideal: int -> real, diffLog: int -> real)

  /** The input of one control tick: the membrane potential in mV, and the values found
      outside the buffers should the tick read there. */
  datatype Tick = Tick(vm: real, stray: Stray)

  /** `b[i]` as the C++ code reads it: in range it is the element, out of range it is
      whatever the oracle says lies there. */
  function Load(b: seq<real>, i: int, outside: int -> real): (v: real)
    ensures 0 <= i < |b| ==> v == b[i]
    ensures !(0 <= i < |b|) ==> v == outside(i)
  {
    if 0 <= i < |b| then b[i] else outside(i)
  }

  /** A buffer after `cleanup()`: every element zero. */
  function Zeros(): (b: seq<real>)
    ensures |b| == Cap
    ensures forall i :: 0 <= i < |b| ==> b[i] == 0.0
  {
    seq(Cap, _ => 0.0)
  }
}
