/** The frame sampler: which frame positions `process_video` runs OCR on.
    The decoder reports position `p` after reading the `p`-th frame, so the
    positions of an `N`-frame stream are `1..N`. */
module FrameSampler {

  /** `int(fps)`: truncation toward zero, not rounding. The frame rate is
      taken as an exact real number. */
  function TruncateRate(fps: real): (interval: int)
    ensures 0.0 <= fps ==> 0 <= interval && interval as real <= fps < interval as real + 1.0
    ensures fps < 0.0 ==> interval <= 0 && interval as real - 1.0 < fps <= interval as real
  {
    if fps >= 0.0 then fps.Floor else -((-fps).Floor)
  }

  /** A rate just under 30 frames per second gives an interval of 29. */
  lemma TruncatesRatherThanRounds()
    ensures TruncateRate(29.97) == 29
  {
  }

  /** Python's `a // b`: the quotient rounded toward negative infinity. */
  function PyFloorDiv(a: int, b: int): int
    requires b != 0
  {
    if b < 0 && a % b != 0 then a / b - 1 else a / b
  }

  /** Python's `a % b`: the remainder takes the sign of the divisor, where
      Dafny's `%` is never negative, and completes Python's `//`. */
  function PyMod(a: int, b: int): (r: int)
    requires b != 0
    ensures b > 0 ==> 0 <= r < b
    ensures b < 0 ==> b < r <= 0
    ensures a == b * PyFloorDiv(a, b) + r
  {
    var m := a % b;
    assert a == b * (a / b) + m;
    if b < 0 && m != 0 then
      assert b * (a / b - 1) == b * (a / b) - b;
      m + b
    else m
  }

  /** Python's remainder follows the divisor's sign: `7 % -3 == -2` and
      `-7 % 3 == 2`. */
  lemma RemainderTakesDivisorSign()
    ensures PyMod(7, -3) == -2 && PyFloorDiv(7, -3) == -3
    ensures PyMod(-7, 3) == 2 && PyFloorDiv(-7, 3) == -3
  {
  }

  /** `frame_id % interval == 0`, with Python's `%`. It holds exactly when
      the interval divides the position, whatever the interval's sign. */
  predicate IsSampled(position: nat, interval: int): (b: bool)
    requires interval != 0
    ensures b <==> position % interval == 0
  {
    PyMod(position, interval) == 0
  }

  function Abs(k: int): nat {
    if k < 0 then -k else k
  }

  /** The sampled positions of an `n`-frame stream, in stream order. */
  function SampledPositions(n: nat, interval: int): (ps: seq<nat>)
    requires interval != 0
    ensures forall k :: 0 <= k < |ps| ==> 1 <= ps[k] <= n
    decreases n
  {
    if n == 0 then []
    else SampledPositions(n - 1, interval) + (if IsSampled(n, interval) then [n] else [])
  }

  /** The sampled positions are exactly the multiples of the interval in
      `1..n`, in strictly increasing order. */
  lemma {:induction false} SampledPositionsExact(n: nat, interval: int)
    requires interval != 0
    ensures forall p: nat :: p in SampledPositions(n, interval) <==> 1 <= p <= n && p % interval == 0
    ensures forall k, l :: 0 <= k < l < |SampledPositions(n, interval)| ==>
              SampledPositions(n, interval)[k] < SampledPositions(n, interval)[l]
    decreases n
  {
    if n > 0 {
      SampledPositionsExact(n - 1, interval);
    }
  }

  /** Quotient and remainder are unique. */
  lemma DivModUnique(n: nat, k: nat, q: int, r: int)
    requires k > 0 && 0 <= r < k && n == q * k + r
    ensures n / k == q && n % k == r
  {
    var q', r' := n / k, n % k;
    assert (q' - q) * k == r - r';
    if q' > q {
      MulMonotone(q' - q, k);
      assert false;
    } else if q' < q {
      MulMonotone(q - q', k);
      assert false;
    }
  }

  lemma MulMonotone(d: int, k: nat)
    requires d >= 1
    ensures d * k >= k
  {
  }

  /** Moving from `n - 1` to `n` frames adds one sample exactly when `n` is a
      multiple of `k`. */
  lemma DivStep(n: nat, k: nat)
    requires n >= 1 && k > 0
    ensures n / k == (n - 1) / k + (if n % k == 0 then 1 else 0)
  {
    var q, r := (n - 1) / k, (n - 1) % k;
    assert n - 1 == q * k + r;
    if r == k - 1 {
      DivModUnique(n, k, q + 1, 0);
    } else {
      DivModUnique(n, k, q, r + 1);
    }
  }

  /** An `n`-frame stream yields `n / |interval|` samples. */
  lemma {:induction false} SampledCount(n: nat, interval: int)
    requires interval != 0
    ensures |SampledPositions(n, interval)| == n / Abs(interval)
    decreases n
  {
    if n > 0 {
      SampledCount(n - 1, interval);
      DivStep(n, Abs(interval));
      assert n % interval == n % Abs(interval);
    }
  }

  /** Three seconds of video at `k` frames per second are sampled at
      positions `k`, `2k` and `3k`; position 0 is never reported. */
  lemma ThreeSecondsOfVideo(k: nat)
    requires k > 0
    ensures SampledPositions(3 * k, k) == [k, 2 * k, 3 * k]
  {
    SampledPositionsExact(3 * k, k);
    SampledCount(3 * k, k);
    DivModUnique(3 * k, k, 3, 0);
    DivModUnique(k, k, 1, 0);
    DivModUnique(2 * k, k, 2, 0);
    var ps := SampledPositions(3 * k, k);
    assert |ps| == 3;
    assert k in ps && 2 * k in ps && 3 * k in ps;
  }
}
