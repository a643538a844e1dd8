/** The count-up animation shared by src/components/themed/MetricCounter.tsx
    and src/components/home/MetricTiles.tsx (`useCountUp`).  Once started,
    every animation frame samples the elapsed time, turns it into a progress
    clamped to 1, eases it with a cubic ease-out and shows the eased fraction
    of the target, rounded; frames stop after the sample with progress 1.
    Arithmetic is over exact reals and `Math.round(x)` is `floor(x + 1/2)`. */
module CountUp {
  /** `Math.min(elapsed / duration, 1)`. */
  function Progress(elapsed: real, duration: real): (p: real)
    requires duration > 0.0
    ensures p <= 1.0
    ensures elapsed >= 0.0 ==> 0.0 <= p
    ensures p == 1.0 <==> elapsed >= duration
  {
    if elapsed / duration < 1.0 then elapsed / duration else 1.0
  }

  /** `1 - Math.pow(1 - p, 3)`. */
  function Eased(p: real): (e: real)
    ensures 0.0 <= p <= 1.0 ==> 0.0 <= e <= 1.0
    ensures p == 0.0 ==> e == 0.0
    ensures p == 1.0 ==> e == 1.0
  {
    var q := 1.0 - p;
    assert 0.0 <= p <= 1.0 ==> 0.0 <= q * q * q <= 1.0 by {
      if 0.0 <= p <= 1.0 {
        MulLe(q, 1.0, q);
        MulLe(q * q, 1.0, q);
        MulLe(0.0, q * q, q);
      }
    }
    1.0 - q * q * q
  }

  /** `Math.round(x)`: the nearest integer, halves rounded up. */
  function Round(x: real): (n: int)
    ensures n as real - 0.5 <= x < n as real + 0.5
  {
    (x + 0.5).Floor
  }

  /** The count shown by the frame at `elapsed` milliseconds: the eased
      fraction of the target, rounded.  From the frame with progress 1 on it
      is the target; a frame at the start shows 0, and a zero target shows 0
      on every frame, with or without the zero-target guard. */
  function Sample(target: int, duration: real, elapsed: real): (n: int)
    requires duration > 0.0
    ensures elapsed >= duration ==> n == target
    ensures elapsed == 0.0 || target == 0 ==> n == 0
  {
    RoundInt(target);
    RoundInt(0);
    Round(Eased(Progress(elapsed, duration)) * target as real)
  }

  /** The counts shown by frames at the given elapsed times. */
  function Samples(target: int, duration: real, times: seq<real>): (r: seq<int>)
    requires duration > 0.0
    ensures |r| == |times|
    ensures forall i :: 0 <= i < |times| && times[i] >= duration ==> r[i] == target
    ensures forall i :: 0 <= i < |times| && times[i] == 0.0 ==> r[i] == 0
  {
    seq(|times|, i requires 0 <= i < |times| => Sample(target, duration, times[i]))
  }

  lemma MulLe(a: real, b: real, c: real)
    requires a <= b && 0.0 <= c
    ensures a * c <= b * c
  {
  }

  /** Rounding is monotone and exact on integers. */
  lemma RoundMonotone(x: real, y: real)
    requires x <= y
    ensures Round(x) <= Round(y)
  {
  }

  lemma ScaledRoundMonotone(e: real, e': real, t: real)
    requires e <= e' && 0.0 <= t
    ensures Round(e * t) <= Round(e' * t)
  {
    MulLe(e, e', t);
    RoundMonotone(e * t, e' * t);
  }

  lemma RoundInt(n: int)
    ensures Round(n as real) == n
  {
  }

  /** A later progress is eased to a value at least as large, for every
      progress up to 1 (a negative progress included). */
  lemma EasedMonotone(p: real, p': real)
    requires p <= p' <= 1.0
    ensures Eased(p) <= Eased(p')
  {
    var q, q' := 1.0 - p, 1.0 - p';
    assert 0.0 <= q' <= q;
    MulLe(q', q, q');
    MulLe(q', q, q);
    assert q' * q' <= q * q;
    MulLe(q' * q', q * q, q');
    MulLe(q', q, q * q);
    assert q' * q' * q' <= q * q * q;
  }

  /** For `elapsed >= 0` and `target >= 0` every sample lies in `[0, target]`. */
  lemma SampleBounds(target: int, duration: real, elapsed: real)
    requires duration > 0.0 && target >= 0 && elapsed >= 0.0
    ensures 0 <= Sample(target, duration, elapsed) <= target
  {
    var t := target as real;
    var e := Eased(Progress(elapsed, duration));
    assert 0.0 <= e <= 1.0;
    ScaledRoundMonotone(0.0, e, t);
    ScaledRoundMonotone(e, 1.0, t);
    assert 0.0 * t == 0.0 && 1.0 * t == t;
    RoundInt(0);
    RoundInt(target);
  }

  /** For `target >= 0` a later frame never shows a smaller count, whatever
      the sign of the elapsed times. */
  lemma SampleMonotone(target: int, duration: real, elapsed: real, elapsed': real)
    requires duration > 0.0 && target >= 0 && elapsed <= elapsed'
    ensures Sample(target, duration, elapsed) <= Sample(target, duration, elapsed')
  {
    RoundedMonotone(target as real, duration, elapsed, elapsed');
    SampleIsRounded(target, duration, elapsed);
    SampleIsRounded(target, duration, elapsed');
  }

  /** `Sample` unfolded, in a proof obligation of its own. */
  lemma SampleIsRounded(target: int, duration: real, elapsed: real)
    requires duration > 0.0
    ensures Sample(target, duration, elapsed) == Round(Eased(Progress(elapsed, duration)) * target as real)
  {
  }

  /** The scaled ease-out, rounded, is monotone in the elapsed time. */
  lemma RoundedMonotone(t: real, duration: real, elapsed: real, elapsed': real)
    requires duration > 0.0 && 0.0 <= t && elapsed <= elapsed'
    ensures Round(Eased(Progress(elapsed, duration)) * t) <= Round(Eased(Progress(elapsed', duration)) * t)
  {
    var x, y := Eased(Progress(elapsed, duration)) * t, Eased(Progress(elapsed', duration)) * t;
    assert x <= y by {
      EasedProgressMonotone(elapsed, elapsed', duration);
      MulLe(Eased(Progress(elapsed, duration)), Eased(Progress(elapsed', duration)), t);
    }
    RoundMonotone(x, y);
  }

  /** Later frames have at least the eased progress of earlier ones. */
  lemma EasedProgressMonotone(elapsed: real, elapsed': real, duration: real)
    requires duration > 0.0 && elapsed <= elapsed'
    ensures Eased(Progress(elapsed, duration)) <= Eased(Progress(elapsed', duration))
  {
    ProgressMonotone(elapsed, elapsed', duration);
    EasedMonotone(Progress(elapsed, duration), Progress(elapsed', duration));
  }

  /** Later frames have at least the progress of earlier ones. */
  lemma ProgressMonotone(elapsed: real, elapsed': real, duration: real)
    requires duration > 0.0 && elapsed <= elapsed'
    ensures Progress(elapsed, duration) <= Progress(elapsed', duration)
  {
    var q, q' := elapsed / duration, elapsed' / duration;
    assert q * duration == elapsed && q' * duration == elapsed';
    assert (q' - q) * duration == elapsed' - elapsed;
    assert q <= q';
  }

  /** Frames at non-decreasing, non-negative times show a non-decreasing run
      of counts between 0 and the target. */
  lemma SamplesRise(target: int, duration: real, times: seq<real>)
    requires duration > 0.0 && target >= 0
    requires forall i :: 0 <= i < |times| ==> 0.0 <= times[i]
    requires forall i, j :: 0 <= i <= j < |times| ==> times[i] <= times[j]
    ensures forall i :: 0 <= i < |times| ==> 0 <= Samples(target, duration, times)[i] <= target
    ensures forall i, j :: 0 <= i <= j < |times| ==>
      Samples(target, duration, times)[i] <= Samples(target, duration, times)[j]
  {
    var r := Samples(target, duration, times);
    forall i | 0 <= i < |times|
      ensures 0 <= r[i] <= target
    {
      SampleBounds(target, duration, times[i]);
    }
    forall i, j | 0 <= i <= j < |times|
      ensures r[i] <= r[j]
    {
      SampleMonotone(target, duration, times[i], times[j]);
    }
  }

  /** One `useCountUp` instance.  `zeroGuard` is MetricCounter's early return
      on a zero target; MetricTiles has none. */
  class Counter {
    const target: int
    const duration: real
    const zeroGuard: bool
    var started: bool
    var count: int
    var framePending: bool

    ghost predicate Valid()
      reads this
    {
      && duration > 0.0
      && (!started ==> count == 0 && !framePending)
      && (target == 0 ==> count == 0)
      && (zeroGuard && target == 0 ==> !framePending)
    }

    /** `useState(0)` before the card scrolls into view. */
    constructor (target: int, duration: real, zeroGuard: bool)
      requires duration > 0.0
      ensures this.target == target && this.duration == duration && this.zeroGuard == zeroGuard
      ensures !started && count == 0 && !framePending
      ensures Valid()
    {
      this.target, this.duration, this.zeroGuard := target, duration, zeroGuard;
      started, count, framePending := false, 0, false;
    }

    /** The card enters the view: the effect requests the first frame, unless
        the guard applies to a zero target.  The view is entered once. */
    method Start()
      requires Valid()
      modifies this
      ensures Valid() && started && count == old(count)
      ensures framePending <==> old(framePending) || (!old(started) && !(zeroGuard && target == 0))
    {
      if !started {
        started := true;
        if !(zeroGuard && target == 0) {
          framePending := true;
        }
      }
    }

    /** The requested frame runs `elapsed` milliseconds after the start: it
        shows the sample and requests another frame iff progress is below 1. */
    method Frame(elapsed: real)
      requires Valid() && framePending
      modifies this
      ensures Valid() && started == old(started)
      ensures count == Sample(target, duration, elapsed)
      ensures framePending <==> Progress(elapsed, duration) < 1.0
      ensures !framePending ==> count == target
    {
      var progress := if elapsed / duration < 1.0 then elapsed / duration else 1.0;
      var eased := 1.0 - (1.0 - progress) * (1.0 - progress) * (1.0 - progress);
      count := (eased * target as real + 0.5).Floor;
      framePending := progress < 1.0;
    }

    /** Frames run at the given times while one is requested; `shown` are the
        counts they set.  The animation stops at the first frame whose
        progress is 1, and the count is then the target. */
    method Animate(times: seq<real>) returns (shown: seq<int>)
      requires Valid() && framePending
      modifies this
      ensures Valid() && started == old(started)
      ensures |shown| <= |times| && shown == Samples(target, duration, times[..|shown|])
      ensures forall i :: 0 <= i < |shown| - 1 ==> Progress(times[i], duration) < 1.0
      ensures framePending ==> |shown| == |times|
      ensures !framePending ==> |shown| > 0 && count == target && Progress(times[|shown| - 1], duration) == 1.0
      ensures |shown| > 0 ==> count == shown[|shown| - 1]
    {
      shown := [];
      var k := 0;
      while k < |times| && framePending
        invariant 0 <= k <= |times| && |shown| == k
        invariant Valid() && started == old(started)
        invariant shown == Samples(target, duration, times[..k])
        invariant forall i :: 0 <= i < k - 1 ==> Progress(times[i], duration) < 1.0
        invariant k == 0 ==> framePending
        invariant k > 0 ==> count == shown[k - 1]
        invariant k > 0 ==> (framePending <==> Progress(times[k - 1], duration) < 1.0)
        invariant !framePending ==> count == target
      {
        Frame(times[k]);
        shown := shown + [count];
        k := k + 1;
      }
    }
  }
}
