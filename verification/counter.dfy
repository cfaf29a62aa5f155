/** `AnimatedCounter` on the home page: once visible it samples a count-up
    value on every animation frame until the clamped progress reaches 1.
    Times are exact reals in milliseconds; the browser's doubles are not modelled. */
module Counter {

  /** The default `duration` prop, the only one the page uses. */
  const DefaultDuration: real := 2000.0

  /** The rounding threshold: targets below it round up, the rest round down. */
  const RoundUpBelow: int := 100

  function Floor(x: real): (r: int)
    ensures r as real <= x < r as real + 1.0
  {
    x.Floor
  }

  function Ceil(x: real): (r: int)
    ensures r as real - 1.0 < x <= r as real
  {
    -((-x).Floor)
  }

  lemma RatioBelowOne(elapsed: real, duration: real)
    requires elapsed >= 0.0 && duration > 0.0
    ensures (elapsed / duration) * duration == elapsed
    ensures elapsed / duration < 1.0 <==> elapsed < duration
  {
    var r := elapsed / duration;
    if r < 1.0 {
      assert (1.0 - r) * duration > 0.0;
    } else {
      assert (r - 1.0) * duration >= 0.0;
    }
  }

  /** `Math.min(progress / duration, 1)`. */
  function Percentage(elapsed: real, duration: real): (p: real)
    requires elapsed >= 0.0 && duration > 0.0
    ensures 0.0 <= p <= 1.0
    ensures p == 1.0 <==> elapsed >= duration
    ensures p < 1.0 ==> p * duration == elapsed
  {
    RatioBelowOne(elapsed, duration);
    if elapsed / duration < 1.0 then elapsed / duration else 1.0
  }

  /** `end < 100 ? Math.ceil(end * percentage) : Math.floor(end * percentage)`. */
  function Sample(end: int, percentage: real): int {
    if end < RoundUpBelow then Ceil(end as real * percentage) else Floor(end as real * percentage)
  }

  /** The sample is the least integer not below `end * p` for small targets and
      the greatest integer not above it for the others. */
  lemma SampleRounding(end: int, p: real)
    ensures end < RoundUpBelow ==>
              end as real * p <= Sample(end, p) as real < end as real * p + 1.0
    ensures end >= RoundUpBelow ==>
              end as real * p - 1.0 < Sample(end, p) as real <= end as real * p
  {
  }

  /** Once `duration` has elapsed the sample is exactly the target. */
  lemma FinalSampleIsEnd(end: int, elapsed: real, duration: real)
    requires elapsed >= 0.0 && duration > 0.0
    requires elapsed >= duration
    ensures Sample(end, Percentage(elapsed, duration)) == end
  {
  }

  /** For a non-negative target every sample lies between 0 and the target. */
  lemma SampleBounds(end: int, p: real)
    requires end >= 0 && 0.0 <= p <= 1.0
    ensures 0 <= Sample(end, p) <= end
  {
    var x := end as real * p;
    assert 0.0 <= x;
    assert end as real - x == end as real * (1.0 - p);
    assert x <= end as real;
  }

  /** For a non-negative target, samples never go down as time goes on. */
  lemma SampleMonotone(end: int, p: real, p': real)
    requires end >= 0 && p <= p'
    ensures Sample(end, p) <= Sample(end, p')
  {
    assert end as real * p <= end as real * p';
  }

  /** Progress never goes down as time goes on. */
  lemma PercentageMonotone(e: real, e': real, duration: real)
    requires 0.0 <= e <= e' && duration > 0.0
    ensures Percentage(e, duration) <= Percentage(e', duration)
  {
    assert e / duration <= e' / duration;
  }

  /** `startTime` after the first `n` frames. It starts undefined, which is
      falsy like 0; every frame that finds it falsy sets it to its timestamp. */
  function StartAfter(frames: seq<real>, n: nat): real
    requires n <= |frames|
  {
    if n == 0 then 0.0
    else
      var s := StartAfter(frames, n - 1);
      if s == 0.0 then frames[n - 1] else s
  }

  ghost predicate NonDecreasing(frames: seq<real>) {
    forall i, j :: 0 <= i <= j < |frames| ==> frames[i] <= frames[j]
  }

  /** The elapsed time the `i`-th frame computes; never negative, because
      the frame clock does not run backwards. */
  function Elapsed(frames: seq<real>, i: nat): (r: real)
    requires NonDecreasing(frames) && i < |frames|
    ensures r >= 0.0
  {
    StartIsPastFrame(frames, i + 1);
    frames[i] - StartAfter(frames, i + 1)
  }

  /** A set start time is one of the frames already seen. */
  lemma {:induction false} StartIsPastFrame(frames: seq<real>, n: nat)
    requires NonDecreasing(frames)
    requires 0 < n <= |frames|
    ensures StartAfter(frames, n) != 0.0 ==> StartAfter(frames, n) <= frames[n - 1]
  {
    if n > 1 && StartAfter(frames, n - 1) != 0.0 {
      StartIsPastFrame(frames, n - 1);
    }
  }

  /** The elapsed times of successive frames start at 0 and never go down. */
  lemma ElapsedMonotone(frames: seq<real>, i: nat)
    requires NonDecreasing(frames)
    requires i + 1 < |frames|
    ensures 0.0 <= Elapsed(frames, i) <= Elapsed(frames, i + 1)
  {
    StartIsPastFrame(frames, i + 1);
  }

  /** The progress and the sample the `i`-th frame computes. */
  function ProgressAt(duration: real, frames: seq<real>, i: nat): real
    requires duration > 0.0 && NonDecreasing(frames) && i < |frames|
  {
    Percentage(Elapsed(frames, i), duration)
  }

  function SampleAt(end: int, duration: real, frames: seq<real>, i: nat): int
    requires duration > 0.0 && NonDecreasing(frames) && i < |frames|
  {
    Sample(end, ProgressAt(duration, frames, i))
  }

  /** The first frame always samples 0. */
  lemma FirstFrameIsZero(frames: seq<real>, duration: real, end: int)
    requires |frames| > 0 && duration > 0.0 && NonDecreasing(frames)
    ensures Elapsed(frames, 0) == 0.0
    ensures SampleAt(end, duration, frames, 0) == 0
  {
    assert StartAfter(frames, 1) == frames[0];
    assert Elapsed(frames, 0) == 0.0;
    assert Percentage(0.0, duration) == 0.0;
    assert end as real * 0.0 == 0.0;
  }

  /** For a non-negative target, each frame's sample is within [0, end] and
      not below the previous frame's. */
  lemma SampleStep(end: int, duration: real, frames: seq<real>, i: nat)
    requires duration > 0.0 && NonDecreasing(frames) && i < |frames| && end >= 0
    ensures 0 <= SampleAt(end, duration, frames, i) <= end
    ensures i > 0 ==> SampleAt(end, duration, frames, i - 1) <= SampleAt(end, duration, frames, i)
  {
    SampleBounds(end, ProgressAt(duration, frames, i));
    if i > 0 {
      ElapsedMonotone(frames, i - 1);
      PercentageMonotone(Elapsed(frames, i - 1), Elapsed(frames, i), duration);
      SampleMonotone(end, ProgressAt(duration, frames, i - 1), ProgressAt(duration, frames, i));
    }
  }

  /** The loop stops on progress, not on the value: with the default
      duration, a target of 98 is already shown 10 ms before the end, and
      frames are still requested until the full duration has elapsed. */
  lemma TargetShownBeforeStop()
    ensures Percentage(1990.0, DefaultDuration) < 1.0
    ensures Sample(98, Percentage(1990.0, DefaultDuration)) == 98
  {
    assert Percentage(1990.0, DefaultDuration) == 0.995;
    assert 98.0 * 0.995 == 97.51;
  }

  /** Adjacent pairs in order make the whole sequence ordered. */
  lemma {:induction false} SortedFromAdjacent(xs: seq<int>)
    requires forall k :: 0 < k < |xs| ==> xs[k - 1] <= xs[k]
    ensures forall i, j :: 0 <= i <= j < |xs| ==> xs[i] <= xs[j]
  {
    if |xs| > 1 {
      var init := xs[..|xs| - 1];
      SortedFromAdjacent(init);
      forall i, j | 0 <= i <= j < |xs| ensures xs[i] <= xs[j] {
        if j < |xs| - 1 {
          assert init[i] <= init[j];
        } else if i < j {
          assert init[i] <= init[j - 1];
        }
      }
    }
  }

  /** The animation loop, driven by the given frame timestamps: every frame
      samples the counter and asks for another frame only while the progress
      is below 1. The result is the sequence of values `setCount` receives. */
  method Animate(end: int, duration: real, frames: seq<real>) returns (samples: seq<int>)
    requires duration > 0.0 && NonDecreasing(frames)
    ensures |samples| <= |frames|
    ensures |frames| > 0 ==> |samples| > 0 && samples[0] == 0
    ensures forall i :: 0 <= i < |samples| ==> samples[i] == SampleAt(end, duration, frames, i)
    ensures forall i :: 0 <= i < |samples| - 1 ==> ProgressAt(duration, frames, i) < 1.0
    ensures |samples| < |frames| ==> ProgressAt(duration, frames, |samples| - 1) == 1.0
    ensures |samples| < |frames| ==> samples[|samples| - 1] == end
    ensures end >= 0 ==> forall i :: 0 <= i < |samples| ==> 0 <= samples[i] <= end
    ensures end >= 0 ==> forall i, j :: 0 <= i <= j < |samples| ==> samples[i] <= samples[j]
  {
    samples := [];
    var startTime := 0.0;
    var i := 0;
    var running := true;
    while i < |frames| && running
      invariant 0 <= i <= |frames| && |samples| == i
      invariant startTime == StartAfter(frames, i)
      invariant forall k :: 0 <= k < i ==> samples[k] == SampleAt(end, duration, frames, k)
      invariant forall k :: 0 <= k < i - 1 ==> ProgressAt(duration, frames, k) < 1.0
      invariant i > 0 ==> (running <==> ProgressAt(duration, frames, i - 1) < 1.0)
      invariant i == 0 ==> running
    {
      if startTime == 0.0 {
        startTime := frames[i];
      }
      var elapsed := frames[i] - startTime;
      assert elapsed == Elapsed(frames, i);
      var percentage := Percentage(elapsed, duration);
      var count := Sample(end, percentage);
      samples := samples + [count];
      running := percentage < 1.0;
      i := i + 1;
    }
    if |frames| > 0 {
      FirstFrameIsZero(frames, duration, end);
    }
    if |samples| < |frames| {
      FinalSampleIsEnd(end, Elapsed(frames, i - 1), duration);
    }
    if end >= 0 {
      forall k | 0 <= k < |samples| ensures 0 <= samples[k] <= end {
        SampleStep(end, duration, frames, k);
      }
      forall k | 0 < k < |samples| ensures samples[k - 1] <= samples[k] {
        SampleStep(end, duration, frames, k);
      }
      SortedFromAdjacent(samples);
    }
  }
}
