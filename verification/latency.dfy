/** The moving average that ranks upstreams, in microseconds. */
module Latency {
  import opened Basics

  /** One update: weight 3/10 for the sample and 7/10 for the past, rounded to nearest.
      `U64_MAX` marks a tracker that has no sample yet. */
  function Blend(prev: u64, sample: u64): (r: u64)
    ensures prev == U64_MAX ==> r == sample
    ensures prev != U64_MAX ==> (prev <= r <= sample || sample <= r <= prev) && r != U64_MAX
    ensures prev != U64_MAX ==> 10 * r - 5 <= 3 * sample + 7 * prev < 10 * r + 5
  {
    if prev == U64_MAX then sample else (3 * sample + 7 * prev + 5) / 10
  }

  /** The average after a list of samples. */
  function AverageOf(samples: seq<u64>): u64 {
    if samples == [] then U64_MAX
    else Blend(AverageOf(samples[..|samples| - 1]), samples[|samples| - 1])
  }

  /** The average lies between the smallest and the largest sample recorded. */
  lemma {:induction false} AverageIsWithin(samples: seq<u64>, lo: u64, hi: u64)
    requires samples != [] && hi < U64_MAX
    requires forall i :: 0 <= i < |samples| ==> lo <= samples[i] <= hi
    ensures lo <= AverageOf(samples) <= hi
  {
    if |samples| > 1 {
      AverageIsWithin(samples[..|samples| - 1], lo, hi);
    }
  }

  /** Samples of 2^52 microseconds or more, over a century, are out of the average's exact range. */
  const SAMPLE_LIMIT: nat := 0x10_0000_0000_0000

  /** A tracker counts as untested exactly until its first sample, and never gets near the marker. */
  lemma {:induction false} TestedIff(samples: seq<u64>)
    requires forall i :: 0 <= i < |samples| ==> samples[i] < SAMPLE_LIMIT
    ensures AverageOf(samples) == U64_MAX <==> samples == []
    ensures samples != [] ==> AverageOf(samples) < SAMPLE_LIMIT
  {
    if samples != [] {
      TestedIff(samples[..|samples| - 1]);
    }
  }

  function Distance(a: nat, b: nat): nat {
    if a <= b then b - a else a - b
  }

  /** One more sample of the same value never overshoots it, and closes in while 2 or more away. */
  lemma BlendApproaches(prev: u64, target: u64)
    requires prev != U64_MAX
    ensures var next := Blend(prev, target);
            && (prev <= target ==> prev <= next <= target)
            && (prev >= target ==> target <= next <= prev)
            && (Distance(prev, target) >= 2 <==> Distance(next, target) < Distance(prev, target))
  {
  }

  function Repeat(prev: u64, target: u64, n: nat): (r: u64)
    requires prev != U64_MAX
    ensures r != U64_MAX
  {
    if n == 0 then prev else Blend(Repeat(prev, target, n - 1), target)
  }

  /** Under a constant sample the average stays on its side, loses at least one microsecond of
      distance per sample, and so is within one after as many samples as it was away. */
  lemma {:induction false} Converges(prev: u64, target: u64, n: nat)
    requires prev != U64_MAX
    ensures prev <= target ==> prev <= Repeat(prev, target, n) <= target
    ensures prev >= target ==> target <= Repeat(prev, target, n) <= prev
    ensures Distance(Repeat(prev, target, n), target) <= 1
            || Distance(Repeat(prev, target, n), target) + n <= Distance(prev, target)
    ensures n >= Distance(prev, target) ==> Distance(Repeat(prev, target, n), target) <= 1
  {
    if n > 0 {
      Converges(prev, target, n - 1);
      BlendApproaches(Repeat(prev, target, n - 1), target);
    }
  }

  function Sample(micros: nat): u64 {
    if micros > U64_MAX then U64_MAX else micros
  }

  /** The average after exchanges that took the given microseconds. */
  function AverageOfTimes(times: seq<nat>): u64 {
    AverageOf(seq(|times|, i requires 0 <= i < |times| => Sample(times[i])))
  }

  /** The average of elapsed times is the time itself after one exchange, and always lies between the
      least and the greatest. */
  lemma AverageIsOfTimes(times: seq<nat>, lo: nat, hi: nat)
    requires times != [] && hi < U64_MAX && forall i :: 0 <= i < |times| ==> lo <= times[i] <= hi
    ensures lo <= AverageOfTimes(times) <= hi
    ensures |times| == 1 ==> AverageOfTimes(times) == times[0]
  {
    var samples := seq(|times|, i requires 0 <= i < |times| => Sample(times[i]));
    assert lo <= times[0] <= hi;
    assert forall i :: 0 <= i < |samples| ==> samples[i] == times[i];
    AverageIsWithin(samples, lo, hi);
    if |times| == 1 {
      AverageIsWithin(samples, times[0], times[0]);
    }
  }

  class LatencyTracker {
    var avgMicros: u64

    constructor ()
      ensures avgMicros == AverageOf([])
    {
      avgMicros := U64_MAX;
    }

    /** Records an exchange that took `micros`; what does not fit 64 bits counts as the maximum. */
    method Record(micros: nat)
      modifies this
      ensures avgMicros == Blend(old(avgMicros), Sample(micros))
      ensures old(avgMicros) == U64_MAX && micros <= U64_MAX ==> avgMicros == micros
      ensures old(avgMicros) != U64_MAX && micros <= U64_MAX ==>
                10 * avgMicros - 5 <= 3 * micros + 7 * old(avgMicros) < 10 * avgMicros + 5
      ensures forall past :: old(avgMicros) == AverageOf(past) ==> avgMicros == AverageOf(past + [Sample(micros)])
    {
      var sample := Sample(micros);
      assert forall past: seq<u64> :: (past + [sample])[..|past|] == past;
      if avgMicros == U64_MAX {
        avgMicros := sample;
      } else {
        avgMicros := (3 * sample + 7 * avgMicros + 5) / 10;
      }
    }

    function Average(): Option<u64>
      reads this
    {
      if avgMicros == U64_MAX then None else Some(avgMicros)
    }
  }
}
