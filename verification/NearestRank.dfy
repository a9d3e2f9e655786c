/** The latency percentiles of `perf-sentinel bench` (crates/sentinel-cli/src/bench.rs), in exact
    arithmetic. */
module NearestRank {
  import opened Permutations
  import opened Sorting

  predicate RealLe(a: real, b: real) { a <= b }

  /** Nanoseconds per event of one iteration. */
  function PerEvent(duration: nat, eventCount: nat): real
    requires eventCount > 0
  {
    duration as real / eventCount as real
  }

  function Samples(durations: seq<nat>, eventCount: nat): seq<real>
    requires eventCount > 0
  {
    seq(|durations|, i requires 0 <= i < |durations| => PerEvent(durations[i], eventCount))
  }

  /** ceil(pct * len / 100) - 1. */
  function RankIndex(len: nat, pct: nat): (i: nat)
    requires len > 0 && 0 < pct <= 100
    ensures i < len && 100 * i < pct * len <= 100 * (i + 1)
  {
    var i := (pct * len + 99) / 100 - 1;
    if i < len then i else len - 1
  }

  /** The two percentiles in microseconds. `cmd_bench` ends the run when there is no event to divide by. */
  method ComputeLatencyPercentiles(durations: seq<nat>, eventCount: nat) returns (p50: real, p99: real)
    requires eventCount > 0
    ensures durations == [] ==> p50 == 0.0 && p99 == 0.0
    ensures durations != [] ==> IsNearestRank(Samples(durations, eventCount), 50, p50 * 1000.0)
    ensures durations != [] ==> IsNearestRank(Samples(durations, eventCount), 99, p99 * 1000.0)
    ensures p50 <= p99
  {
    if durations == [] {
      return 0.0, 0.0;
    }
    var perEvent: seq<real> := [];
    for i := 0 to |durations|
      invariant perEvent == Samples(durations, eventCount)[..i]
    {
      perEvent := perEvent + [durations[i] as real / eventCount as real];
    }
    assert perEvent == Samples(durations, eventCount);
    SortedIndexIsRank(perEvent, 50);
    SortedIndexIsRank(perEvent, 99);
    MedianBelowTail(perEvent);
    perEvent := Sort(RealLe, perEvent);
    p50 := perEvent[RankIndex(|perEvent|, 50)] / 1000.0;
    p99 := perEvent[RankIndex(|perEvent|, 99)] / 1000.0;
  }

  // ----- what a percentile is

  function AtMost(s: seq<real>, v: real): nat {
    SumBy(UpTo(v), s)
  }

  /** The smallest sample with at least `pct` percent of the samples at or below it. */
  ghost predicate IsNearestRank(s: seq<real>, pct: nat, v: real) {
    && v in s
    && 100 * AtMost(s, v) >= pct * |s|
    && forall u :: u in s && u < v ==> 100 * AtMost(s, u) < pct * |s|
  }

  function UpTo(v: real): real -> nat { (x: real) => if x <= v then 1 else 0 }

  lemma CountedApart(s: seq<real>, v: real, i: nat)
    requires i <= |s|
    ensures AtMost(s, v) == AtMost(s[..i], v) + AtMost(s[i..], v)
  {
    assert s == s[..i] + s[i..];
    SumByAppends(UpTo(v), s[..i], s[i..]);
  }

  lemma {:induction false} AtMostOfSplit(s: seq<real>, v: real, i: nat)
    requires i <= |s| && SortedBy(RealLe, s)
    ensures (i > 0 && s[i - 1] <= v) ==> AtMost(s, v) >= i
    ensures (i < |s| && v < s[i]) ==> AtMost(s, v) <= i
  {
    CountedApart(s, v, i);
    if i > 0 && s[i - 1] <= v {
      forall k | 0 <= k < i ensures s[..i][k] <= v { assert k < i - 1 ==> RealLe(s[k], s[i - 1]); }
    }
    if i < |s| && v < s[i] {
      forall k | 0 <= k < |s| - i ensures s[i..][k] > v { assert k > 0 ==> RealLe(s[i], s[i + k]); }
    }
    SumBounds(s[..i], v);
    SumBounds(s[i..], v);
  }

  lemma {:induction false} SumBounds(s: seq<real>, v: real)
    ensures AtMost(s, v) <= |s|
    ensures (forall k :: 0 <= k < |s| ==> s[k] <= v) ==> AtMost(s, v) == |s|
    ensures (forall k :: 0 <= k < |s| ==> s[k] > v) ==> AtMost(s, v) == 0
  {
    if s != [] {
      SumBounds(s[1..], v);
    }
  }

  lemma {:induction false} SortedRank(t: seq<real>, pct: nat)
    requires t != [] && 0 < pct <= 100 && SortedBy(RealLe, t)
    ensures IsNearestRank(t, pct, t[RankIndex(|t|, pct)])
  {
    var i := RankIndex(|t|, pct);
    AtMostOfSplit(t, t[i], i + 1);
    forall u | u in t && u < t[i]
      ensures 100 * AtMost(t, u) < pct * |t|
    {
      AtMostOfSplit(t, u, i);
    }
  }

  lemma {:induction false} RankIgnoresOrder(s: seq<real>, t: seq<real>, pct: nat, v: real)
    requires multiset(s) == multiset(t)
    ensures IsNearestRank(s, pct, v) <==> IsNearestRank(t, pct, v)
  {
    MembersAgree(s, t);
    forall u ensures AtMost(s, u) == AtMost(t, u) {
      SumByPermutes(UpTo(u), s, t);
    }
  }

  lemma {:induction false} SortedIndexIsRank(s: seq<real>, pct: nat)
    requires s != [] && 0 < pct <= 100
    ensures |Sort(RealLe, s)| == |s|
    ensures IsNearestRank(s, pct, Sort(RealLe, s)[RankIndex(|s|, pct)])
  {
    SortPermutes(RealLe, s);
    SortSorts(RealLe, s);
    SortedRank(Sort(RealLe, s), pct);
    RankIgnoresOrder(Sort(RealLe, s), s, pct, Sort(RealLe, s)[RankIndex(|s|, pct)]);
  }

  lemma {:induction false} MedianBelowTail(s: seq<real>)
    requires s != []
    ensures |Sort(RealLe, s)| == |s|
    ensures Sort(RealLe, s)[RankIndex(|s|, 50)] <= Sort(RealLe, s)[RankIndex(|s|, 99)]
  {
    SortPermutes(RealLe, s);
    SortSorts(RealLe, s);
    var t, i, j := Sort(RealLe, s), RankIndex(|s|, 50), RankIndex(|s|, 99);
    if i < j { assert RealLe(t[i], t[j]); }
  }

  /** A percentile is determined by its meaning. */
  lemma {:induction false} NearestRankIsUnique(s: seq<real>, pct: nat, v: real, w: real)
    requires IsNearestRank(s, pct, v) && IsNearestRank(s, pct, w)
    ensures v == w
  {
  }

  lemma {:induction false} SamplesPermute(durations: seq<nat>, shuffled: seq<nat>, eventCount: nat)
    requires eventCount > 0 && multiset(durations) == multiset(shuffled)
    ensures multiset(Samples(durations, eventCount)) == multiset(Samples(shuffled, eventCount))
    decreases |durations|
  {
    if durations == [] {
      assert |shuffled| == |multiset(shuffled)| == 0;
    } else {
      var i := Extract(durations, shuffled);
      var a, b := shuffled[..i], shuffled[i + 1..];
      SamplesPermute(durations[1..], a + b, eventCount);
      var x := PerEvent(durations[0], eventCount);
      assert Samples(durations, eventCount) == [x] + Samples(durations[1..], eventCount);
      assert Samples(shuffled, eventCount) == Samples(a, eventCount) + [x] + Samples(b, eventCount);
      assert Samples(a + b, eventCount) == Samples(a, eventCount) + Samples(b, eventCount);
    }
  }

  /** The order of the iterations changes neither percentile. */
  lemma {:induction false} PercentileIgnoresOrder(durations: seq<nat>, shuffled: seq<nat>, eventCount: nat,
                                                  pct: nat, v: real, w: real)
    requires eventCount > 0 && multiset(durations) == multiset(shuffled)
    requires IsNearestRank(Samples(durations, eventCount), pct, v)
    requires IsNearestRank(Samples(shuffled, eventCount), pct, w)
    ensures v == w
  {
    SamplesPermute(durations, shuffled, eventCount);
    RankIgnoresOrder(Samples(durations, eventCount), Samples(shuffled, eventCount), pct, w);
    NearestRankIsUnique(Samples(durations, eventCount), pct, v, w);
  }

  /** A sample is the duration spread evenly over the events. */
  lemma SamplesSpread(durations: seq<nat>, eventCount: nat)
    requires eventCount > 0
    ensures |Samples(durations, eventCount)| == |durations|
    ensures forall i :: 0 <= i < |durations| ==>
              Samples(durations, eventCount)[i] * eventCount as real == durations[i] as real
  {
  }
}
