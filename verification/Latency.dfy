/** Acknowledgement latencies in bounded memory: a recorder that keeps every 2^s-th
    observation, and the nearest-rank percentile over what it keeps. */
module Latency {
  import opened Arithmetic

  function Pow2(n: nat): (p: nat)
    ensures p >= 1
  {
    if n == 0 then 1 else 2 * Pow2(n - 1)
  }

  /** The stride as a 64-bit shift, the largest value standing in for a shift too far. */
  function Stride(shift: nat): nat {
    if shift < 64 then Pow2(shift) else U64_MAX
  }

  lemma {:induction false} Pow2Grows(n: nat, m: nat)
    requires n <= m
    ensures Pow2(n) <= Pow2(m)
    decreases m
  {
    if n < m {
      Pow2Grows(n, m - 1);
    }
  }

  lemma Pow2At64()
    ensures Pow2(64) == 0x1_0000_0000_0000_0000
  {
    assert Pow2(8) == 256;
    DoubledBy8(8);
    DoubledBy8(16);
    DoubledBy8(24);
    DoubledBy8(32);
    DoubledBy8(40);
    DoubledBy8(48);
    DoubledBy8(56);
  }

  lemma DoubledBy8(n: nat)
    ensures Pow2(n + 8) == 256 * Pow2(n)
  {
    assert Pow2(n + 2) == 4 * Pow2(n);
    assert Pow2(n + 4) == 4 * Pow2(n + 2);
    assert Pow2(n + 6) == 4 * Pow2(n + 4);
    assert Pow2(n + 8) == 4 * Pow2(n + 6);
  }

  /** The stand-in is never noticed: no index reaches it. */
  lemma StrideUnobservable(shift: nat, index: nat)
    requires index < U64_MAX
    ensures index % Stride(shift) == 0 <==> index % Pow2(shift) == 0
  {
    if shift >= 64 {
      Pow2Grows(64, shift);
      Pow2At64();
      SmallModulo(index, U64_MAX);
      SmallModulo(index, Pow2(shift));
    }
  }

  // ----- the systematic sample

  /** The observations whose index is a multiple of the stride, in order. */
  function Sampled(observed: seq<U64>, stride: nat): seq<U64>
    requires stride >= 1
  {
    if observed == [] then [] else
      var n := |observed| - 1;
      Sampled(observed[..n], stride) + if n % stride == 0 then [observed[n]] else []
  }

  lemma SampledNext(observed: seq<U64>, v: U64, stride: nat)
    requires stride >= 1
    ensures Sampled(observed + [v], stride) == Sampled(observed, stride) + if |observed| % stride == 0 then [v] else []
  {
    assert (observed + [v])[..|observed|] == observed;
  }

  /** Each block of `stride` observations gives one sample, its first. */
  lemma {:induction false} BlockCount(observed: seq<U64>, stride: nat, q: nat, r: nat)
    requires stride >= 1 && r <= stride && |observed| == q * stride + r
    ensures |Sampled(observed, stride)| == q + if r > 0 then 1 else 0
    decreases q, r
  {
    if r > 0 {
      var n := |observed| - 1;
      DivisionIs(n, stride, q, r - 1);
      BlockCount(observed[..n], stride, q, r - 1);
    } else if q > 0 {
      assert (q - 1) * stride + stride == q * stride;
      BlockCount(observed, stride, q - 1, stride);
    }
  }

  /** The k-th sample is the observation at k strides. */
  lemma {:induction false} SampledAt(observed: seq<U64>, stride: nat, k: nat)
    requires stride >= 1 && k < |Sampled(observed, stride)|
    ensures k * stride < |observed| && Sampled(observed, stride)[k] == observed[k * stride]
    decreases |observed|
  {
    var n := |observed| - 1;
    if k < |Sampled(observed[..n], stride)| {
      SampledAt(observed[..n], stride, k);
    } else {
      CountAtMultiple(observed[..n], stride);
    }
  }

  lemma CountAtMultiple(observed: seq<U64>, stride: nat)
    requires stride >= 1
    ensures |observed| % stride == 0 ==> |observed| == |Sampled(observed, stride)| * stride
  {
    if |observed| % stride == 0 {
      BlockCount(observed, stride, |observed| / stride, 0);
    }
  }

  function EveryOther(s: seq<U64>): (h: seq<U64>)
    ensures |h| == (|s| + 1) / 2 && forall k :: 0 <= k < |h| ==> h[k] == s[2 * k]
  {
    seq((|s| + 1) / 2, k requires 0 <= k < (|s| + 1) / 2 => s[2 * k])
  }

  lemma EveryOtherNext(s: seq<U64>, v: U64)
    ensures EveryOther(s + [v]) == EveryOther(s) + if |s| % 2 == 0 then [v] else []
  {
  }

  /** An even multiple of the stride is a multiple of its double. */
  lemma EvenMultiple(n: nat, stride: nat)
    requires stride >= 1
    ensures n % stride != 0 ==> n % (2 * stride) != 0
    ensures n % stride == 0 ==> (n % (2 * stride) == 0 <==> (n / stride) % 2 == 0)
  {
    var q, r := n / stride, n % stride;
    var h, e := q / 2, q % 2;
    assert n == q * stride + r;
    assert q * stride == h * (2 * stride) + e * stride by {
      assert q == 2 * h + e;
      assert (2 * h + e) * stride == 2 * h * stride + e * stride;
    }
    assert e == 0 ==> e * stride == 0;
    assert e == 1 ==> e * stride == stride;
    DivisionIs(n, 2 * stride, h, e * stride + r);
  }

  lemma Parity(observed: seq<U64>, stride: nat)
    requires stride >= 1
    ensures |observed| % (2 * stride) == 0 <==> |observed| % stride == 0 && |Sampled(observed, stride)| % 2 == 0
  {
    EvenMultiple(|observed|, stride);
    if |observed| % stride == 0 {
      BlockCount(observed, stride, |observed| / stride, 0);
    }
  }

  /** Dropping every other sample doubles the stride. */
  lemma {:induction false} Halved(observed: seq<U64>, stride: nat)
    requires stride >= 1
    ensures EveryOther(Sampled(observed, stride)) == Sampled(observed, 2 * stride)
    decreases |observed|
  {
    if observed != [] {
      var n := |observed| - 1;
      Halved(observed[..n], stride);
      Parity(observed[..n], stride);
      EveryOtherNext(Sampled(observed[..n], stride), observed[n]);
    }
  }

  // ----- the recorder

  /** A systematic sample within the cap: once decimated, at least half full, and with no
      more decimation than the observations call for. */
  ghost predicate Bounded(samples: seq<U64>, shift: nat, observed: seq<U64>, cap: nat) {
    && samples == Sampled(observed, Pow2(shift))
    && |samples| < cap
    && (shift > 0 ==> (cap + 1) / 2 <= |samples| && Pow2(shift) < 2 * |observed|)
  }

  lemma SkipBounded(samples: seq<U64>, shift: nat, observed: seq<U64>, cap: nat, v: U64)
    requires Bounded(samples, shift, observed, cap) && |observed| % Pow2(shift) != 0
    ensures Bounded(samples, shift, observed + [v], cap)
  {
    SampledNext(observed, v, Pow2(shift));
  }

  lemma KeepBounded(samples: seq<U64>, shift: nat, observed: seq<U64>, cap: nat, v: U64)
    requires Bounded(samples, shift, observed, cap) && |observed| % Pow2(shift) == 0 && cap >= 2
    ensures |samples| + 1 < cap ==> Bounded(samples + [v], shift, observed + [v], cap)
    ensures |samples| + 1 >= cap ==> Bounded(EveryOther(samples + [v]), shift + 1, observed + [v], cap)
  {
    SampledNext(observed, v, Pow2(shift));
    Halved(observed + [v], Pow2(shift));
    if 0 < |observed| < Pow2(shift) {
      SmallModulo(|observed|, Pow2(shift));
    }
  }

  class LatencyRecorder {
    var samples: seq<U64>
    var shift: nat
    var total: U64
    const cap: nat

    /** Every value offered so far. */
    ghost var observed: seq<U64>

    ghost predicate Valid()
      reads this
    {
      cap >= 2 && total == |observed| && Bounded(samples, shift, observed, cap)
    }

    constructor WithCap(cap: nat)
      ensures Valid() && observed == [] && this.cap == if cap < 2 then 2 else cap
    {
      samples, shift, total, observed := [], 0, 0, [];
      this.cap := if cap < 2 then 2 else cap;
    }

    method Record(value: U64)
      requires Valid() && total < U64_MAX
      modifies this
      ensures Valid() && observed == old(observed) + [value]
    {
      var index := total;
      total := total + 1;
      StrideUnobservable(shift, index);
      if index % Stride(shift) != 0 {
        SkipBounded(samples, shift, observed, cap, value);
        observed := observed + [value];
        return;
      }
      KeepBounded(samples, shift, observed, cap, value);
      observed := observed + [value];
      samples := samples + [value];
      if |samples| >= cap {
        samples := EveryOther(samples);
        shift := shift + 1;
      }
    }
  }

  // ----- percentiles

  predicate Sorted(s: seq<U64>) {
    forall i, j :: 0 <= i <= j < |s| ==> s[i] <= s[j]
  }

  function PercentileUs(sorted: seq<U64>, num: nat, den: nat): U64 {
    if sorted == [] || den == 0 then 0 else
      var rank := if CeilDiv(|sorted| * num, den) < 1 then 1 else CeilDiv(|sorted| * num, den);
      sorted[(if rank < |sorted| then rank else |sorted|) - 1]
  }

  function CountAtMost(s: seq<U64>, v: U64): (n: nat)
    ensures n <= |s|
  {
    if s == [] then 0 else CountAtMost(s[..|s| - 1], v) + if s[|s| - 1] <= v then 1 else 0
  }

  lemma {:induction false} CountFrom(s: seq<U64>, v: U64, r: nat)
    requires Sorted(s) && r <= |s|
    requires forall i :: 0 <= i < r ==> s[i] <= v
    ensures CountAtMost(s, v) >= r
    decreases |s|
  {
    if r > 0 {
      var init := s[..|s| - 1];
      CountFrom(init, v, if r < |s| then r else r - 1);
    }
  }

  lemma {:induction false} CountUpTo(s: seq<U64>, v: U64, r: nat)
    requires r <= |s| && forall i :: r <= i < |s| ==> v < s[i]
    ensures CountAtMost(s, v) <= r
    decreases |s|
  {
    if r < |s| {
      CountUpTo(s[..|s| - 1], v, r);
    }
  }

  lemma AtRank(sorted: seq<U64>, rank: nat, den: nat)
    requires Sorted(sorted) && 1 <= rank <= |sorted|
    ensures CountAtMost(sorted, sorted[rank - 1]) * den >= rank * den
  {
    CountFrom(sorted, sorted[rank - 1], rank);
    MulMonotone(rank, CountAtMost(sorted, sorted[rank - 1]), den);
  }

  lemma BelowRank(sorted: seq<U64>, rank: nat, den: nat, w: U64)
    requires Sorted(sorted) && 1 <= rank <= |sorted| && w < sorted[rank - 1]
    ensures CountAtMost(sorted, w) * den <= (rank - 1) * den
  {
    CountUpTo(sorted, w, rank - 1);
    MulMonotone(CountAtMost(sorted, w), rank - 1, den);
  }

  /** The smallest value that enough of the slice is at or below. */
  ghost predicate IsPercentile(sorted: seq<U64>, num: nat, den: nat, v: U64) {
    && v in sorted
    && CountAtMost(sorted, v) * den >= |sorted| * num
    && forall w: U64 :: w < v ==> CountAtMost(sorted, w) * den < |sorted| * num
  }

  lemma RankIsPercentile(sorted: seq<U64>, num: nat, den: nat, rank: nat)
    requires Sorted(sorted) && 1 <= rank <= |sorted|
    requires |sorted| * num <= rank * den && (rank - 1) * den < |sorted| * num
    ensures IsPercentile(sorted, num, den, sorted[rank - 1])
  {
    AtRank(sorted, rank, den);
    forall w: U64 | w < sorted[rank - 1]
      ensures CountAtMost(sorted, w) * den < |sorted| * num
    {
      BelowRank(sorted, rank, den, w);
    }
  }

  lemma NearestRank(sorted: seq<U64>, num: nat, den: nat)
    requires Sorted(sorted) && sorted != [] && 0 < num <= den
    ensures IsPercentile(sorted, num, den, PercentileUs(sorted, num, den))
  {
    var rank := CeilDiv(|sorted| * num, den);
    RankInRange(|sorted|, num, den, rank);
    RankIsPercentile(sorted, num, den, rank);
  }

  lemma RankInRange(n: nat, num: nat, den: nat, rank: nat)
    requires n > 0 && 0 < num <= den && rank == CeilDiv(n * num, den)
    ensures 1 <= rank <= n
  {
    MulMonotone(1, n, num);
    if rank > n {
      MulMonotone(n, rank - 1, den);
      MulMonotone(num, den, n);
    }
  }

  predicate IsSmallest(v: U64, s: seq<U64>) {
    v in s && forall w :: w in s ==> v <= w
  }

  predicate IsLargest(v: U64, s: seq<U64>) {
    v in s && forall w :: w in s ==> w <= v
  }

  /** Beyond the percentiles: nothing to rank, or no scale to rank on, is zero; below the first
      rank the smallest value, above the last the largest. */
  lemma PercentileEnds(sorted: seq<U64>, num: nat, den: nat)
    requires Sorted(sorted)
    ensures sorted == [] || den == 0 ==> PercentileUs(sorted, num, den) == 0
    ensures sorted != [] && den > 0 && num == 0 ==> IsSmallest(PercentileUs(sorted, num, den), sorted)
    ensures sorted != [] && den > 0 && num >= den ==> IsLargest(PercentileUs(sorted, num, den), sorted)
  {
    if sorted != [] && den > 0 {
      if num == 0 {
        assert |sorted| * num == 0;
        assert PercentileUs(sorted, num, den) == sorted[0];
      } else if num >= den {
        MulMonotone(den, num, |sorted|);
        RankInRange(|sorted|, den, den, CeilDiv(|sorted| * den, den));
        CeilDivMonotone(|sorted| * den, |sorted| * num, den);
        WholeRank(|sorted|, den);
        assert PercentileUs(sorted, num, den) == sorted[|sorted| - 1];
      }
    }
  }

  lemma WholeRank(n: nat, den: nat)
    requires den > 0
    ensures CeilDiv(n * den, den) == n
  {
    CeilDivParts(n * den, den, n, 0);
  }

  /** A higher percentile is never a lower value. */
  lemma PercentileMonotone(sorted: seq<U64>, low: nat, high: nat, den: nat)
    requires Sorted(sorted) && low <= high
    ensures PercentileUs(sorted, low, den) <= PercentileUs(sorted, high, den)
  {
    if sorted != [] && den > 0 {
      MulMonotone(low, high, |sorted|);
      CeilDivMonotone(|sorted| * low, |sorted| * high, den);
    }
  }
}
