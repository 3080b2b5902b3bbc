/**
 * Latency histograms (histogram.h, histogram.c, metrics.c): 64 power-of-two
 * buckets, coordinated-omission correction, percentiles and the merge over
 * workers. Samples are microseconds; counters do not overflow.
 */
module Histogram {
  import opened Basics
  import opened Powers

  const BUCKETS: int := 64
  const NO_MIN: int := 0xFFFF_FFFF_FFFF_FFFF

  datatype Hist = Hist(counts: seq<nat>, total: nat, sum: nat, min: nat, max: nat)

  // ---------------------------------------------------------------- reference

  /** Position of the highest set bit of us | 1. */
  function Bucket(us: nat): nat { if us < 2 then 0 else 1 + Bucket(us / 2) }

  /** A sample's bucket is below i exactly when the sample is below 2^i. */
  lemma {:induction false} BucketBelow(us: nat, i: nat)
    ensures Bucket(us) <= i <==> us < Pow2(i + 1)
    decreases i
  {
    if us >= 2 {
      if i == 0 {
        assert Pow2(1) == 2 * Pow2(0) == 2;
      } else {
        BucketBelow(us / 2, i - 1);
        assert Pow2(i + 1) == 2 * Pow2(i);
      }
    } else {
      Pow2AtLeastTwo(i);
    }
  }

  lemma InRange(us: nat)
    requires us < Pow2(BUCKETS)
    ensures Bucket(us) < BUCKETS
  {
    BucketBelow(us, BUCKETS - 1);
  }

  lemma {:induction false} Pow2AtLeastTwo(i: nat)
    ensures Pow2(i + 1) >= 2
  {
    if i > 0 { Pow2AtLeastTwo(i - 1); }
  }

  function CountIn(samples: seq<nat>, b: nat): nat {
    if samples == [] then 0
    else CountIn(samples[..|samples| - 1], b) + if Bucket(samples[|samples| - 1]) == b then 1 else 0
  }

  /** How many samples are below a bound. */
  function Below(samples: seq<nat>, x: nat): nat {
    if samples == [] then 0
    else Below(samples[..|samples| - 1], x) + if samples[|samples| - 1] < x then 1 else 0
  }

  function Sum(samples: seq<nat>): nat {
    if samples == [] then 0 else Sum(samples[..|samples| - 1]) + samples[|samples| - 1]
  }

  function Least(samples: seq<nat>): nat {
    if samples == [] then NO_MIN
    else if samples[|samples| - 1] < Least(samples[..|samples| - 1]) then samples[|samples| - 1]
    else Least(samples[..|samples| - 1])
  }

  function Greatest(samples: seq<nat>): nat {
    if samples == [] then 0
    else if samples[|samples| - 1] > Greatest(samples[..|samples| - 1]) then samples[|samples| - 1]
    else Greatest(samples[..|samples| - 1])
  }

  /** The histogram of a sequence of samples. */
  function Of(samples: seq<nat>): (h: Hist)
    ensures |h.counts| == BUCKETS
  {
    Hist(seq(BUCKETS, b requires 0 <= b => CountIn(samples, b)), |samples|, Sum(samples), Least(samples), Greatest(samples))
  }

  predicate Bounded(samples: seq<nat>, bits: nat) { forall i :: 0 <= i < |samples| ==> samples[i] < Pow2(bits) }

  // ------------------------------------------------------------------- record

  /** The samples a corrected record stands for: us, us - interval, and so on down to the interval. */
  function Corrected(us: nat, interval: nat): (r: seq<nat>)
    decreases us
  {
    if interval == 0 || us < 2 * interval then [us] else [us] + Corrected(us - interval, interval)
  }

  /** A corrected record adds exactly max(1, us / interval) samples, one per missed interval. */
  lemma {:induction false} CorrectedExact(us: nat, interval: nat)
    requires interval > 0
    ensures |Corrected(us, interval)| == if us < interval then 1 else us / interval
    ensures forall k :: 0 <= k < |Corrected(us, interval)| ==> Corrected(us, interval)[k] == us - k * interval
    decreases us
  {
    if us >= 2 * interval {
      CorrectedExact(us - interval, interval);
      QuotientLess(us, interval);
      var tail := Corrected(us - interval, interval);
      forall k | 0 <= k < 1 + |tail| ensures Corrected(us, interval)[k] == us - k * interval {
        if k > 0 {
          assert tail[k - 1] == us - interval - (k - 1) * interval;
          assert (k - 1) * interval == k * interval - interval;
        }
      }
    } else if us >= interval {
      QuotientLess(us, interval);
    }
  }

  lemma QuotientLess(x: nat, d: nat)
    requires x >= d > 0
    ensures x / d == (x - d) / d + 1
    ensures x < 2 * d ==> x / d == 1
  {
    var q, r := (x - d) / d, (x - d) % d;
    assert (q + 1) * d == q * d + d;
    QuotientUnique(x, d, q + 1, r);
    if x < 2 * d { QuotientUnique(x, d, 1, x - d); }
  }

  /** What a worker keeps and updates in place. */
  class Recorder {
    const counts: array<nat>
    var total: nat
    var sum: nat
    var min: nat
    var max: nat

    ghost predicate Valid()
      reads this
    {
      counts.Length == BUCKETS
    }

    ghost function View(): Hist
      reads this, counts
    {
      Hist(counts[..], total, sum, min, max)
    }

    /** hist_reset */
    constructor ()
      ensures Valid() && fresh(counts) && View() == Of([])
    {
      counts := new nat[BUCKETS](_ => 0);
      total, sum, min, max := 0, 0, NO_MIN, 0;
      new;
      assert counts[..] == Of([]).counts;
    }

    /** hist_record */
    method Record(us: nat, ghost samples: seq<nat>)
      requires Valid() && us < Pow2(BUCKETS) && View() == Of(samples)
      modifies this, counts
      ensures Valid() && View() == Of(samples + [us])
    {
      hide Of, Bucket, Pow2, CountIn, Sum, Least, Greatest;
      var idx := Bucket(us);
      InRange(us);
      OfAppend(samples, us);
      Bump(idx);
      total := total + 1;
      sum := sum + us;
      if us < min { min := us; }
      if us > max { max := us; }
    }

    method Bump(idx: nat)
      requires Valid() && idx < BUCKETS
      modifies counts
      ensures counts[..] == old(counts[..])[idx := old(counts[idx]) + 1]
    {
      counts[idx] := counts[idx] + 1;
    }

    /** hist_record_corrected */
    method RecordCorrected(us: nat, interval: nat, ghost samples: seq<nat>)
      requires Valid() && us < Pow2(BUCKETS) && View() == Of(samples)
      modifies this, counts
      ensures Valid() && View() == Of(samples + Corrected(us, interval))
    {
      hide Of, Pow2;
      Record(us, samples);
      if interval == 0 || us <= interval { return; }
      ghost var done: seq<nat> := samples + [us];
      var extra: nat := us - interval;
      while extra >= interval
        invariant extra < us && Valid() && View() == Of(done)
        invariant samples + Corrected(us, interval) == if extra >= interval then done + Corrected(extra, interval) else done
        decreases extra
      {
        Record(extra, done);
        done := done + [extra];
        extra := extra - interval;
      }
    }

    /** hist_percentile; for a rank in the last bucket the C shift is undefined and any value may come out. */
    method Percentile(p: real, ghost samples: seq<nat>) returns (r: nat)
      requires Valid() && View() == Of(samples) && Bounded(samples, BUCKETS) && p >= 0.0
      ensures samples == [] ==> r == 0
      ensures forall k: nat :: samples != [] && IsRank(p, |samples|, k) ==>
                && (Max(k, 1) <= Below(samples, Pow2(BUCKETS - 1)) ==> IsPercentile(samples, Max(k, 1), r))
                && (k > |samples| ==> r == Greatest(samples))
    {
      assert total == |samples|;
      hide Of, Bounded, Target, IsRank, IsPercentile;
      r := PercentileAt(Target(p, total), samples);
      forall k: nat | IsRank(p, |samples|, k) ensures k == Target(p, |samples|) { RankIsTarget(p, |samples|, k); }
    }

    /** The search for the bucket of the given rank. */
    method PercentileAt(target: nat, ghost samples: seq<nat>) returns (r: nat)
      requires Valid() && View() == Of(samples) && Bounded(samples, BUCKETS)
      ensures samples == [] ==> r == 0
      ensures samples != [] && target > |samples| ==> r == Greatest(samples)
      ensures samples != [] && Max(target, 1) <= Below(samples, Pow2(BUCKETS - 1)) ==> IsPercentile(samples, Max(target, 1), r)
    {
      hide Upto, CountIn, IsPercentile, Pow2, Below, Bounded, Greatest, Sum, Least;
      assert total == |samples| && max == Greatest(samples) && counts[..] == Of(samples).counts;
      hide Of;
      if total == 0 { return 0; }
      var rank := if target == 0 then 1 else target;
      AllSeen(samples, BUCKETS);
      UptoIsBelow(samples, BUCKETS - 2, BUCKETS - 1);
      var i := FindBucket(rank, samples);
      if i == BUCKETS { return max; }
      UptoAtMost(samples, i, i + 1);
      if i + 1 == BUCKETS {
        r := *;
      } else {
        PercentileFound(samples, rank, i, i + 1);
        r := Pow2(i + 1);
      }
    }

    /** The first bucket up to which at least `rank` samples were seen, if any. */
    method FindBucket(rank: nat, ghost samples: seq<nat>) returns (i: nat)
      requires Valid() && counts[..] == Of(samples).counts && rank > 0
      ensures i <= BUCKETS && (i < BUCKETS ==> Upto(samples, i + 1) >= rank)
      ensures forall k: nat :: 1 <= k <= i ==> Upto(samples, k) < rank
    {
      hide Upto, CountIn, Of;
      var seen := 0;
      i := 0;
      assert Upto(samples, 0) == 0 by { UptoZero(samples); }
      while i < BUCKETS
        invariant 0 <= i <= BUCKETS && seen == Upto(samples, i)
        invariant forall k: nat :: 1 <= k <= i ==> Upto(samples, k) < rank
      {
        CountOf(samples, i);
        assert counts[i] == counts[..][i];
        seen := seen + counts[i];
        if seen >= rank { return; }
        i := i + 1;
      }
    }
  }

  lemma CountOf(samples: seq<nat>, i: nat)
    requires i < BUCKETS
    ensures Of(samples).counts[i] == CountIn(samples, i)
    ensures Upto(samples, i + 1) == Upto(samples, i) + CountIn(samples, i)
  {
  }

  lemma UptoZero(samples: seq<nat>)
    ensures Upto(samples, 0) == 0
  {
  }

  /** The rank p percent of the samples ask for; exact arithmetic. */
  function Target(p: real, total: nat): nat
    requires p >= 0.0
  {
    (p / 100.0 * total as real).Floor
  }

  /** k is the greatest number of samples that is at most p percent of all. */
  predicate IsRank(p: real, total: nat, k: nat) {
    100.0 * k as real <= p * total as real < 100.0 * (k + 1) as real
  }

  lemma RankIsTarget(p: real, total: nat, k: nat)
    requires p >= 0.0
    ensures IsRank(p, total, k) <==> k == Target(p, total)
  {
    var x := p / 100.0 * total as real;
    assert 100.0 * x == p * total as real;
    FloorIs(x, k);
  }

  lemma FloorIs(x: real, k: nat)
    requires x >= 0.0
    ensures k as real <= x < (k + 1) as real <==> k == x.Floor
  {
  }

  lemma RankMonotone(p: real, p': real, total: nat, k: nat, k': nat)
    requires p <= p' && IsRank(p, total, k) && IsRank(p', total, k')
    ensures k <= k'
  {
    RealMulMonotone(p, p', total as real);
  }

  lemma RealMulMonotone(a: real, b: real, k: real)
    requires a <= b && k >= 0.0
    ensures a * k <= b * k
  {
  }

  lemma OfAppend(samples: seq<nat>, us: nat)
    requires Bucket(us) < BUCKETS
    ensures var h := Of(samples);
            Of(samples + [us]) ==
              Hist(h.counts[Bucket(us) := h.counts[Bucket(us)] + 1], h.total + 1, h.sum + us,
                   if us < h.min then us else h.min, if us > h.max then us else h.max)
  {
    var more := samples + [us];
    assert more[..|more| - 1] == samples;
    hide Bucket;
    var h := Of(samples);
    var b := Bucket(us);
    assert forall j: nat :: CountIn(more, j) == CountIn(samples, j) + if b == j then 1 else 0;
    assert Sum(more) == h.sum + us;
    assert Least(more) == if us < h.min then us else h.min;
    assert Greatest(more) == if us > h.max then us else h.max;
    hide CountIn, Sum, Least, Greatest;
    assert Of(more).counts == h.counts[b := h.counts[b] + 1];
  }

  /** Minimum and maximum are bounds that are attained; the sum adds one sample at a time. */
  lemma {:induction false} EdgesExact(samples: seq<nat>)
    ensures forall i :: 0 <= i < |samples| ==> Least(samples) <= samples[i] <= Greatest(samples)
    ensures samples != [] ==> Greatest(samples) in samples
    ensures samples != [] && (forall i :: 0 <= i < |samples| ==> samples[i] < NO_MIN) ==> Least(samples) in samples
    ensures samples == [] ==> Least(samples) == NO_MIN && Greatest(samples) == 0
    decreases |samples|
  {
    if samples != [] {
      var front := samples[..|samples| - 1];
      EdgesExact(front);
      assert samples == front + [samples[|samples| - 1]];
    }
  }

  // ----------------------------------------------------------------- quantiles

  /** Samples in the first i buckets. */
  function Upto(samples: seq<nat>, i: nat): nat {
    if i == 0 then 0 else Upto(samples, i - 1) + CountIn(samples, i - 1)
  }

  lemma {:induction false} UptoAppend(samples: seq<nat>, us: nat, i: nat)
    ensures Upto(samples + [us], i) == Upto(samples, i) + if Bucket(us) < i then 1 else 0
    decreases i
  {
    hide Bucket;
    if i > 0 {
      UptoAppend(samples, us, i - 1);
      assert (samples + [us])[..|samples|] == samples;
    }
  }

  /** The first i buckets hold exactly the samples below 2^i. */
  lemma {:induction false} UptoIsBelow(samples: seq<nat>, i: nat, n: nat)
    requires n == i + 1
    ensures Upto(samples, n) == Below(samples, Pow2(n))
    decreases |samples|
  {
    if samples == [] {
      UptoEmpty(n);
    } else {
      var front, last := samples[..|samples| - 1], samples[|samples| - 1];
      UptoIsBelow(front, i, n);
      UptoAppend(front, last, n);
      assert front + [last] == samples;
      BucketBelow(last, i);
      hide Pow2, Bucket, Upto;
    }
  }

  lemma {:induction false} UptoEmpty(i: nat)
    ensures Upto([], i) == 0
  {
    if i > 0 { UptoEmpty(i - 1); }
  }

  lemma {:induction false} AllBelow(samples: seq<nat>, bits: nat)
    requires Bounded(samples, bits)
    ensures Below(samples, Pow2(bits)) == |samples|
    decreases |samples|
  {
    hide Pow2;
    if samples != [] {
      assert samples[|samples| - 1] < Pow2(bits);
      AllBelow(samples[..|samples| - 1], bits);
    }
  }

  lemma UptoAtMost(samples: seq<nat>, i: nat, n: nat)
    requires n == i + 1
    ensures Upto(samples, n) <= |samples|
  {
    UptoIsBelow(samples, i, n);
    BelowAtMost(samples, Pow2(n));
  }

  /** Samples below 2^64 are all in the 64 buckets. */
  lemma AllSeen(samples: seq<nat>, n: nat)
    requires n > 0 && Bounded(samples, n)
    ensures Upto(samples, n) == |samples|
  {
    UptoIsBelow(samples, n - 1, n);
    AllBelow(samples, n);
  }

  lemma {:induction false} BelowMonotone(samples: seq<nat>, x: nat, y: nat)
    ensures x <= y ==> Below(samples, x) <= Below(samples, y)
    decreases |samples|
  {
    if samples != [] { BelowMonotone(samples[..|samples| - 1], x, y); }
  }

  lemma {:induction false} BelowAtMost(samples: seq<nat>, x: nat)
    ensures Below(samples, x) <= |samples|
    decreases |samples|
  {
    if samples != [] { BelowAtMost(samples[..|samples| - 1], x); }
  }

  /** The least power-of-two bound with at least `rank` samples below it. */
  ghost predicate IsPercentile(samples: seq<nat>, rank: nat, r: nat) {
    exists n: nat :: n >= 1 && r == Pow2(n) && IsLeastBound(samples, rank, n)
  }

  ghost predicate IsLeastBound(samples: seq<nat>, rank: nat, n: nat) {
    Below(samples, Pow2(n)) >= rank && forall k: nat :: 1 <= k < n ==> Below(samples, Pow2(k)) < rank
  }

  lemma PercentileFound(samples: seq<nat>, rank: nat, i: nat, n: nat)
    requires n == i + 1 && Upto(samples, n) >= rank
    requires forall k: nat :: 1 <= k <= i ==> Upto(samples, k) < rank
    ensures IsPercentile(samples, rank, Pow2(n))
  {
    hide Pow2, CountIn, Below, Upto;
    UptoIsBelow(samples, i, n);
    forall k: nat | 1 <= k < n ensures Below(samples, Pow2(k)) < rank {
      assert Upto(samples, k) < rank;
      UptoIsBelow(samples, k - 1, k);
    }
    assert IsLeastBound(samples, rank, n);
  }

  /** Higher ranks never give lower percentiles, and each rank gives one. */
  lemma PercentileMonotone(samples: seq<nat>, rank: nat, rank': nat, r: nat, r': nat)
    requires rank <= rank' && IsPercentile(samples, rank, r) && IsPercentile(samples, rank', r')
    ensures r <= r'
    ensures rank == rank' ==> r == r'
  {
    var n: nat :| n >= 1 && r == Pow2(n) && IsLeastBound(samples, rank, n);
    var n': nat :| n' >= 1 && r' == Pow2(n') && IsLeastBound(samples, rank', n');
    hide Pow2, Below;
    assert Below(samples, Pow2(n')) >= rank';
    Pow2Monotone(n, n');
    if rank == rank' {
      assert Below(samples, Pow2(n)) >= rank;
      Pow2Monotone(n', n);
    }
  }

  /** The reported percentile is monotone in p. */
  lemma PercentilesOrdered(samples: seq<nat>, p: real, p': real, k: nat, k': nat, r: nat, r': nat)
    requires p <= p' && IsRank(p, |samples|, k) && IsRank(p', |samples|, k')
    requires IsPercentile(samples, Max(k, 1), r) && IsPercentile(samples, Max(k', 1), r')
    ensures r <= r'
  {
    RankMonotone(p, p', |samples|, k, k');
    hide IsPercentile, IsRank;
    PercentileMonotone(samples, Max(k, 1), Max(k', 1), r, r');
  }

  /**
   * What the reported value says about the samples: with one sample more, those
   * below it are more than p percent, while below half of it there are at most p percent even with one more (or none).
   */
  lemma PercentileMeans(samples: seq<nat>, p: real, k: nat, r: nat)
    requires IsRank(p, |samples|, k) && IsPercentile(samples, Max(k, 1), r)
    ensures 100.0 * (Below(samples, r) + 1) as real > p * |samples| as real
    ensures r == 2 || Below(samples, r / 2) == 0 || 100.0 * (Below(samples, r / 2) + 1) as real <= p * |samples| as real
  {
    var n: nat :| n >= 1 && r == Pow2(n) && IsLeastBound(samples, Max(k, 1), n);
    assert Pow2(n) == 2 * Pow2(n - 1) && (n == 1 ==> Pow2(n) == 2);
    hide Below, Pow2;
    assert Below(samples, r) >= k;
    if n > 1 {
      assert Below(samples, Pow2(n - 1)) < Max(k, 1);
      assert r / 2 == Pow2(n - 1);
    }
  }

  /**
   * Accuracy: the reported percentile is above the true sample of that rank
   * and at most twice it (twice 1 for smaller samples).
   */
  lemma PercentileAccurate(samples: seq<nat>, rank: nat, r: nat, x: nat)
    requires rank > 0 && IsPercentile(samples, rank, r)
    requires Below(samples, x) < rank <= Below(samples, x + 1)
    ensures x < r <= 2 * (if x > 1 then x else 1)
  {
    var n: nat :| n >= 1 && r == Pow2(n) && IsLeastBound(samples, rank, n);
    BelowMonotone(samples, r, x);
    BelowMonotone(samples, x + 1, Pow2(n - 1));
    assert n > 1 ==> Below(samples, Pow2(n - 1)) < rank;
    assert Pow2(n) == 2 * Pow2(n - 1);
    assert n == 1 ==> Pow2(n) == 2;
    hide Below;
  }

  /** The same for p: the sample x of the rank p percent ask for. */
  lemma PercentileAccurateFor(samples: seq<nat>, p: real, k: nat, r: nat, x: nat)
    requires IsRank(p, |samples|, k) && IsPercentile(samples, Max(k, 1), r)
    requires Below(samples, x) < Max(k, 1) <= Below(samples, x + 1)
    ensures x < r <= 2 * (if x > 1 then x else 1)
    ensures Below(samples, x) == 0 || 100.0 * (Below(samples, x) + 1) as real <= p * |samples| as real
    ensures 100.0 * (Below(samples, x + 1) + 1) as real > p * |samples| as real
  {
    hide Below, IsPercentile;
    PercentileAccurate(samples, Max(k, 1), r, x);
  }

  // --------------------------------------------------------------------- merge

  function Flatten(all: seq<seq<nat>>): seq<nat> {
    if all == [] then [] else Flatten(all[..|all| - 1]) + all[|all| - 1]
  }

  /** Adding one worker's histogram to the snapshot. */
  function Merge(h: Hist, g: Hist): (m: Hist)
    requires |h.counts| == |g.counts| == BUCKETS
    ensures |m.counts| == BUCKETS
  {
    Hist(seq(BUCKETS, b requires 0 <= b < BUCKETS => h.counts[b] + g.counts[b]),
         h.total + Total(g.counts, BUCKETS), h.sum + g.sum,
         if g.min < h.min then g.min else h.min, if g.max > h.max then g.max else h.max)
  }

  function Total(counts: seq<nat>, n: nat): nat
    requires n <= |counts|
  {
    if n == 0 then 0 else Total(counts, n - 1) + counts[n - 1]
  }

  lemma {:induction false} TotalIsUpto(samples: seq<nat>, n: nat)
    requires n <= BUCKETS
    ensures Total(Of(samples).counts, n) == Upto(samples, n)
  {
    if n > 0 { TotalIsUpto(samples, n - 1); }
  }

  lemma {:induction false} ConcatCounts(a: seq<nat>, b: seq<nat>, k: nat)
    ensures CountIn(a + b, k) == CountIn(a, k) + CountIn(b, k)
    ensures Sum(a + b) == Sum(a) + Sum(b)
    ensures Least(a + b) == if Least(b) < Least(a) then Least(b) else Least(a)
    ensures Greatest(a + b) == if Greatest(b) > Greatest(a) then Greatest(b) else Greatest(a)
    decreases |b|
  {
    hide Bucket;
    if b == [] {
      assert a + b == a;
      EdgesOf(a);
    } else {
      ConcatCounts(a, b[..|b| - 1], k);
      assert (a + b)[..|a + b| - 1] == a + b[..|b| - 1];
    }
  }

  lemma {:induction false} EdgesOf(a: seq<nat>)
    ensures Least(a) <= NO_MIN
    decreases |a|
  {
    if a != [] { EdgesOf(a[..|a| - 1]); }
  }

  /** Merging two workers' histograms gives the histogram of both their samples. */
  lemma MergeIsUnion(a: seq<nat>, b: seq<nat>)
    requires Bounded(b, BUCKETS)
    ensures Merge(Of(a), Of(b)) == Of(a + b)
  {
    TotalIsUpto(b, BUCKETS);
    AllSeen(b, BUCKETS);
    forall k: nat | k < BUCKETS ensures CountIn(a + b, k) == CountIn(a, k) + CountIn(b, k) { ConcatCounts(a, b, k); }
    ConcatCounts(a, b, 0);
    hide CountIn, Sum, Least, Greatest, Upto, Total, Pow2;
    assert Merge(Of(a), Of(b)).counts == Of(a + b).counts;
  }

  /** The histogram part of metrics_snapshot: the histogram of all workers' samples together. */
  method Snapshot(hists: seq<Hist>, ghost samples: seq<seq<nat>>) returns (snap: Hist)
    requires |hists| == |samples|
    requires forall w :: 0 <= w < |hists| ==> hists[w] == Of(samples[w]) && Bounded(samples[w], BUCKETS)
    ensures snap == Of(Flatten(samples))
  {
    snap := Hist(seq(BUCKETS, _ => 0), 0, 0, NO_MIN, 0);
    assert snap == Of([]) by { assert snap.counts == Of([]).counts; }
    assert samples[..0] == [];
    hide Of, Bounded;
    var w := 0;
    while w < |hists|
      invariant 0 <= w <= |hists| && snap == Of(Flatten(samples[..w]))
    {
      snap := AddWorker(snap, hists[w]);
      MergeIsUnion(Flatten(samples[..w]), samples[w]);
      assert samples[..w + 1][..w] == samples[..w];
      w := w + 1;
    }
    assert samples[..w] == samples;
  }

  /** The inner loop over buckets, and the worker's sum, minimum and maximum. */
  method AddWorker(snap: Hist, h: Hist) returns (m: Hist)
    requires |snap.counts| == |h.counts| == BUCKETS
    ensures m == Merge(snap, h)
  {
    m := snap;
    var b := 0;
    while b < BUCKETS
      invariant 0 <= b <= BUCKETS && |m.counts| == BUCKETS
      invariant m == snap.(counts := m.counts, total := snap.total + Total(h.counts, b))
      invariant forall k :: 0 <= k < BUCKETS ==> m.counts[k] == snap.counts[k] + if k < b then h.counts[k] else 0
    {
      m := m.(counts := m.counts[b := m.counts[b] + h.counts[b]], total := m.total + h.counts[b]);
      b := b + 1;
    }
    m := m.(sum := m.sum + h.sum);
    if h.min < m.min { m := m.(min := h.min); }
    if h.max > m.max { m := m.(max := h.max); }
    assert m.counts == Merge(snap, h).counts;
  }
}
