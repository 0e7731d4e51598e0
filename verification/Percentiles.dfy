/** The nearest-rank percentile of the network benchmark, and the rank another tool uses under
    the same name. */
module Percentiles {

  /** `_percentile_95` of the benchmark, on the number of samples. */
  function NearestRank(n: nat): int {
    var last, rank := n as int - 1, (95 * n + 99) / 100 - 1;
    var bounded := if rank < last then rank else last;
    if bounded > 0 then bounded else 0
  }

  /** `_percentile_95` of the recognition experiment. */
  function TruncatedRank(n: nat): int {
    var rank := 95 * n / 100 - 1;
    if rank > 0 then rank else 0
  }

  /** At least 95 percent of `n` ordered samples lie at or before the index. */
  predicate Covers(n: nat, index: int) { 100 * (index + 1) >= 95 * n }

  /** The benchmark's index is the first that covers 95 percent. */
  lemma NearestRankIsFirst(n: nat, index: int)
    requires n > 0 && 0 <= index < n
    ensures 0 <= NearestRank(n) < n
    ensures Covers(n, index) <==> NearestRank(n) <= index
  {
  }

  lemma Hundreds(a: nat, x: nat)
    ensures (100 * a + x) / 100 == a + x / 100
  {
  }

  /** The experiment's index covers 95 percent exactly for a single sample and for multiples of
      twenty; otherwise it names a smaller sample than the percentile. */
  lemma TruncatedRankCoversExactly(n: nat)
    requires n > 0
    ensures 0 <= TruncatedRank(n) <= NearestRank(n) < n
    ensures Covers(n, TruncatedRank(n)) <==> n == 1 || n % 20 == 0
    ensures TruncatedRank(n) == NearestRank(n) <==> Covers(n, TruncatedRank(n))
  {
    var q, r := n / 20, n % 20;
    Hundreds(19 * q, 95 * r);
    Hundreds(19 * q, 95 * r + 99);
    assert 95 * n == 100 * (19 * q) + 95 * r;
  }

  predicate Ordered(samples: seq<int>) { forall i, j :: 0 <= i < j < |samples| ==> samples[i] <= samples[j] }

  function AtMost(samples: seq<int>, v: int): nat {
    if samples == [] then 0
    else AtMost(samples[..|samples| - 1], v) + if samples[|samples| - 1] <= v then 1 else 0
  }

  lemma {:induction false} AtMostAtLeast(samples: seq<int>, v: int, k: nat)
    requires k <= |samples| && forall i :: 0 <= i < k ==> samples[i] <= v
    ensures AtMost(samples, v) >= k
  {
    if samples != [] && k > 0 {
      var init := samples[..|samples| - 1];
      AtMostAtLeast(init, v, if k == |samples| then k - 1 else k);
    }
  }

  lemma {:induction false} AtMostBelow(samples: seq<int>, v: int, k: nat)
    requires k <= |samples| && forall i :: k <= i < |samples| ==> samples[i] > v
    ensures AtMost(samples, v) <= k
  {
    if samples != [] {
      var init := samples[..|samples| - 1];
      AtMostBelow(init, v, if k == |samples| then k - 1 else k);
    }
  }

  /** What the benchmark reports is the smallest value that at least 95 percent of the samples
      do not exceed. */
  lemma NearestRankIsPercentile(samples: seq<int>, v: int)
    requires samples != [] && Ordered(samples)
    ensures 0 <= NearestRank(|samples|) < |samples|
    ensures 100 * AtMost(samples, samples[NearestRank(|samples|)]) >= 95 * |samples|
    ensures v < samples[NearestRank(|samples|)] ==> 100 * AtMost(samples, v) < 95 * |samples|
  {
    var r := NearestRank(|samples|);
    NearestRankIsFirst(|samples|, 0);
    NearestRankIsFirst(|samples|, r);
    AtMostAtLeast(samples, samples[r], r + 1);
    if v < samples[r] {
      AtMostBelow(samples, v, r);
      if r > 0 { NearestRankIsFirst(|samples|, r - 1); }
    }
  }
}
