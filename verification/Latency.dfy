/** The rolling p99 of `HealthTracker::record_latency_sample`. */
module Latency {
  import opened Prelude

  const SAMPLE_LIMIT: nat := 128

  function CompareNat(a: nat, b: nat): Ordering { CompareInt(a, b) }

  /** The window after one more sample. */
  function Push(samples: seq<nat>, latency: nat): seq<nat> {
    (if |samples| == SAMPLE_LIMIT then samples[1..] else samples) + [latency]
  }

  /** `((len - 1) as f64 * 0.99).round() as usize` */
  function Index(len: nat): (i: nat)
    requires len > 0
    ensures i < len
    ensures 0.99 * (len - 1) as real - 0.5 < i as real <= 0.99 * (len - 1) as real + 0.5
  {
    ((len - 1) as real * 0.99 + 0.5).Floor
  }

  function P99(samples: seq<nat>): nat
    requires samples != []
  {
    Sort(CompareNat, samples)[Index(|samples|)]
  }

  /** The window after a whole history of results. */
  function Window(history: seq<nat>): seq<nat> {
    if history == [] then [] else Push(Window(history[..|history| - 1]), history[|history| - 1])
  }

  function Least(a: nat, b: nat): nat { if a <= b then a else b }

  /** The window holds exactly the last 128 latencies, or all of them while there are fewer. */
  lemma {:induction false} WindowIsRecent(history: seq<nat>)
    ensures |Window(history)| == Least(|history|, 128)
    ensures Window(history) == history[|history| - |Window(history)|..]
  {
    if history != [] {
      WindowIsRecent(history[..|history| - 1]);
    }
  }

  // ----- order statistics -----

  function CountAtMost(s: seq<nat>, x: nat): nat {
    if s == [] then 0 else (if s[0] <= x then 1 else 0) + CountAtMost(s[1..], x)
  }

  function CountAtLeast(s: seq<nat>, x: nat): nat {
    if s == [] then 0 else (if s[0] >= x then 1 else 0) + CountAtLeast(s[1..], x)
  }

  /** `x` is a member with at least `k` others not above it and at least `|s| - 1 - k` not below it. */
  ghost predicate IsOrderStatistic(s: seq<nat>, k: nat, x: nat) {
    x in s && k < |s| && CountAtMost(s, x) >= k + 1 && CountAtLeast(s, x) >= |s| - k
  }

  lemma {:induction false} CountInsert(v: nat, s: seq<nat>, x: nat)
    ensures var r := Insert(CompareNat, v, s);
            CountAtMost(r, x) == CountAtMost(s, x) + (if v <= x then 1 else 0) &&
            CountAtLeast(r, x) == CountAtLeast(s, x) + if v >= x then 1 else 0
  {
    if s != [] {
      CountInsert(v, s[1..], x);
      assert ([v] + s)[1..] == s;
      var tail := Insert(CompareNat, v, s[1..]);
      assert ([s[0]] + tail)[1..] == tail;
    }
  }

  lemma {:induction false} CountSort(s: seq<nat>, x: nat)
    ensures CountAtMost(Sort(CompareNat, s), x) == CountAtMost(s, x)
    ensures CountAtLeast(Sort(CompareNat, s), x) == CountAtLeast(s, x)
  {
    if s != [] {
      CountSort(s[1..], x);
      CountInsert(s[0], Sort(CompareNat, s[1..]), x);
    }
  }

  lemma {:induction false} CountSorted(s: seq<nat>, k: nat, x: nat)
    requires Sorted(CompareNat, s)
    ensures k < |s| && s[k] <= x ==> CountAtMost(s, x) >= k + 1
    ensures k < |s| && x <= s[k] ==> CountAtLeast(s, x) >= |s| - k
  {
    if s != [] {
      assert forall i, j :: 0 <= i < j < |s[1..]| ==>
          CompareNat(s[1..][i], s[1..][j]) == CompareNat(s[i + 1], s[j + 1]);
      CountSorted(s[1..], if k > 0 then k - 1 else 0, x);
      if 0 < k < |s| {
        assert CompareNat(s[0], s[k]) != GT;
        assert s[1..][k - 1] == s[k];
      } else if k == 0 && |s| > 1 {
        assert CompareNat(s[0], s[1]) != GT;
      }
    }
  }

  lemma {:induction false} CountDisjoint(s: seq<nat>, x: nat, y: nat)
    requires x < y
    ensures CountAtMost(s, x) + CountAtLeast(s, y) <= |s|
  {
    if s != [] {
      CountDisjoint(s[1..], x, y);
    }
  }

  /** There is only one k-th order statistic. */
  lemma OrderStatisticUnique(s: seq<nat>, k: nat, x: nat, y: nat)
    requires IsOrderStatistic(s, k, x) && IsOrderStatistic(s, k, y)
    ensures x == y
  {
    CountDisjoint(s, x, if x < y then y else x + 1);
    CountDisjoint(s, y, if y < x then x else y + 1);
  }

  lemma NatOrder()
    ensures TotalOrder(CompareNat)
  {
  }

  lemma SortedPick(s: seq<nat>, k: nat)
    requires k < |s|
    ensures IsOrderStatistic(s, k, Sort(CompareNat, s)[k])
  {
    hide Sort, CountAtMost, CountAtLeast, TotalOrder;
    var sorted := Sort(CompareNat, s);
    NatOrder();
    SortSorted(CompareNat, s);
    var x := sorted[k];
    assert x in multiset(sorted);
    CountSorted(sorted, k, x);
    CountSort(s, x);
  }

  /** After any history the reported p99 is the order statistic at round(0.99 (n - 1)) of the last n latencies. */
  lemma P99Meaning(history: seq<nat>)
    requires history != []
    ensures var n := Least(|history|, 128);
            IsOrderStatistic(history[|history| - n..], Index(n), P99(Window(history)))
  {
    WindowIsRecent(history);
    var window := Window(history);
    SortedPick(window, Index(|window|));
  }
}
