/** Latency summaries: the nearest-rank percentile of a sorted sample, in both places that compute it. */
module Percentiles {
  import opened Common

  const PERCENTILE_BASE := 100
  const PERCENTILE_P50 := 50
  const PERCENTILE_P95 := 95

  datatype Summary = Summary(samples: nat, p50: real, p95: real, max: real)

  predicate Sorted(s: seq<real>) {
    forall i, j :: 0 <= i < j < |s| ==> s[i] <= s[j]
  }

  function CountAtMost(s: seq<real>, v: real): nat {
    if s == [] then 0 else CountAtMost(s[1..], v) + if s[0] <= v then 1 else 0
  }

  lemma {:induction false} CountsLast(s: seq<real>, x: real, v: real)
    ensures CountAtMost(s + [x], v) == CountAtMost(s, v) + if x <= v then 1 else 0
  {
    if s != [] {
      CountsLast(s[1..], x, v);
      assert (s + [x])[1..] == s[1..] + [x];
    }
  }

  /** The places that hold at most `v`. */
  ghost function PlacesAtMost(s: seq<real>, v: real): set<nat> {
    set i: nat | i < |s| && s[i] <= v
  }

  lemma {:induction false} CountsPlaces(s: seq<real>, v: real)
    ensures CountAtMost(s, v) == |PlacesAtMost(s, v)|
  {
    if s != [] {
      var n := |s| - 1;
      assert s == s[..n] + [s[n]];
      CountsLast(s[..n], s[n], v);
      CountsPlaces(s[..n], v);
      LastPlace(s[..n], s[n], v);
    }
  }

  lemma LastPlace(s: seq<real>, x: real, v: real)
    ensures |PlacesAtMost(s + [x], v)| == |PlacesAtMost(s, v)| + if x <= v then 1 else 0
  {
    var before := PlacesAtMost(s, v);
    assert PlacesAtMost(s + [x], v) == if x <= v then before + {|s|} else before;
  }

  function Insert(s: seq<real>, x: real): (r: seq<real>)
    ensures |r| == |s| + 1
  {
    if s == [] || x <= s[0] then [x] + s else [s[0]] + Insert(s[1..], x)
  }

  /** sort.Float64s. */
  function Sort(s: seq<real>): (r: seq<real>)
    ensures |r| == |s|
  {
    if s == [] then [] else Insert(Sort(s[1..]), s[0])
  }

  lemma {:induction false} InsertSorted(s: seq<real>, x: real)
    requires Sorted(s)
    ensures Sorted(Insert(s, x)) && multiset(Insert(s, x)) == multiset(s) + multiset{x}
  {
    if s != [] && x > s[0] {
      var head, tail := s[0], s[1..];
      TailIsSorted(s);
      InsertSorted(tail, x);
      var rest := Insert(tail, x);
      HeadStaysLeast(head, tail, x, rest);
    }
  }

  lemma TailIsSorted(s: seq<real>)
    requires Sorted(s) && s != []
    ensures Sorted(s[1..]) && s == [s[0]] + s[1..] && forall i :: 0 <= i < |s[1..]| ==> s[0] <= s[1..][i]
  {}

  lemma HeadStaysLeast(head: real, tail: seq<real>, x: real, rest: seq<real>)
    requires head <= x && forall i :: 0 <= i < |tail| ==> head <= tail[i]
    requires Sorted(rest) && multiset(rest) == multiset(tail) + multiset{x}
    ensures Sorted([head] + rest)
  {
    forall i | 0 <= i < |rest| ensures head <= rest[i] {
      assert rest[i] in multiset(tail) + multiset{x};
      if rest[i] != x {
        assert rest[i] in tail;
      }
    }
  }

  lemma {:induction false} SortSorts(s: seq<real>)
    ensures Sorted(Sort(s)) && multiset(Sort(s)) == multiset(s)
  {
    if s != [] {
      SortSorts(s[1..]);
      InsertSorted(Sort(s[1..]), s[0]);
      assert s == [s[0]] + s[1..];
    }
  }

  lemma {:induction false} InsertCounts(s: seq<real>, x: real, v: real)
    ensures CountAtMost(Insert(s, x), v) == CountAtMost(s, v) + if x <= v then 1 else 0
  {
    if s == [] || x <= s[0] {
      assert ([x] + s)[1..] == s;
    } else {
      InsertCounts(s[1..], x, v);
      assert ([s[0]] + Insert(s[1..], x))[1..] == Insert(s[1..], x);
    }
  }

  /** Sorting does not change how many samples are at most a value. */
  lemma {:induction false} SortCounts(s: seq<real>, v: real)
    ensures CountAtMost(Sort(s), v) == CountAtMost(s, v)
  {
    if s != [] {
      SortCounts(s[1..], v);
      InsertCounts(Sort(s[1..]), s[0], v);
    }
  }

  lemma {:induction false} CountBelow(s: seq<real>, k: nat, v: real)
    requires Sorted(s) && k < |s|
    ensures v >= s[k] ==> CountAtMost(s, v) >= k + 1
    ensures v < s[k] ==> CountAtMost(s, v) <= k
  {
    if k > 0 {
      assert s[1..][k - 1] == s[k];
      CountBelow(s[1..], k - 1, v);
    } else if v < s[0] {
      NoneBelow(s, v);
    }
  }

  lemma {:induction false} NoneBelow(s: seq<real>, v: real)
    requires forall i :: 0 <= i < |s| ==> v < s[i]
    ensures CountAtMost(s, v) == 0
  {
    if s != [] {
      NoneBelow(s[1..], v);
    }
  }

  function Rank(n: int, percent: int): int {
    Max((n * percent + PERCENTILE_BASE - 1) / PERCENTILE_BASE, 1)
  }

  /** The rank is the least one at which the given percentage of the sample is reached, and it is in bounds. */
  lemma RankIsLeast(n: int, percent: int)
    requires n > 0 && 0 < percent <= 100
    ensures 1 <= Rank(n, percent) <= n
    ensures 100 * Rank(n, percent) >= percent * n > 100 * (Rank(n, percent) - 1)
  {
    assert n * percent <= n * 100;
    assert n * percent >= 1;
  }

  /** percentile. */
  function Percentile(sorted: seq<real>, percent: int): real
    requires |sorted| > 0 && 0 < percent <= 100
  {
    RankIsLeast(|sorted|, percent);
    sorted[Rank(|sorted|, percent) - 1]
  }

  /**
   The percentile of a sample is one of its values, and the least value of all such that at least the
   given percentage of the sample is no larger.
   */
  lemma NearestRank(sample: seq<real>, percent: int)
    requires |sample| > 0 && 0 < percent <= 100
    ensures var v := Percentile(Sort(sample), percent);
            && v in sample
            && 100 * CountAtMost(sample, v) >= percent * |sample|
            && forall u: real :: 100 * CountAtMost(sample, u) >= percent * |sample| ==> v <= u
  {
    var sorted := Sort(sample);
    SortSorts(sample);
    RankIsLeast(|sample|, percent);
    var k := Rank(|sample|, percent) - 1;
    var v := sorted[k];
    assert v in multiset(sorted);
    SortCounts(sample, v);
    CountBelow(sorted, k, v);
    forall u: real | 100 * CountAtMost(sample, u) >= percent * |sample| ensures v <= u {
      SortCounts(sample, u);
      CountBelow(sorted, k, u);
    }
  }

  method Summarize(values: seq<real>) returns (r: Summary)
    ensures r.samples == |values|
    ensures |values| == 0 ==> r == Summary(0, 0.0, 0.0, 0.0)
    ensures |values| > 0 ==>
              && (forall u: real :: 100 * CountAtMost(values, u) >= 95 * |values| <==> r.p95 <= u)
              && (forall u: real :: 2 * CountAtMost(values, u) >= |values| <==> r.p50 <= u)
              && r.p50 in values && r.p95 in values && r.max in values
              && (forall v :: v in values ==> v <= r.max) && r.p50 <= r.p95 <= r.max
  {
    if |values| == 0 {
      return Summary(0, 0.0, 0.0, 0.0);
    }
    var sorted := Sort(values);
    SortSorts(values);
    NearestRank(values, PERCENTILE_P50);
    NearestRank(values, PERCENTILE_P95);
    r := Summary(|sorted|, Percentile(sorted, PERCENTILE_P50), Percentile(sorted, PERCENTILE_P95), sorted[|sorted| - 1]);
    forall v | v in values ensures v <= r.max {
      assert v in multiset(values);
      assert v in multiset(sorted);
      var i :| 0 <= i < |sorted| && sorted[i] == v;
    }
    assert r.max in multiset(sorted);
    forall u: real ensures 100 * CountAtMost(values, u) >= 95 * |values| <==> r.p95 <= u {
      CountGrows(values, r.p95, u);
    }
    forall u: real ensures 2 * CountAtMost(values, u) >= |values| <==> r.p50 <= u {
      CountGrows(values, r.p50, u);
    }
  }

  lemma {:induction false} CountGrows(s: seq<real>, v: real, u: real)
    ensures v <= u ==> CountAtMost(s, v) <= CountAtMost(s, u)
  {
    if s != [] {
      CountGrows(s[1..], v, u);
    }
  }

  /** The index arithmetic of the search acceptance gate picks the same sample. */
  method SearchP95Index(n: nat) returns (index: int)
    requires n > 0
    ensures 0 <= index < n && index == Rank(n, PERCENTILE_P95) - 1
  {
    RankIsLeast(n, PERCENTILE_P95);
    index := (n * PERCENTILE_P95 + PERCENTILE_BASE - 1) / PERCENTILE_BASE;
    if index > 0 {
      index := index - 1;
    }
  }
}
