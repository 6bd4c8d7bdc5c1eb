/** The auto-level rule of the brightness/contrast widget: from a histogram of
    bin counts, the running count is formed and the window is read off at the
    first bin whose running count reaches 1% of the total and the first that
    reaches 99%. Percentages are exact rationals here. */
module AutoLevel {
  import opened Wrappers

  /** The sum of all counts. */
  function Sum(s: seq<nat>): nat
  {
    if s == [] then 0 else Sum(s[..|s| - 1]) + s[|s| - 1]
  }

  /** The running count through bin i: the sum of bins 0..i. */
  function Running(s: seq<nat>, i: nat): nat
    requires i < |s|
  {
    Sum(s[..i + 1])
  }

  /** The running count of a prefix agrees with that of the whole sequence. */
  lemma RunningOfPrefix(s: seq<nat>, n: nat)
    requires n <= |s|
    ensures forall i :: 0 <= i < n ==> Running(s[..n], i) == Running(s, i)
  {
    forall i | 0 <= i < n
      ensures Running(s[..n], i) == Running(s, i)
    {
      assert s[..n][..i + 1] == s[..i + 1];
    }
  }

  /** np.cumsum: each entry adds the next bin to the entry before it. */
  function CumSum(s: seq<nat>): (c: seq<nat>)
    ensures |c| == |s|
    ensures forall i :: 0 <= i < |s| ==> c[i] == Running(s, i)
  {
    if s == [] then []
    else
      var init := s[..|s| - 1];
      var prefix := CumSum(init);
      RunningOfPrefix(s, |s| - 1);
      assert s[..|s|] == s && init[..|init|] == init;
      var last := (if prefix == [] then 0 else prefix[|prefix| - 1]) + s[|s| - 1];
      assert last == Sum(init) + s[|s| - 1] == Running(s, |s| - 1);
      var c := prefix + [last];
      assert forall i :: 0 <= i < |s| - 1 ==> c[i] == prefix[i] == Running(s, i);
      c
  }

  /** A prefix never sums to more than a longer prefix. */
  lemma {:induction false} SumMonotone(s: seq<nat>, i: nat, j: nat)
    requires i <= j <= |s|
    ensures Sum(s[..i]) <= Sum(s[..j])
    decreases j - i
  {
    if i < j {
      SumMonotone(s, i, j - 1);
      assert s[..j][..j - 1] == s[..j - 1];
    }
  }

  /** The running count is non-decreasing and ends at the total. */
  lemma RunningSorted(s: seq<nat>)
    ensures forall i, j :: 0 <= i <= j < |s| ==> Running(s, i) <= Running(s, j)
    ensures |s| > 0 ==> Running(s, |s| - 1) == Sum(s)
  {
    forall i, j | 0 <= i <= j < |s|
      ensures Running(s, i) <= Running(s, j)
    {
      SumMonotone(s, i + 1, j + 1);
    }
    assert s[..|s|] == s;
  }

  /** Left-side sorted search: the first index whose entry is at least v, or
      |a| when there is none. On a non-decreasing sequence this is also the
      number of entries below v, which is what a binary search returns. */
  function SearchSortedLeft(a: seq<nat>, v: real): (i: nat)
    ensures i <= |a|
    ensures forall j :: 0 <= j < i ==> (a[j] as real) < v
    ensures i < |a| ==> (a[i] as real) >= v
  {
    if a == [] then 0
    else if (a[0] as real) >= v then 0
    else 1 + SearchSortedLeft(a[1..], v)
  }

  /** Bin k is the first whose running count reaches the threshold v. */
  ghost predicate FirstReaching(counts: seq<nat>, v: real, k: int)
  {
    && 0 <= k < |counts|
    && Running(counts, k) as real >= v
    && forall j :: 0 <= j < k ==> (Running(counts, j) as real) < v
  }

  /** Searching the running count for a threshold no larger than the total
      finds the first bin reaching it; there is one because the running count
      ends at the total. */
  lemma SearchFindsFirstReaching(counts: seq<nat>, v: real)
    requires |counts| > 0 && v <= Sum(counts) as real
    ensures FirstReaching(counts, v, SearchSortedLeft(CumSum(counts), v))
  {
    RunningSorted(counts);
    var cum := CumSum(counts);
    assert cum[|cum| - 1] as real >= v;
    var k := SearchSortedLeft(cum, v);
    assert k < |counts|;
  }

  /** A lower threshold is reached no later than a higher one. */
  lemma FirstReachingMonotone(counts: seq<nat>, v: real, w: real, k1: int, k2: int)
    requires v <= w
    requires FirstReaching(counts, v, k1) && FirstReaching(counts, w, k2)
    ensures k1 <= k2
  {
  }

  /** _on_auto_clicked's window (lower, upper), or None when the histogram
      holds no pixels. The histogram must have at least one bin: the running
      count's last entry is read. */
  function AutoLevels(counts: seq<nat>): (r: Option<(nat, nat)>)
    requires |counts| > 0
    ensures r.None? <==> Sum(counts) == 0
    ensures r.Some? ==> FirstReaching(counts, Sum(counts) as real * 0.01, r.value.0)
    ensures r.Some? ==> FirstReaching(counts, Sum(counts) as real * 0.99, r.value.1)
    ensures r.Some? ==> r.value.0 <= r.value.1 < |counts|
  {
    var cum := CumSum(counts);
    var total := cum[|cum| - 1];
    RunningSorted(counts);
    if total > 0 then
      var lo := SearchSortedLeft(cum, total as real * 0.01);
      var hi := SearchSortedLeft(cum, total as real * 0.99);
      SearchFindsFirstReaching(counts, total as real * 0.01);
      SearchFindsFirstReaching(counts, total as real * 0.99);
      FirstReachingMonotone(counts, total as real * 0.01, total as real * 0.99, lo, hi);
      Some((lo, hi))
    else
      None
  }

  /** An all-zero histogram leaves the window alone: there is no auto window. */
  lemma AllZeroHasNoWindow(counts: seq<nat>)
    requires |counts| > 0
    ensures AutoLevels(counts).None? <==> forall i :: 0 <= i < |counts| ==> counts[i] == 0
  {
    ZeroSum(counts);
  }

  /** The total is zero exactly when every bin is empty. */
  lemma {:induction false} ZeroSum(s: seq<nat>)
    ensures Sum(s) == 0 <==> forall i :: 0 <= i < |s| ==> s[i] == 0
  {
    if s != [] {
      ZeroSum(s[..|s| - 1]);
    }
  }

  /** A histogram whose whole mass sits in bin k yields the window (k, k):
      the lower bound can meet the upper bound. */
  lemma OneBinWindow(counts: seq<nat>, k: nat)
    requires k < |counts| && counts[k] > 0
    requires forall i :: 0 <= i < |counts| && i != k ==> counts[i] == 0
    ensures AutoLevels(counts) == Some((k, k))
  {
    EmptyBefore(counts, k);
    MassAt(counts, k, |counts|);
    MassAt(counts, k, k + 1);
    assert counts[..|counts|] == counts;
    var t := Sum(counts) as real;
    assert FirstReaching(counts, t * 0.01, k);
    assert FirstReaching(counts, t * 0.99, k);
    var r := AutoLevels(counts);
    assert r.Some?;
    Unique(counts, t * 0.01, r.value.0, k);
    Unique(counts, t * 0.99, r.value.1, k);
  }

  /** Bins before k are empty, so every prefix ending before k sums to zero. */
  lemma {:induction false} EmptyBefore(counts: seq<nat>, k: nat)
    requires k <= |counts|
    requires forall i :: 0 <= i < k ==> counts[i] == 0
    ensures forall j :: 0 <= j < k ==> Running(counts, j) == 0
  {
    if k > 0 {
      EmptyBefore(counts, k - 1);
      assert counts[..k][..k - 1] == counts[..k - 1];
      assert k == 1 ==> counts[..k - 1] == [];
      assert k > 1 ==> Running(counts, k - 2) == Sum(counts[..k - 1]);
      assert Running(counts, k - 1) == Sum(counts[..k]) == Sum(counts[..k - 1]) + counts[k - 1];
    }
  }

  /** With all mass in bin k, every prefix through bin k holds exactly bin k's count. */
  lemma {:induction false} MassAt(counts: seq<nat>, k: nat, n: nat)
    requires k < n <= |counts|
    requires forall i :: 0 <= i < |counts| && i != k ==> counts[i] == 0
    ensures Sum(counts[..n]) == counts[k]
  {
    assert counts[..n][..n - 1] == counts[..n - 1];
    if n - 1 > k {
      MassAt(counts, k, n - 1);
    } else {
      EmptyBefore(counts, k);
      if k > 0 {
        assert Running(counts, k - 1) == 0;
      }
    }
  }

  /** There is only one first bin reaching a given fraction. */
  lemma Unique(counts: seq<nat>, v: real, k1: int, k2: int)
    requires FirstReaching(counts, v, k1) && FirstReaching(counts, v, k2)
    ensures k1 == k2
  {
  }
}
