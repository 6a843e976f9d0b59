/** The sliding median filter, and what its output says about the window. */
module MedianFilter {
  import opened Arithmetic
  import opened Sequences

  // ---- counting and sorting ----

  function Below(s: seq<int>, v: int): nat {
    if s == [] then 0 else Below(s[..|s| - 1], v) + if s[|s| - 1] < v then 1 else 0
  }

  function AtMost(s: seq<int>, v: int): nat {
    Below(s, v + 1)
  }

  lemma {:induction false} BelowAppend(s: seq<int>, t: seq<int>, v: int)
    ensures Below(s + t, v) == Below(s, v) + Below(t, v)
  {
    if t == [] {
      assert s + t == s;
    } else {
      assert (s + t)[..|s + t| - 1] == s + t[..|t| - 1];
      BelowAppend(s, t[..|t| - 1], v);
    }
  }

  lemma {:induction false} BelowBounds(s: seq<int>, v: int)
    ensures Below(s, v) <= |s|
    ensures (forall i :: 0 <= i < |s| ==> s[i] < v) ==> Below(s, v) == |s|
    ensures (forall i :: 0 <= i < |s| ==> s[i] >= v) ==> Below(s, v) == 0
  {
    if s != [] {
      BelowBounds(s[..|s| - 1], v);
    }
  }

  lemma {:induction false} BelowMonotone(s: seq<int>, v: int, w: int)
    requires v <= w
    ensures Below(s, v) <= Below(s, w)
  {
    if s != [] {
      BelowMonotone(s[..|s| - 1], v, w);
    }
  }

  ghost predicate SameCounts(s: seq<int>, t: seq<int>) {
    |s| == |t| && forall v :: Below(s, v) == Below(t, v)
  }

  ghost predicate Sorted(s: seq<int>) {
    forall i, j :: 0 <= i < j < |s| ==> s[i] <= s[j]
  }

  function Insert(s: seq<int>, x: int): seq<int> {
    if s == [] || s[|s| - 1] <= x then s + [x] else Insert(s[..|s| - 1], x) + [s[|s| - 1]]
  }

  function Sort(s: seq<int>): seq<int> {
    if s == [] then [] else Insert(Sort(s[..|s| - 1]), s[|s| - 1])
  }

  lemma {:induction false} InsertCounts(s: seq<int>, x: int, v: int)
    ensures |Insert(s, x)| == |s| + 1
    ensures Below(Insert(s, x), v) == Below(s, v) + if x < v then 1 else 0
  {
    if s == [] || s[|s| - 1] <= x {
      BelowAppend(s, [x], v);
      assert [x][..0] == [];
    } else {
      var n := |s| - 1;
      InsertCounts(s[..n], x, v);
      BelowAppend(Insert(s[..n], x), [s[n]], v);
      assert [s[n]][..0] == [];
    }
  }

  ghost predicate AllAtMost(s: seq<int>, m: int) {
    forall i :: 0 <= i < |s| ==> s[i] <= m
  }

  lemma {:induction false} InsertAtMost(s: seq<int>, x: int, m: int)
    requires AllAtMost(s, m) && x <= m
    ensures AllAtMost(Insert(s, x), m)
  {
    if s != [] && s[|s| - 1] > x {
      InsertAtMost(s[..|s| - 1], x, m);
    }
  }

  lemma {:induction false} InsertSorted(s: seq<int>, x: int)
    requires Sorted(s)
    ensures Sorted(Insert(s, x))
  {
    if s != [] && s[|s| - 1] > x {
      var n := |s| - 1;
      InsertSorted(s[..n], x);
      InsertAtMost(s[..n], x, s[n]);
      SortedSnoc(Insert(s[..n], x), s[n]);
    }
  }

  lemma SortedSnoc(s: seq<int>, y: int)
    requires Sorted(s) && AllAtMost(s, y)
    ensures Sorted(s + [y])
  {}

  lemma {:induction false} SortSorts(s: seq<int>)
    ensures Sorted(Sort(s)) && SameCounts(Sort(s), s)
  {
    hide Insert, Sorted;
    if s != [] {
      var n := |s| - 1;
      SortSorts(s[..n]);
      InsertSorted(Sort(s[..n]), s[n]);
      InsertCounts(Sort(s[..n]), s[n], 0);
      forall v ensures Below(Sort(s), v) == Below(s, v) {
        InsertCounts(Sort(s[..n]), s[n], v);
      }
    } else {
      assert Sorted([]) by { EmptySorted(); }
    }
  }

  lemma EmptySorted()
    ensures Sorted([])
  {}

  // ---- the order statistic ----

  /** v is the element of rank k of s: at most k elements are below it and more than k are at most it. */
  ghost predicate HasRank(s: seq<int>, k: nat, v: int) {
    Below(s, v) <= k < AtMost(s, v)
  }

  lemma RankUnique(s: seq<int>, k: nat, v: int, w: int)
    requires HasRank(s, k, v) && HasRank(s, k, w)
    ensures v == w
  {
    if v < w {
      BelowMonotone(s, v + 1, w);
    } else if w < v {
      BelowMonotone(s, w + 1, v);
    }
  }

  lemma SortedRank(s: seq<int>, k: nat)
    requires Sorted(s) && k < |s|
    ensures HasRank(s, k, s[k])
  {
    AroundRank(s, k);
    hide Below, Sorted;
    SplitCounts(s, k, s[k]);
    BelowBounds(s[..k], s[k]);
    SplitCounts(s, k + 1, s[k] + 1);
  }

  lemma AroundRank(s: seq<int>, k: nat)
    requires Sorted(s) && k < |s|
    ensures Below(s[..k + 1], s[k] + 1) == k + 1 && Below(s[k..], s[k]) == 0
  {
    var low, high := s[..k + 1], s[k..];
    forall i | 0 <= i < |low| ensures low[i] < s[k] + 1 { assert low[i] == s[i]; }
    forall i | 0 <= i < |high| ensures high[i] >= s[k] { assert high[i] == s[k + i]; }
    hide Below, Sorted;
    BelowBounds(low, s[k] + 1);
    BelowBounds(high, s[k]);
  }

  lemma SplitCounts(s: seq<int>, k: nat, v: int)
    requires k <= |s|
    ensures Below(s, v) == Below(s[..k], v) + Below(s[k..], v)
  {
    BelowAppend(s[..k], s[k..], v);
    assert s == s[..k] + s[k..];
  }

  /** The upper median. */
  function Median(s: seq<int>): int
    requires s != []
  {
    SortSorts(s);
    Sort(s)[|s| / 2]
  }

  lemma MedianRank(s: seq<int>)
    requires s != []
    ensures HasRank(s, |s| / 2, Median(s))
  {
    hide Below, Sort, Sorted;
    SortSorts(s);
    SortedRank(Sort(s), |s| / 2);
  }

  lemma {:induction false} AbsentCounts(s: seq<int>, v: int)
    requires v !in s
    ensures Below(s, v) == AtMost(s, v)
  {
    if s != [] {
      AbsentCounts(s[..|s| - 1], v);
    }
  }

  /** The median is one of the samples. */
  lemma MedianMember(s: seq<int>)
    requires s != []
    ensures Median(s) in s
  {
    hide Below, Median;
    MedianRank(s);
    if Median(s) !in s {
      AbsentCounts(s, Median(s));
    }
  }

  /** The median exceeds a limit exactly if at most half of the window (rounded down) does not. */
  lemma MedianAboveIff(s: seq<int>, limit: int)
    requires s != []
    ensures Median(s) > limit <==> AtMost(s, limit) <= |s| / 2
  {
    hide Below, Median;
    MedianRank(s);
    if Median(s) > limit {
      BelowMonotone(s, limit + 1, Median(s));
    } else {
      BelowMonotone(s, Median(s) + 1, limit + 1);
    }
  }

  /** The median lies below a limit exactly if more than half of the window (rounded down) does. */
  lemma MedianBelowIff(s: seq<int>, limit: int)
    requires s != []
    ensures Median(s) < limit <==> Below(s, limit) > |s| / 2
  {
    hide Below, Median;
    MedianRank(s);
    if Median(s) < limit {
      BelowMonotone(s, Median(s) + 1, limit);
    } else {
      BelowMonotone(s, limit, Median(s));
    }
  }

  lemma SameMedian(s: seq<int>, t: seq<int>)
    requires s != [] && SameCounts(s, t)
    ensures t != [] && Median(s) == Median(t)
  {
    hide Below, Median;
    MedianRank(s);
    MedianRank(t);
    RankUnique(s, |s| / 2, Median(s), Median(t));
  }

  // ---- the filter ----

  class Filter {
    const window: nat
    const buffer: array<int>
    var index: nat
    var count: nat
    var lastOutput: int
    ghost var history: seq<int>

    ghost predicate Valid()
      reads this, buffer
    {
      && window > 0 && buffer.Length == window
      && count == (if |history| < window then |history| else window) && index == |history| % window
      && (forall k :: |history| - count <= k < |history| ==> buffer[k % window] == history[k])
    }

    constructor (window: nat)
      requires window > 0
      ensures Valid() && fresh(buffer) && this.window == window && history == []
    {
      this.window := window;
      buffer := new int[window](_ => 0);
      index, count, lastOutput := 0, 0, 0;
      history := [];
    }

    /** Takes a sample and gives the upper median of the last `window` samples. */
    method Apply(sample: int) returns (r: int)
      requires Valid()
      modifies this, buffer
      ensures Valid() && history == old(history) + [sample]
      ensures r == lastOutput == Median(Last(history, window))
    {
      hide Below, Sort, Sorted, Last;
      Advance(|history|, window);
      forall k: nat | |history| - window < k < |history| ensures k % window != index {
        DistinctCells(k, |history|, window);
      }
      buffer[index] := sample;
      index := (index + 1) % window;
      if count < window {
        count := count + 1;
      }
      history := history + [sample];
      assert Valid();
      WindowCounts(buffer[..], history, window, count);
      var working := buffer[..count];
      SortSorts(working);
      var sorted := Sort(working);
      SameMedian(working, Last(history, window));
      lastOutput := sorted[count / 2];
      r := lastOutput;
    }
  }

  lemma CellOf(n: nat, j: nat, w: nat) returns (k: nat)
    requires w > 0 && j < w <= n
    ensures k == (if j < n % w then n - n % w + j else n - n % w - w + j)
    ensures n - w <= k < n && k % w == j
  {
    var q, m := n / w, n % w;
    assert n == Times(q, w) + m;
    TimesSum(q - 1, 1, w);
    TimesOne(w);
    TimesOrder(q, 0, w);
    if j < m {
      k := n - m + j;
      Quotient(q, j, w);
    } else {
      k := n - m - w + j;
      Quotient(q - 1, j, w);
    }
  }

  /** The buffer's cells in use hold the last samples, in a rotated order. */
  lemma WindowCounts(buffer: seq<int>, history: seq<int>, w: nat, count: nat)
    requires w > 0 && |buffer| == w && count == if |history| < w then |history| else w
    requires forall k :: |history| - count <= k < |history| ==> buffer[k % w] == history[k]
    ensures SameCounts(buffer[..count], Last(history, w))
  {
    hide Below;
    if |history| < w {
      PartWindow(buffer, history, w);
    } else {
      assert buffer[..count] == buffer;
      FullWindow(buffer, history, w);
      var m := |history| % w;
      WindowSplits(history, w, m);
      RotationCounts(history[|history| - w..|history| - m], history[|history| - m..]);
    }
  }

  lemma PartWindow(buffer: seq<int>, history: seq<int>, w: nat)
    requires |history| < w == |buffer|
    requires forall k :: 0 <= k < |history| ==> buffer[k % w] == history[k]
    ensures buffer[..|history|] == history == Last(history, w)
  {
    forall k | 0 <= k < |history| ensures buffer[k] == history[k] {
      Quotient(0, k, w);
      TimesOne(w);
      assert buffer[k % w] == history[k];
    }
  }

  lemma WindowSplits(history: seq<int>, w: nat, m: nat)
    requires m <= w <= |history|
    ensures var n := |history|; Last(history, w) == history[n - w..n - m] + history[n - m..]
  {}

  lemma FullWindow(buffer: seq<int>, history: seq<int>, w: nat)
    requires 0 < w == |buffer| <= |history|
    requires forall k :: |history| - w <= k < |history| ==> buffer[k % w] == history[k]
    ensures |history| % w < w
    ensures var n, m := |history|, |history| % w; buffer == history[n - m..] + history[n - w..n - m]
  {
    var n, m := |history|, |history| % w;
    var rotated := history[n - m..] + history[n - w..n - m];
    forall j | 0 <= j < w ensures buffer[j] == rotated[j] {
      var k := CellOf(n, j, w);
      assert buffer[k % w] == history[k];
    }
  }

  lemma RotationCounts(a: seq<int>, b: seq<int>)
    ensures SameCounts(b + a, a + b)
  {
    hide Below;
    forall v ensures Below(b + a, v) == Below(a + b, v) {
      BelowAppend(a, b, v);
      BelowAppend(b, a, v);
    }
  }
}
