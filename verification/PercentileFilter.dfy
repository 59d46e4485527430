/** webrtc::PercentileFilter, which keeps an iterator at the wanted percentile of a multiset
    across insertions and erasures, and MovingPercentileFilter, a window over it. The
    percentile is an exact fraction num / den here. */
module PercentileFilter {
  import opened Multisets

  // ---------------------------------------------------------------------------------------
  // Ranks, independent of any order in which samples are stored
  // ---------------------------------------------------------------------------------------

  function CountBelow(s: seq<int>, v: int): (n: nat)
    ensures n <= |s|
  {
    if s == [] then 0 else CountBelow(s[1..], v) + if s[0] < v then 1 else 0
  }

  /** v is the sample at position k of the samples in ascending order: at most k samples are
      less, and more than k are not greater. */
  predicate HasRank(samples: seq<int>, k: int, v: int) {
    v in samples && CountBelow(samples, v) <= k < CountBelow(samples, v + 1)
  }

  lemma {:induction false} CountBelowMonotone(s: seq<int>, v: int, w: int)
    requires v <= w
    ensures CountBelow(s, v) <= CountBelow(s, w)
  {
    if s != [] {
      CountBelowMonotone(s[1..], v, w);
    }
  }

  /** Only one value has a given rank. */
  lemma RankIsUnique(samples: seq<int>, k: int, v: int, w: int)
    requires HasRank(samples, k, v) && HasRank(samples, k, w)
    ensures v == w
  {
    if v < w {
      CountBelowMonotone(samples, v + 1, w);
    } else if w < v {
      CountBelowMonotone(samples, w + 1, v);
    }
  }

  lemma {:induction false} CountBelowConcat(a: seq<int>, b: seq<int>, v: int)
    ensures CountBelow(a + b, v) == CountBelow(a, v) + CountBelow(b, v)
  {
    if a == [] {
      assert a + b == b;
    } else {
      assert (a + b)[1..] == a[1..] + b;
      CountBelowConcat(a[1..], b, v);
    }
  }

  // Ranks depend on the samples as a multiset only.
  lemma {:induction false} CountBelowOfMultiset(a: seq<int>, b: seq<int>, v: int)
    requires multiset(a) == multiset(b)
    ensures CountBelow(a, v) == CountBelow(b, v)
  {
    if a == [] {
      assert |multiset(b)| == 0;
      assert b == [];
    } else {
      var x := a[0];
      assert a == [x] + a[1..];
      assert x in multiset(b);
      var j :| 0 <= j < |b| && b[j] == x;
      assert b == b[..j] + [x] + b[j + 1..];
      var c := b[..j] + b[j + 1..];
      assert multiset(b) == multiset(c) + multiset{x};
      assert multiset(a) == multiset(a[1..]) + multiset{x};
      CancelOne(multiset(a[1..]), multiset(c), x);
      CountBelowOfMultiset(a[1..], c, v);
      CountBelowConcat(b[..j], b[j + 1..], v);
      CountBelowConcat(b[..j] + [x], b[j + 1..], v);
      CountBelowConcat(b[..j], [x], v);
      assert [x][1..] == [];
    }
  }

  lemma RankOfMultiset(a: seq<int>, b: seq<int>, k: int, v: int)
    requires multiset(a) == multiset(b) && HasRank(a, k, v)
    ensures HasRank(b, k, v)
  {
    CountBelowOfMultiset(a, b, v);
    CountBelowOfMultiset(a, b, v + 1);
    assert v in multiset(b);
  }

  // ---------------------------------------------------------------------------------------
  // Sorted samples
  // ---------------------------------------------------------------------------------------

  ghost predicate Sorted(s: seq<int>) {
    forall i, j :: 0 <= i <= j < |s| ==> s[i] <= s[j]
  }

  lemma {:induction false} AllBelow(s: seq<int>, v: int)
    requires forall i :: 0 <= i < |s| ==> s[i] < v
    ensures CountBelow(s, v) == |s|
  {
    if s != [] {
      AllBelow(s[1..], v);
    }
  }

  lemma {:induction false} NoneBelow(s: seq<int>, v: int)
    requires forall i :: 0 <= i < |s| ==> v <= s[i]
    ensures CountBelow(s, v) == 0
  {
    if s != [] {
      NoneBelow(s[1..], v);
    }
  }

  lemma SortedRank(s: seq<int>, k: nat)
    requires Sorted(s) && k < |s|
    ensures HasRank(s, k, s[k])
  {
    var v := s[k];
    assert s == s[..k] + s[k..] && s == s[..k + 1] + s[k + 1..];
    CountBelowConcat(s[..k], s[k..], v);
    NoneBelow(s[k..], v);
    CountBelowConcat(s[..k + 1], s[k + 1..], v + 1);
    AllBelow(s[..k + 1], v + 1);
  }

  function LowerBound(s: seq<int>, v: int): (p: nat)
    ensures p <= |s|
    ensures forall i :: 0 <= i < p ==> s[i] < v
    ensures p < |s| ==> v <= s[p]
  {
    if s == [] || v <= s[0] then 0 else 1 + LowerBound(s[1..], v)
  }

  lemma LowerBoundFinds(s: seq<int>, v: int)
    requires Sorted(s)
    ensures var p := LowerBound(s, v);
            v in s <==> p < |s| && s[p] == v
  {
    var p := LowerBound(s, v);
    forall i | 0 <= i < |s| && s[i] == v
      ensures p < |s| && s[p] == v
    {
      assert p <= i;
      assert s[p] <= s[i];
    }
  }

  function UpperBound(s: seq<int>, v: int): (p: nat)
    ensures p <= |s|
    ensures forall i :: 0 <= i < p ==> s[i] <= v
    ensures p < |s| ==> v < s[p]
  {
    if s == [] || v < s[0] then 0 else 1 + UpperBound(s[1..], v)
  }

  function InsertAt(s: seq<int>, p: nat, v: int): seq<int>
    requires p <= |s|
  {
    s[..p] + [v] + s[p..]
  }

  function RemoveAt(s: seq<int>, p: nat): seq<int>
    requires p < |s|
  {
    s[..p] + s[p + 1..]
  }

  lemma InsertSorted(s: seq<int>, p: nat, v: int)
    requires Sorted(s) && p <= |s|
    requires forall i :: 0 <= i < p ==> s[i] <= v
    requires p < |s| ==> v < s[p]
    ensures Sorted(InsertAt(s, p, v))
  {
    var r := InsertAt(s, p, v);
    forall i, j | 0 <= i <= j < |r|
      ensures r[i] <= r[j]
    {
      assert j > p ==> r[j] == s[j - 1] && s[p] <= s[j - 1];
      assert i > p ==> r[i] == s[i - 1];
    }
  }

  lemma InsertMultiset(s: seq<int>, p: nat, v: int)
    requires p <= |s|
    ensures multiset(InsertAt(s, p, v)) == multiset(s) + multiset{v}
  {
    assert s == s[..p] + s[p..];
  }

  lemma RemoveSorted(s: seq<int>, p: nat)
    requires Sorted(s) && p < |s|
    ensures Sorted(RemoveAt(s, p))
  {
    var r := RemoveAt(s, p);
    forall i, j | 0 <= i <= j < |r|
      ensures r[i] <= r[j]
    {
      assert r[i] == s[if i < p then i else i + 1];
      assert r[j] == s[if j < p then j else j + 1];
    }
  }

  lemma RemoveMultiset(s: seq<int>, p: nat)
    requires p < |s|
    ensures multiset(s) == multiset(RemoveAt(s, p)) + multiset{s[p]}
  {
    assert s == s[..p] + [s[p]] + s[p + 1..];
  }

  // What the comparison with the value at the iterator tells once the value has been erased.
  lemma ErasedBefore(s: seq<int>, p: nat, it: nat, value: int)
    requires Sorted(s) && p == LowerBound(s, value) < |s| && it < |s| && p != it
    ensures var it' := if p < it then it - 1 else it;
            it' < |s| - 1 && (value <= RemoveAt(s, p)[it'] <==> p < it)
  {
    var r, it' := RemoveAt(s, p), if p < it then it - 1 else it;
    assert r[it'] == s[it];
    if p < it {
      assert s[p] <= s[it];
    }
  }

  // ---------------------------------------------------------------------------------------
  // The filter
  // ---------------------------------------------------------------------------------------

  // floor(num / den * (size - 1))
  function TargetIndex(num: nat, den: nat, size: nat): (k: nat)
    requires 0 < den && num <= den && size > 0
    ensures k < size
  {
    AtMost(num, den, size - 1);
    num * (size - 1) / den
  }

  lemma AtMost(num: nat, den: nat, n: nat)
    requires 0 < den && num <= den
    ensures 0 <= num * n / den <= n
  {
    assert 0 <= num * n <= den * n;
    QuotientAtMost(num * n, den, n);
  }

  lemma QuotientAtMost(x: nat, d: nat, n: nat)
    requires d > 0 && x <= d * n
    ensures 0 <= x / d <= n
  {
    var q := x / d;
    assert x == d * q + x % d;
    if q >= n + 1 {
      TimesMonotone(d, q, n + 1);
    }
  }

  lemma TimesMonotone(d: nat, q: nat, n: nat)
    requires q >= n
    ensures d * q >= d * n
  {
  }

  class PercentileFilter {
    const num: nat
    const den: nat
    var values: seq<int>      // set_, in the multiset's order
    var it: nat               // the position percentile_it_ points at; |values| is end()
    var percentileIndex: int

    /** The iterator is at the target, and the index knows it. */
    ghost predicate Valid()
      reads this
    {
      && 0 < den && num <= den
      && Sorted(values)
      && it == percentileIndex
      && it == if values == [] then 0 else TargetIndex(num, den, |values|)
    }

    constructor (num: nat, den: nat)
      requires 0 < den && num <= den
      ensures Valid() && values == [] && this.num == num && this.den == den
    {
      this.num, this.den := num, den;
      values, it, percentileIndex := [], 0, 0;
    }

    /** An element inserted before the one the iterator points at moves that one up; the index
        has to find out by comparing values. */
    method Insert(value: int)
      requires Valid()
      modifies this
      ensures Valid()
      ensures multiset(values) == old(multiset(values)) + multiset{value}
    {
      var p := UpperBound(values, value);
      InsertSorted(values, p, value);
      InsertMultiset(values, p, value);
      values := values[..p] + [value] + values[p..];
      if p <= it {
        it := it + 1;
      }
      if |values| == 1 {
        it := 0;
        percentileIndex := 0;
      } else if value < values[it] {
        percentileIndex := percentileIndex + 1;
      }
      UpdatePercentileIterator();
    }

    method Erase(value: int) returns (erased: bool)
      requires Valid()
      modifies this
      ensures Valid()
      ensures erased <==> value in old(values)
      ensures multiset(values) == old(multiset(values)) - multiset{value}
    {
      hide Sorted, TargetIndex;
      var p := LowerBound(values, value);
      LowerBoundFinds(values, value);
      if p == |values| || values[p] != value {
        return false;
      }
      RemoveSorted(values, p);
      RemoveMultiset(values, p);
      if p != it {
        ErasedBefore(values, p, it, value);
      }
      values := values[..p] + values[p + 1..];
      if p != it {
        if p < it {
          it := it - 1;
        }
        if value <= values[it] {
          percentileIndex := percentileIndex - 1;
        }
      }
      UpdatePercentileIterator();
      return true;
    }

    method UpdatePercentileIterator()
      requires 0 < den && num <= den && Sorted(values)
      requires it == percentileIndex && (values == [] ==> it == 0)
      modifies this`it, this`percentileIndex
      ensures Valid()
    {
      if values == [] {
        return;
      }
      var index := TargetIndex(num, den, |values|);
      it := it + (index - percentileIndex);
      percentileIndex := index;
    }

    /** The value at rank floor(num / den * (n - 1)) of the n samples held. */
    method GetPercentileValue() returns (v: int)
      requires Valid()
      ensures values == [] ==> v == 0
      ensures values != [] ==> HasRank(values, TargetIndex(num, den, |values|), v)
    {
      if values == [] {
        return 0;
      }
      SortedRank(values, it);
      return values[it];
    }

    method Reset()
      requires Valid()
      modifies this
      ensures Valid() && values == []
    {
      values, it, percentileIndex := [], 0, 0;
    }
  }

  // ---------------------------------------------------------------------------------------
  // The moving window
  // ---------------------------------------------------------------------------------------

  // The last n samples, or all of them if there are fewer.
  function LastOf(history: seq<int>, n: nat): seq<int> {
    if |history| <= n then history else history[|history| - n..]
  }

  lemma WindowSlides(history: seq<int>, n: nat, v: int)
    requires n > 0
    ensures var more := LastOf(history, n) + [v];
            LastOf(history + [v], n) == if |more| > n then more[1..] else more
  {
  }

  lemma DropFront(s: seq<int>)
    requires s != []
    ensures s[0] in s
    ensures multiset(s) - multiset{s[0]} == multiset(s[1..])
  {
    assert s == [s[0]] + s[1..];
  }

  class MovingPercentileFilter {
    const percentileFilter: PercentileFilter
    const windowSize: nat
    var samples: seq<int>
    var samplesStored: nat
    ghost var history: seq<int>  // everything inserted since the last reset

    ghost predicate Valid()
      reads this, percentileFilter
    {
      && windowSize > 0
      && percentileFilter.Valid()
      && samples == LastOf(history, windowSize)
      && samplesStored == |samples|
      && multiset(percentileFilter.values) == multiset(samples)
    }

    constructor (num: nat, den: nat, windowSize: nat)
      requires 0 < den && num <= den && windowSize > 0
      ensures Valid() && history == [] && this.windowSize == windowSize
      ensures fresh(percentileFilter) && percentileFilter.num == num && percentileFilter.den == den
    {
      percentileFilter := new PercentileFilter(num, den);
      this.windowSize := windowSize;
      samples, samplesStored, history := [], 0, [];
    }

    method Insert(value: int)
      requires Valid()
      modifies this, percentileFilter
      ensures Valid()
      ensures history == old(history) + [value]
    {
      hide LastOf, PercentileFilter.Valid;
      WindowSlides(history, windowSize, value);
      percentileFilter.Insert(value);
      samples := samples + [value];
      samplesStored := samplesStored + 1;
      history := history + [value];
      if samplesStored > windowSize {
        DropOldest();
      }
    }

    // The last part of Insert.
    method DropOldest()
      requires percentileFilter.Valid() && samples != [] && samplesStored == |samples|
      requires multiset(percentileFilter.values) == multiset(samples)
      modifies this`samples, this`samplesStored, percentileFilter
      ensures percentileFilter.Valid() && samples == old(samples)[1..] && samplesStored == |samples|
      ensures multiset(percentileFilter.values) == multiset(samples)
    {
      hide PercentileFilter.Valid;
      DropFront(samples);
      var _ := percentileFilter.Erase(samples[0]);
      samples := samples[1..];
      samplesStored := samplesStored - 1;
    }

    /** The percentile of the last windowSize samples. */
    method GetFilteredValue() returns (v: int)
      requires Valid()
      ensures history == [] ==> v == 0
      ensures history != [] ==>
                var window := LastOf(history, windowSize);
                HasRank(window, TargetIndex(percentileFilter.num, percentileFilter.den, |window|), v)
    {
      v := percentileFilter.GetPercentileValue();
      var values := percentileFilter.values;
      assert |values| == |multiset(values)| == |multiset(samples)| == |samples|;
      if history != [] {
        RankOfMultiset(values, samples, TargetIndex(percentileFilter.num, percentileFilter.den, |values|), v);
      }
    }

    method Reset()
      requires Valid()
      modifies this, percentileFilter
      ensures Valid() && history == []
    {
      percentileFilter.Reset();
      samples, samplesStored, history := [], 0, [];
    }

    method GetNumberOfSamplesStored() returns (n: nat)
      requires Valid()
      ensures n == if |history| < windowSize then |history| else windowSize
    {
      n := samplesStored;
    }
  }
}
