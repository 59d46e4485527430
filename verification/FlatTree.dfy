/** webrtc::flat_tree, the sorted vector behind flat_set and flat_map: single, hinted and batch
    insertion, and the searches they rest on. Values carry a key and a payload, so that it can
    be told which of several values with one key was kept. */
module FlatTree {
  import opened Options

  datatype Value = Value(key: int, payload: int)

  ghost predicate SortedUnique(s: seq<Value>) {
    forall i, j :: 0 <= i < j < |s| ==> s[i].key < s[j].key
  }

  ghost predicate SortedByKey(s: seq<Value>) {
    forall i, j :: 0 <= i < j < |s| ==> s[i].key <= s[j].key
  }

  /** For each key the first value that carries it. On a body without repeated keys this is the
      content of the tree. */
  function FirstWins(s: seq<Value>): map<int, Value> {
    if s == [] then map[] else Keep(FirstWins(s[..|s| - 1]), s[|s| - 1])
  }

  function Keep(m: map<int, Value>, v: Value): map<int, Value> {
    if v.key in m then m else m[v.key := v]
  }

  lemma FirstWinsAppend(s: seq<Value>, v: Value)
    ensures FirstWins(s + [v]) == Keep(FirstWins(s), v)
  {
    assert (s + [v])[..|s + [v]| - 1] == s;
  }

  lemma {:induction false} FirstWinsKeys(s: seq<Value>)
    ensures forall k :: k in FirstWins(s) ==> FirstWins(s)[k].key == k && FirstWins(s)[k] in s
    ensures forall x :: x in s ==> x.key in FirstWins(s)
  {
    if s != [] {
      var n := |s| - 1;
      FirstWinsKeys(s[..n]);
      assert s == s[..n] + [s[n]];
    }
  }

  // On unique keys the content lists the values themselves.
  lemma {:induction false} UniqueContent(s: seq<Value>)
    requires SortedUnique(s)
    ensures forall x :: x in s ==> x.key in FirstWins(s) && FirstWins(s)[x.key] == x
    ensures forall k :: k in FirstWins(s) ==> FirstWins(s)[k].key == k && FirstWins(s)[k] in s
  {
    FirstWinsKeys(s);
    forall x | x in s
      ensures FirstWins(s)[x.key] == x
    {
      var y := FirstWins(s)[x.key];
      var i :| 0 <= i < |s| && s[i] == x;
      var j :| 0 <= j < |s| && s[j] == y;
    }
  }

  // Conversely, a map that lists the values of a sorted body is its content.
  lemma ContentOfSorted(s: seq<Value>, m: map<int, Value>)
    requires SortedUnique(s)
    requires forall x :: x in s ==> x.key in m && m[x.key] == x
    requires forall k :: k in m ==> m[k].key == k && m[k] in s
    ensures FirstWins(s) == m
  {
    UniqueContent(s);
    forall k
      ensures k in FirstWins(s) <==> k in m
      ensures k in m ==> FirstWins(s)[k] == m[k]
    {
      if k in m {
        assert m[k] in s;
      }
      if k in FirstWins(s) {
        assert FirstWins(s)[k] in s;
      }
    }
  }

  lemma WithoutLast(s: seq<Value>)
    requires SortedUnique(s) && s != []
    ensures SortedUnique(s[..|s| - 1])
    ensures forall x :: x in s[..|s| - 1] <==> x in s && x != s[|s| - 1]
  {
    assert s == s[..|s| - 1] + [s[|s| - 1]];
  }

  lemma {:induction false} SameValuesSameBody(a: seq<Value>, b: seq<Value>)
    requires SortedUnique(a) && SortedUnique(b)
    requires forall x :: x in a <==> x in b
    ensures a == b
  {
    if b != [] {
      assert b[|b| - 1] in b;
    }
    if a != [] {
      var n, k := |a| - 1, |b| - 1;
      assert a[n] in b && (b != [] ==> b[k] in a);
      assert a[n] == b[k];
      assert a == a[..n] + [a[n]] && b == b[..k] + [b[k]];
      WithoutLast(a);
      WithoutLast(b);
      forall x
        ensures x in a[..n] <==> x in b[..k]
      {
        assert x in a[..n] <==> x in a && x != a[n];
      }
      SameValuesSameBody(a[..n], b[..k]);
    }
  }

  /** A sorted body without repeated keys is determined by its content. */
  lemma ContentDeterminesBody(a: seq<Value>, b: seq<Value>)
    requires SortedUnique(a) && SortedUnique(b) && FirstWins(a) == FirstWins(b)
    ensures a == b
  {
    UniqueContent(a);
    UniqueContent(b);
    forall x
      ensures x in a <==> x in b
    {
    }
    SameValuesSameBody(a, b);
  }

  // ---------------------------------------------------------------------------------------
  // Searching
  // ---------------------------------------------------------------------------------------

  // std::lower_bound: the first position whose key is not less.
  function LowerBound(s: seq<Value>, key: int): (p: nat)
    ensures p <= |s|
    ensures p < |s| ==> key <= s[p].key
    ensures forall i :: 0 <= i < p ==> s[i].key < key
  {
    if s == [] || key <= s[0].key then 0 else 1 + LowerBound(s[1..], key)
  }

  predicate FoundAt(s: seq<Value>, key: int, p: nat)
    requires p <= |s|
  {
    p < |s| && !(key < s[p].key)
  }

  /** The tree's notion of having a key is membership. */
  lemma FoundIffPresent(s: seq<Value>, key: int)
    requires SortedUnique(s)
    ensures FoundAt(s, key, LowerBound(s, key)) <==> key in FirstWins(s)
    ensures FoundAt(s, key, LowerBound(s, key)) ==> FirstWins(s)[key] == s[LowerBound(s, key)]
  {
    hide FirstWins, LowerBound;
    UniqueContent(s);
    var p := LowerBound(s, key);
    if FoundAt(s, key, p) {
      assert s[p] in s && s[p].key == key;
    } else {
      forall x | x in s
        ensures x.key != key
      {
        var i :| 0 <= i < |s| && s[i] == x;
        assert p <= i ==> s[p].key <= s[i].key;
      }
    }
  }

  lemma LowerBoundIs(s: seq<Value>, key: int, p: nat)
    requires SortedUnique(s) && p <= |s|
    requires p > 0 ==> s[p - 1].key < key
    requires p < |s| ==> key <= s[p].key
    ensures LowerBound(s, key) == p
  {
    assert forall i :: 0 <= i < p ==> s[i].key < key;
  }

  // ---------------------------------------------------------------------------------------
  // Single insertion
  // ---------------------------------------------------------------------------------------

  function InsertAt(s: seq<Value>, p: nat, v: Value): seq<Value>
    requires p <= |s|
  {
    s[..p] + [v] + s[p..]
  }

  function InsertOne(s: seq<Value>, v: Value): seq<Value> {
    var p := LowerBound(s, v.key);
    if FoundAt(s, v.key, p) then s else InsertAt(s, p, v)
  }

  function InsertAll(s: seq<Value>, vs: seq<Value>): seq<Value>
    decreases |vs|
  {
    if vs == [] then s else InsertAll(InsertOne(s, vs[0]), vs[1..])
  }

  function KeepAll(m: map<int, Value>, vs: seq<Value>): map<int, Value>
    decreases |vs|
  {
    if vs == [] then m else KeepAll(Keep(m, vs[0]), vs[1..])
  }

  lemma {:induction false} FirstWinsConcat(s: seq<Value>, vs: seq<Value>)
    ensures FirstWins(s + vs) == KeepAll(FirstWins(s), vs)
    decreases |vs|
  {
    if vs == [] {
      assert s + vs == s;
    } else {
      assert s + vs == (s + [vs[0]]) + vs[1..];
      FirstWinsConcat(s + [vs[0]], vs[1..]);
      FirstWinsAppend(s, vs[0]);
    }
  }

  lemma InsertAtHolds(s: seq<Value>, p: nat, v: Value)
    requires p <= |s|
    ensures forall x :: x in InsertAt(s, p, v) <==> x in s || x == v
  {
    assert s == s[..p] + s[p..];
  }

  lemma InsertAtSorted(s: seq<Value>, p: nat, v: Value)
    requires SortedUnique(s) && p <= |s|
    requires forall i :: 0 <= i < p ==> s[i].key < v.key
    requires p < |s| ==> v.key < s[p].key
    ensures SortedUnique(InsertAt(s, p, v))
  {
    var r := InsertAt(s, p, v);
    forall i, j | 0 <= i < j < |r|
      ensures r[i].key < r[j].key
    {
      if p < |s| && i == p {
        assert s[p].key <= s[j - 1].key;
      }
    }
  }

  /** Inserting one value keeps the body sorted and unique; an old value with its key wins. */
  lemma InsertOneCorrect(s: seq<Value>, v: Value)
    requires SortedUnique(s)
    ensures SortedUnique(InsertOne(s, v))
    ensures FirstWins(InsertOne(s, v)) == Keep(FirstWins(s), v)
  {
    hide FirstWins, SortedUnique, LowerBound;
    var p := LowerBound(s, v.key);
    FoundIffPresent(s, v.key);
    if !FoundAt(s, v.key, p) {
      InsertAtSorted(s, p, v);
      var r := InsertOne(s, v);
      var m := Keep(FirstWins(s), v);
      UniqueContent(s);
      InsertAtHolds(s, p, v);
      ContentOfSorted(r, m);
    }
  }

  lemma {:induction false} InsertAllCorrect(s: seq<Value>, vs: seq<Value>)
    requires SortedUnique(s)
    ensures SortedUnique(InsertAll(s, vs))
    ensures FirstWins(InsertAll(s, vs)) == KeepAll(FirstWins(s), vs)
    decreases |vs|
  {
    if vs != [] {
      InsertOneCorrect(s, vs[0]);
      InsertAllCorrect(InsertOne(s, vs[0]), vs[1..]);
    }
  }

  // ---------------------------------------------------------------------------------------
  // Stable sorting
  // ---------------------------------------------------------------------------------------

  // v goes behind everything whose key is not greater.
  function InsertFromRight(s: seq<Value>, v: Value): (r: seq<Value>)
    ensures |r| == |s| + 1
    ensures multiset(r) == multiset(s) + multiset{v}
    ensures forall x :: x in r <==> x in s || x == v
  {
    if s == [] || !(v.key < s[|s| - 1].key) then
      s + [v]
    else
      assert s == s[..|s| - 1] + [s[|s| - 1]];
      InsertFromRight(s[..|s| - 1], v) + [s[|s| - 1]]
  }

  function StableSort(s: seq<Value>): (r: seq<Value>)
    ensures |r| == |s|
    ensures multiset(r) == multiset(s)
  {
    if s == [] then []
    else
      assert s == s[..|s| - 1] + [s[|s| - 1]];
      InsertFromRight(StableSort(s[..|s| - 1]), s[|s| - 1])
  }

  lemma {:induction false} InsertFromRightSorted(s: seq<Value>, v: Value)
    requires SortedByKey(s)
    ensures SortedByKey(InsertFromRight(s, v))
  {
    if s == [] || !(v.key < s[|s| - 1].key) {
    } else {
      var n := |s| - 1;
      InsertFromRightSorted(s[..n], v);
      var r := InsertFromRight(s[..n], v);
      forall x | x in r
        ensures x.key <= s[n].key
      {
        if x in s[..n] {
          var k :| 0 <= k < n && s[k] == x;
        }
      }
    }
  }

  lemma {:induction false} StableSortSorted(s: seq<Value>)
    ensures SortedByKey(StableSort(s))
  {
    if s != [] {
      StableSortSorted(s[..|s| - 1]);
      InsertFromRightSorted(StableSort(s[..|s| - 1]), s[|s| - 1]);
    }
  }

  /** Stability, as far as the tree needs it: among equal keys the first stays first. */
  lemma {:induction false} InsertFromRightKeepsFirst(s: seq<Value>, v: Value)
    requires SortedByKey(s)
    ensures FirstWins(InsertFromRight(s, v)) == Keep(FirstWins(s), v)
  {
    hide FirstWins;
    if s == [] || !(v.key < s[|s| - 1].key) {
      FirstWinsAppend(s, v);
    } else {
      var n := |s| - 1;
      InsertFromRightKeepsFirst(s[..n], v);
      FirstWinsAppend(InsertFromRight(s[..n], v), s[n]);
      assert s == s[..n] + [s[n]];
      FirstWinsAppend(s[..n], s[n]);
    }
  }

  lemma {:induction false} StableSortKeepsFirst(s: seq<Value>)
    ensures FirstWins(StableSort(s)) == FirstWins(s)
  {
    if s != [] {
      var n := |s| - 1;
      StableSortKeepsFirst(s[..n]);
      StableSortSorted(s[..n]);
      InsertFromRightKeepsFirst(StableSort(s[..n]), s[n]);
    }
  }

  // The array while v sinks: it stands at curr, what it has passed is behind it.
  ghost function Sinking(sorted: seq<Value>, tail: seq<Value>, curr: nat, v: Value): (r: seq<Value>)
    requires curr <= |sorted|
    ensures |r| == |sorted| + 1 + |tail|
    ensures r[curr] == v
    ensures curr > 0 ==> r[curr - 1] == sorted[curr - 1]
  {
    sorted[..curr] + [v] + sorted[curr..] + tail
  }

  // The inner loop of InsertionSort: a[it] sinks into the sorted prefix before it.
  method Sink(a: array<Value>, it: nat)
    requires it < a.Length
    modifies a
    ensures a[..] == InsertFromRight(old(a[..it]), old(a[it])) + old(a[it + 1..])
  {
    var curr := it;
    ghost var v, sorted, tail := a[it], a[..it], a[it + 1..];
    SinkStart(a[..], it);
    while curr != 0 && a[curr].key < a[curr - 1].key
      invariant 0 <= curr <= it
      invariant a[..] == Sinking(sorted, tail, curr, v)
      invariant InsertFromRight(sorted, v) == InsertFromRight(sorted[..curr], v) + sorted[curr..]
    {
      ghost var now := a[..];
      assert a[curr] == now[curr] && a[curr - 1] == now[curr - 1];
      SinkStep(sorted, tail, curr, v);
      a[curr], a[curr - 1] := a[curr - 1], a[curr];
      assert a[..] == now[curr := now[curr - 1]][curr - 1 := now[curr]];
      curr := curr - 1;
    }
    assert a[curr] == a[..][curr] && (curr > 0 ==> a[curr - 1] == a[..][curr - 1]);
    SinkEnd(sorted, tail, curr, v);
  }

  lemma SinkStart(now: seq<Value>, it: nat)
    requires it < |now|
    ensures now == Sinking(now[..it], now[it + 1..], it, now[it])
    ensures InsertFromRight(now[..it], now[it])
            == InsertFromRight(now[..it][..it], now[it]) + now[..it][it..]
  {
    assert now[..it][..it] == now[..it] && now[..it][it..] == [];
  }

  lemma SinkStep(sorted: seq<Value>, tail: seq<Value>, curr: nat, v: Value)
    requires 0 < curr <= |sorted| && v.key < sorted[curr - 1].key
    ensures InsertFromRight(sorted[..curr], v) + sorted[curr..]
            == InsertFromRight(sorted[..curr - 1], v) + sorted[curr - 1..]
    ensures var now := Sinking(sorted, tail, curr, v);
            now[curr := now[curr - 1]][curr - 1 := now[curr]] == Sinking(sorted, tail, curr - 1, v)
  {
    hide InsertFromRight, Sinking;
    PastLast(sorted[..curr], v);
    assert sorted[..curr][..curr - 1] == sorted[..curr - 1];
    assert sorted[curr - 1..] == [sorted[curr - 1]] + sorted[curr..];
    SinkSwap(sorted, tail, curr, v);
  }

  lemma PastLast(s: seq<Value>, v: Value)
    requires s != [] && v.key < s[|s| - 1].key
    ensures InsertFromRight(s, v) == InsertFromRight(s[..|s| - 1], v) + [s[|s| - 1]]
  {
  }

  lemma SinkSwap(sorted: seq<Value>, tail: seq<Value>, curr: nat, v: Value)
    requires 0 < curr <= |sorted|
    ensures var now := Sinking(sorted, tail, curr, v);
            now[curr := now[curr - 1]][curr - 1 := now[curr]] == Sinking(sorted, tail, curr - 1, v)
  {
    var now := Sinking(sorted, tail, curr, v);
    var swapped := now[curr := now[curr - 1]][curr - 1 := now[curr]];
    var next := Sinking(sorted, tail, curr - 1, v);
    forall k | 0 <= k < |now|
      ensures swapped[k] == next[k]
    {
    }
  }

  lemma SinkEnd(sorted: seq<Value>, tail: seq<Value>, curr: nat, v: Value)
    requires curr <= |sorted| && (curr == 0 || !(v.key < sorted[curr - 1].key))
    requires InsertFromRight(sorted, v) == InsertFromRight(sorted[..curr], v) + sorted[curr..]
    ensures Sinking(sorted, tail, curr, v) == InsertFromRight(sorted, v) + tail
  {
    assert InsertFromRight(sorted[..curr], v) == sorted[..curr] + [v];
  }

  /** The repository's own constexpr sort, in place. */
  method InsertionSort(a: array<Value>)
    modifies a
    ensures a[..] == StableSort(old(a[..]))
  {
    if a.Length == 0 {
      return;
    }
    ghost var was := a[..];
    assert StableSort(was[..1]) == was[..1] by {
      assert was[..1][..0] == [];
    }
    for it := 1 to a.Length
      invariant a[..it] == StableSort(was[..it])
      invariant a[it..] == was[it..]
    {
      assert a[it] == a[it..][0] == was[it];
      assert was[..it + 1][..it] == was[..it];
      assert a[it + 1..] == a[it..][1..] == was[it + 1..];
      Sink(a, it);
      ghost var now := a[..];
      assert now[..it + 1] == a[..it + 1] && now[it + 1..] == a[it + 1..];
    }
    assert a[..a.Length] == a[..] && was[..a.Length] == was;
  }

  // ---------------------------------------------------------------------------------------
  // Batch insertion
  // ---------------------------------------------------------------------------------------

  function AddUnique(r: seq<Value>, v: Value): seq<Value> {
    if r != [] && !(r[|r| - 1].key < v.key) then r else r + [v]
  }

  // std::unique with the tree's equality: of neighbours with equal keys the first stays.
  function Unique(s: seq<Value>): (r: seq<Value>)
    ensures |r| <= |s|
    ensures r == [] <==> s == []
  {
    if s == [] then [] else AddUnique(Unique(s[..|s| - 1]), s[|s| - 1])
  }

  lemma {:induction false} UniqueOfSorted(s: seq<Value>)
    requires SortedByKey(s)
    ensures SortedUnique(Unique(s))
    ensures FirstWins(Unique(s)) == FirstWins(s)
    ensures s != [] ==> Unique(s)[|Unique(s)| - 1].key == s[|s| - 1].key
  {
    hide Keep;
    if s != [] {
      var n := |s| - 1;
      UniqueOfSorted(s[..n]);
      UniqueStep(Unique(s[..n]), s[n]);
    }
  }

  lemma UniqueStep(r: seq<Value>, v: Value)
    requires SortedUnique(r) && (r != [] ==> r[|r| - 1].key <= v.key)
    ensures SortedUnique(AddUnique(r, v)) && FirstWins(AddUnique(r, v)) == Keep(FirstWins(r), v)
  {
    hide FirstWins;
    FirstWinsKeys(r);
    if r != [] && !(r[|r| - 1].key < v.key) {
      assert r[|r| - 1] in r;
    } else {
      FirstWinsAppend(r, v);
    }
  }

  // std::inplace_merge: of equal keys those from the left come first.
  function Merge(a: seq<Value>, b: seq<Value>): (r: seq<Value>)
    ensures |r| == |a| + |b|
    ensures forall x :: x in r <==> x in a || x in b
  {
    if a == [] then b
    else if b == [] then a
    else if b[0].key < a[0].key then
      assert b == [b[0]] + b[1..];
      [b[0]] + Merge(a, b[1..])
    else
      assert a == [a[0]] + a[1..];
      [a[0]] + Merge(a[1..], b)
  }

  ghost predicate Apart(a: seq<Value>, b: seq<Value>) {
    forall x, y :: x in a && y in b ==> x.key != y.key
  }

  lemma HeadLeast(s: seq<Value>)
    requires SortedUnique(s) && s != []
    ensures SortedUnique(s[1..])
    ensures forall x :: x in s[1..] ==> x in s && s[0].key < x.key
    ensures forall x :: x in s ==> s[0].key <= x.key
  {
  }

  lemma {:induction false} MergeSorted(a: seq<Value>, b: seq<Value>)
    requires SortedUnique(a) && SortedUnique(b) && Apart(a, b)
    ensures SortedUnique(Merge(a, b))
  {
    if a != [] && b != [] {
      assert a[0] in a && b[0] in b;
      HeadLeast(a);
      HeadLeast(b);
      if b[0].key < a[0].key {
        MergeSorted(a, b[1..]);
        ConsSorted(b[0], Merge(a, b[1..]));
      } else {
        MergeSorted(a[1..], b);
        ConsSorted(a[0], Merge(a[1..], b));
      }
    }
  }

  lemma ConsSorted(v: Value, s: seq<Value>)
    requires SortedUnique(s) && forall x :: x in s ==> v.key < x.key
    ensures SortedUnique([v] + s)
  {
  }

  lemma MergeContent(a: seq<Value>, b: seq<Value>)
    requires SortedUnique(a) && SortedUnique(b) && Apart(a, b)
    ensures SortedUnique(Merge(a, b))
    ensures FirstWins(Merge(a, b)) == FirstWins(a) + FirstWins(b)
  {
    MergeSorted(a, b);
    UniqueContent(a);
    UniqueContent(b);
    ContentOfSorted(Merge(a, b), FirstWins(a) + FirstWins(b));
  }

  lemma {:induction false} MergeBehindPrefix(p: seq<Value>, a: seq<Value>, b: seq<Value>)
    requires b != [] ==> forall x :: x in p ==> x.key < b[0].key
    ensures Merge(p + a, b) == p + Merge(a, b)
  {
    if p == [] {
      assert p + a == a;
    } else if b == [] {
      assert Merge(a, b) == a;
    } else {
      assert p[0] in p;
      assert (p + a)[1..] == p[1..] + a && (p + a)[0] == p[0];
      assert forall x :: x in p[1..] ==> x in p;
      MergeBehindPrefix(p[1..], a, b);
      assert p == [p[0]] + p[1..];
    }
  }

  lemma NotIn(a: seq<Value>, b: seq<Value>, v: Value)
    requires Apart(a, b) && v in b
    ensures v.key !in FirstWins(a)
  {
    FirstWinsKeys(a);
  }

  lemma KeepRight(a: map<int, Value>, b: map<int, Value>, v: Value)
    requires v.key !in a
    ensures Keep(a + b, v) == a + Keep(b, v)
  {
  }

  lemma ApartPrefix(a: seq<Value>, b: seq<Value>, v: Value)
    requires Apart(a, b + [v])
    ensures Apart(a, b) && v.key !in FirstWins(a)
  {
    assert v in b + [v];
    assert forall y :: y in b ==> y in b + [v];
    NotIn(a, b + [v], v);
  }

  lemma {:induction false} ContentOfApart(a: seq<Value>, b: seq<Value>)
    requires Apart(a, b)
    ensures FirstWins(a + b) == FirstWins(a) + FirstWins(b)
  {
    if b == [] {
      assert a + b == a;
    } else {
      var c, v := b[..|b| - 1], b[|b| - 1];
      assert b == c + [v] && a + b == (a + c) + [v];
      ApartPrefix(a, c, v);
      ContentOfApart(a, c);
      FirstWinsAppend(a + c, v);
      KeepRight(FirstWins(a), FirstWins(c), v);
    }
  }

  // What the batch insertion knows about the new values it has appended to the old ones.
  ghost predicate Appended(held: seq<Value>, added: seq<Value>, first: nat) {
    && first <= |held|
    && Apart(held, added)
    && (forall x, y :: x in held[..first] && y in added ==> x.key < y.key)
  }

  lemma AbsentKey(s: seq<Value>, key: int)
    requires SortedUnique(s) && !FoundAt(s, key, LowerBound(s, key))
    ensures forall x :: x in s ==> x.key != key
    ensures forall x :: x in s[..LowerBound(s, key)] ==> x.key < key
  {
    FoundIffPresent(s, key);
    FirstWinsKeys(s);
  }

  lemma ApartStep(held: seq<Value>, added: seq<Value>, v: Value)
    requires Apart(held, added) && forall x :: x in held ==> x.key != v.key
    ensures Apart(held, added + [v])
  {
    forall x, y | x in held && y in added + [v]
      ensures x.key != y.key
    {
      assert y in added || y == v;
    }
  }

  lemma AppendedStep(held: seq<Value>, added: seq<Value>, first: nat, v: Value)
    requires SortedUnique(held) && Appended(held, added, first)
    requires !FoundAt(held, v.key, LowerBound(held, v.key))
    ensures var p := LowerBound(held, v.key);
            Appended(held, added + [v], if p < first then p else first)
  {
    hide LowerBound, SortedUnique;
    AbsentKey(held, v.key);
    ApartStep(held, added, v);
    var p := LowerBound(held, v.key);
    var first' := if p < first then p else first;
    forall x, y | x in held[..first'] && y in added + [v]
      ensures x.key < y.key
    {
      InPrefixes(held, first', first, x);
      InPrefixes(held, first', p, x);
      assert y in added || y == v;
    }
  }

  lemma InPrefixes(s: seq<Value>, m: nat, n: nat, x: Value)
    requires m <= n <= |s| && x in s[..m]
    ensures x in s[..n]
  {
    var i :| 0 <= i < m && s[..m][i] == x;
    assert s[..n][i] == x;
  }

  lemma SortedTail(added: seq<Value>)
    ensures var tail := Unique(StableSort(added));
            && SortedUnique(tail)
            && FirstWins(tail) == FirstWins(added)
            && forall y :: y in tail ==> y in added
  {
    var tail := Unique(StableSort(added));
    StableSortSorted(added);
    StableSortKeepsFirst(added);
    UniqueOfSorted(StableSort(added));
    UniqueContent(tail);
    FirstWinsKeys(added);
    forall y | y in tail
      ensures y in added
    {
      assert FirstWins(added)[y.key] == y;
    }
  }

  /** Sorting the appended values, dropping repetitions and merging from the first insertion
      point gives the sorted body with the content of old and new values one after another. */
  lemma BatchCorrect(held: seq<Value>, added: seq<Value>, first: nat)
    requires SortedUnique(held) && Appended(held, added, first)
    ensures var r := held[..first] + Merge(held[first..], Unique(StableSort(added)));
            SortedUnique(r) && FirstWins(r) == FirstWins(held + added)
  {
    var tail := Unique(StableSort(added));
    SortedTail(added);
    assert held == held[..first] + held[first..];
    assert tail != [] ==> tail[0] in tail;
    MergeBehindPrefix(held[..first], held[first..], tail);
    MergeContent(held, tail);
    ContentOfApart(held, added);
  }

  // ---------------------------------------------------------------------------------------
  // The tree
  // ---------------------------------------------------------------------------------------

  function Filter(s: seq<Value>, drop: Value -> bool): seq<Value> {
    if s == [] then []
    else Filter(s[..|s| - 1], drop) + if drop(s[|s| - 1]) then [] else [s[|s| - 1]]
  }

  lemma {:induction false} FilterKeeps(s: seq<Value>, drop: Value -> bool)
    requires SortedUnique(s)
    ensures SortedUnique(Filter(s, drop))
    ensures forall x :: x in Filter(s, drop) <==> x in s && !drop(x)
  {
    if s != [] {
      var n := |s| - 1;
      FilterKeeps(s[..n], drop);
      assert s == s[..n] + [s[n]];
      forall x | x in Filter(s[..n], drop)
        ensures x.key < s[n].key
      {
        var i :| 0 <= i < n && s[..n][i] == x;
      }
    }
  }

  class FlatTree {
    var body: seq<Value>

    constructor ()
      ensures body == []
    {
      body := [];
    }

    method Contains(key: int) returns (found: bool)
      requires SortedUnique(body)
      ensures found <==> key in FirstWins(body)
    {
      var lower := LowerBound(body, key);
      found := lower != |body| && !(key < body[lower].key);
      FoundIffPresent(body, key);
    }

    // equal_range: the positions that hold the key, none or one.
    method EqualRange(key: int) returns (first: nat, last: nat)
      requires SortedUnique(body)
      ensures first <= last <= |body|
      ensures forall i :: 0 <= i < |body| ==> (body[i].key == key <==> first <= i < last)
      ensures last - first == if key in FirstWins(body) then 1 else 0
    {
      FoundIffPresent(body, key);
      first := LowerBound(body, key);
      if first == |body| || key < body[first].key {
        last := first;
      } else {
        last := first + 1;
      }
      assert forall i :: first < i < |body| ==> body[first].key < body[i].key;
    }

    method EraseKey(key: int) returns (erased: nat)
      requires SortedUnique(body)
      modifies this
      ensures SortedUnique(body)
      ensures FirstWins(body) == FirstWins(old(body)) - {key}
      ensures erased == if key in FirstWins(old(body)) then 1 else 0
    {
      var first, last := EqualRange(key);
      ErasedContent(body, key, first, last);
      erased := last - first;
      body := body[..first] + body[last..];
    }

    method EraseIf(drop: Value -> bool) returns (removed: nat)
      requires SortedUnique(body)
      modifies this
      ensures SortedUnique(body)
      ensures forall x :: x in body <==> x in old(body) && !drop(x)
      ensures removed == |old(body)| - |body|
    {
      FilterKeeps(body, drop);
      FilterShorter(body, drop);
      var rest := Filter(body, drop);
      removed := |body| - |rest|;
      body := rest;
    }

    method EmplaceKey(v: Value) returns (position: nat, inserted: bool)
      requires SortedUnique(body)
      modifies this
      ensures body == InsertOne(old(body), v) && SortedUnique(body)
      ensures position == LowerBound(old(body), v.key)
      ensures inserted <==> v.key !in FirstWins(old(body))
    {
      InsertOneCorrect(body, v);
      FoundIffPresent(body, v.key);
      position := LowerBound(body, v.key);
      inserted := position == |body| || v.key < body[position].key;
      if inserted {
        body := body[..position] + [v] + body[position..];
      }
    }

    /** Whatever the hint, the outcome is that of the insertion without one. */
    method EmplaceHint(hint: nat, v: Value) returns (position: nat, inserted: bool)
      requires SortedUnique(body) && hint <= |body|
      modifies this
      ensures body == InsertOne(old(body), v) && SortedUnique(body)
      ensures position == LowerBound(old(body), v.key)
      ensures inserted <==> v.key !in FirstWins(old(body))
    {
      if hint == 0 || body[hint - 1].key < v.key {
        if hint == |body| || v.key < body[hint].key {
          LowerBoundIs(body, v.key, hint);
          FoundIffPresent(body, v.key);
          InsertOneCorrect(body, v);
          body := body[..hint] + [v] + body[hint..];
          return hint, true;
        }
        if !(body[hint].key < v.key) {
          LowerBoundIs(body, v.key, hint);
          FoundIffPresent(body, v.key);
          return hint, false;
        }
      }
      position, inserted := EmplaceKey(v);
    }

    method InsertOrAssign(v: Value) returns (position: nat, inserted: bool)
      requires SortedUnique(body)
      modifies this
      ensures SortedUnique(body)
      ensures FirstWins(body) == FirstWins(old(body))[v.key := v]
      ensures position < |body| && body[position] == v
      ensures inserted <==> v.key !in FirstWins(old(body))
    {
      position, inserted := EmplaceKey(v);
      ghost var was := body;
      UniqueContent(was);
      InsertOneHolds(old(body), v);
      if !inserted {
        body := body[position := v];
        AssignedContent(was, position, v);
      }
    }

    method AppendUnique(last: nat, v: Value) returns (position: nat, appended: bool)
      requires last <= |body|
      modifies this
      ensures position == LowerBound(old(body)[..last], v.key)
      ensures appended <==> !FoundAt(old(body)[..last], v.key, position)
      ensures body == if appended then old(body) + [v] else old(body)
    {
      position := LowerBound(body[..last], v.key);
      appended := position == last || v.key < body[position].key;
      if appended {
        body := body + [v];
      }
    }

    // The loop of the batch insertion: values with new keys go to the end of the body.
    method AppendNew(vs: seq<Value>) returns (posFirstNew: nat)
      requires SortedUnique(body)
      modifies this
      ensures Batch(old(body), body, vs, |vs|, posFirstNew)
    {
      ghost var was := body;
      var size: nat := |body|;
      posFirstNew := size;
      assert body[size..] == [] && was + vs[..0] == was;
      for i := 0 to |vs|
        invariant Batch(was, body, vs, i, posFirstNew)
      {
        BatchStep(was, body, vs, i, posFirstNew);
        var position, appended := AppendUnique(size, vs[i]);
        if appended && position < posFirstNew {
          posFirstNew := position;
        }
      }
    }

    /** Batch insertion is the insertion of the values one by one, from left to right. */
    method InsertRange(vs: seq<Value>, multipass: bool)
      requires SortedUnique(body)
      modifies this
      ensures body == InsertAll(old(body), vs)
      ensures SortedUnique(body)
    {
      InsertAllCorrect(body, vs);
      if vs == [] {
        return;
      }
      if multipass && |vs| == 1 {
        var _, _ := EmplaceHint(|body|, vs[0]);
        return;
      }
      var size: nat := |body|;
      ghost var was := body;
      var posFirstNew := AppendNew(vs);
      BatchDone(was, body, vs, posFirstNew);
      body := body[..size] + Unique(StableSort(body[size..]));
      body := body[..posFirstNew] + Merge(body[posFirstNew..size], body[size..]);
    }
  }

  // Where the batch insertion stands after the first i new values.
  ghost predicate Batch(was: seq<Value>, body: seq<Value>, vs: seq<Value>, i: nat, first: nat) {
    && i <= |vs|
    && |was| <= |body| && body[..|was|] == was
    && Appended(was, body[|was|..], first)
    && FirstWins(body) == FirstWins(was + vs[..i])
  }

  lemma BatchStep(was: seq<Value>, body: seq<Value>, vs: seq<Value>, i: nat, first: nat)
    requires SortedUnique(was) && i < |vs| && Batch(was, body, vs, i, first)
    ensures var p := LowerBound(was, vs[i].key);
            if FoundAt(was, vs[i].key, p) then Batch(was, body, vs, i + 1, first)
            else Batch(was, body + [vs[i]], vs, i + 1, if p < first then p else first)
  {
    BatchLoopStep(was, body, vs, i);
    if !FoundAt(was, vs[i].key, LowerBound(was, vs[i].key)) {
      AppendedStep(was, body[|was|..], first, vs[i]);
      SlicesOfAppend(body, |was|, vs[i]);
    }
  }

  lemma SlicesOfAppend(s: seq<Value>, k: nat, v: Value)
    requires k <= |s|
    ensures (s + [v])[..k] == s[..k]
    ensures (s + [v])[k..] == s[k..] + [v]
  {
  }

  lemma BatchDone(was: seq<Value>, body: seq<Value>, vs: seq<Value>, first: nat)
    requires SortedUnique(was) && Batch(was, body, vs, |vs|, first)
    ensures var sorted := body[..|was|] + Unique(StableSort(body[|was|..]));
            sorted[..first] + Merge(sorted[first..|was|], sorted[|was|..]) == InsertAll(was, vs)
  {
    var news := body[|was|..];
    var tail := Unique(StableSort(news));
    SlicesOfConcat(was, tail, first);
    BatchCorrect(was, news, first);
    assert body == was + news && vs[..|vs|] == vs;
    InsertAllCorrect(was, vs);
    FirstWinsConcat(was, vs);
    ContentDeterminesBody(was[..first] + Merge(was[first..], tail), InsertAll(was, vs));
  }

  lemma SlicesOfConcat(a: seq<Value>, b: seq<Value>, k: nat)
    requires k <= |a|
    ensures (a + b)[..k] == a[..k]
    ensures (a + b)[k..|a|] == a[k..]
    ensures (a + b)[|a|..] == b
  {
  }

  lemma BatchLoopStep(was: seq<Value>, body: seq<Value>, vs: seq<Value>, i: nat)
    requires i < |vs| && |was| <= |body| && body[..|was|] == was
    requires FirstWins(body) == FirstWins(was + vs[..i])
    ensures FirstWins(body + [vs[i]]) == FirstWins(was + vs[..i + 1])
    ensures FoundAt(was, vs[i].key, LowerBound(was, vs[i].key)) ==> FirstWins(body) == FirstWins(was + vs[..i + 1])
  {
    assert was + vs[..i + 1] == (was + vs[..i]) + [vs[i]];
    FirstWinsAppend(was + vs[..i], vs[i]);
    FirstWinsAppend(body, vs[i]);
    FirstWinsKeys(body);
    var p := LowerBound(was, vs[i].key);
    if FoundAt(was, vs[i].key, p) {
      assert body[p] == body[..|was|][p] == was[p] && body[p] in body;
    }
  }

  lemma ErasedHolds(s: seq<Value>, key: int, first: nat, last: nat)
    requires first <= last <= |s|
    requires forall i :: 0 <= i < |s| ==> (s[i].key == key <==> first <= i < last)
    ensures forall x :: x in s[..first] + s[last..] <==> x in s && x.key != key
  {
    var r := s[..first] + s[last..];
    forall x | x in r
      ensures x in s && x.key != key
    {
      var i :| 0 <= i < |r| && r[i] == x;
      var j := if i < first then i else i + (last - first);
      assert s[j] == x;
    }
    forall x | x in s && x.key != key
      ensures x in r
    {
      var i :| 0 <= i < |s| && s[i] == x;
      assert r[if i < first then i else i - (last - first)] == x;
    }
  }

  lemma ErasedSorted(s: seq<Value>, first: nat, last: nat)
    requires SortedUnique(s) && first <= last <= |s|
    ensures SortedUnique(s[..first] + s[last..])
  {
    var r := s[..first] + s[last..];
    forall i, j | 0 <= i < j < |r|
      ensures r[i].key < r[j].key
    {
      var i' := if i < first then i else i + (last - first);
      var j' := if j < first then j else j + (last - first);
      assert r[i] == s[i'] && r[j] == s[j'];
    }
  }

  lemma ErasedContent(s: seq<Value>, key: int, first: nat, last: nat)
    requires SortedUnique(s) && first <= last <= |s|
    requires forall i :: 0 <= i < |s| ==> (s[i].key == key <==> first <= i < last)
    ensures SortedUnique(s[..first] + s[last..])
    ensures FirstWins(s[..first] + s[last..]) == FirstWins(s) - {key}
  {
    UniqueContent(s);
    ErasedHolds(s, key, first, last);
    ErasedSorted(s, first, last);
    ContentOfSorted(s[..first] + s[last..], FirstWins(s) - {key});
  }

  lemma {:induction false} FilterShorter(s: seq<Value>, drop: Value -> bool)
    ensures |Filter(s, drop)| <= |s|
  {
    if s != [] {
      FilterShorter(s[..|s| - 1], drop);
    }
  }

  lemma InsertOneHolds(s: seq<Value>, v: Value)
    requires SortedUnique(s)
    ensures var p := LowerBound(s, v.key);
            var r := InsertOne(s, v);
            && SortedUnique(r) && FirstWins(r) == Keep(FirstWins(s), v)
            && p < |r| && r[p].key == v.key
            && (v.key !in FirstWins(s) ==> r[p] == v)
  {
    InsertOneCorrect(s, v);
    FoundIffPresent(s, v.key);
  }

  lemma AssignedContent(s: seq<Value>, p: nat, v: Value)
    requires SortedUnique(s) && p < |s| && s[p].key == v.key
    ensures SortedUnique(s[p := v])
    ensures FirstWins(s[p := v]) == FirstWins(s)[v.key := v]
  {
    UniqueContent(s);
    var r, m := s[p := v], FirstWins(s)[v.key := v];
    forall x | x in r
      ensures x.key in m && m[x.key] == x
    {
      var i :| 0 <= i < |r| && r[i] == x;
      assert i != p ==> s[i] == x && s[i] in s && s[i].key != s[p].key;
    }
    forall k | k in m
      ensures m[k].key == k && m[k] in r
    {
      if k == v.key {
        assert r[p] == v;
      } else {
        var i :| 0 <= i < |s| && s[i] == m[k];
        assert r[i] == s[i];
      }
    }
    ContentOfSorted(r, m);
  }
}
