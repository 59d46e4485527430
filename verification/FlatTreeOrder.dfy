/** flat_tree over any comparator. The insertions of FlatTree are stated here for values of any type
    and a strict weak order on them, with equivalence in place of equal keys; for the values that
    occur, the order is that of their ranks, and the theorems come back from there. */
module FlatTreeOrder {
  import F = FlatTree

  // ---------------------------------------------------------------------------------------
  // The order
  // ---------------------------------------------------------------------------------------

  predicate Equivalent<V>(less: (V, V) -> bool, a: V, b: V) {
    !less(a, b) && !less(b, a)
  }

  /** What the standard asks of a Compare: irreflexive and transitive, with a transitive
      equivalence. */
  ghost predicate StrictWeak<V(!new)>(less: (V, V) -> bool) {
    && (forall a :: !less(a, a))
    && (forall a, b, c :: less(a, b) && less(b, c) ==> less(a, c))
    && (forall a, b, c :: Equivalent(less, a, b) && Equivalent(less, b, c) ==> Equivalent(less, a, c))
  }

  ghost predicate SortedBy<V>(less: (V, V) -> bool, s: seq<V>) {
    forall i, j :: 0 <= i < j < |s| ==> less(s[i], s[j])
  }

  // ---------------------------------------------------------------------------------------
  // The insertions
  // ---------------------------------------------------------------------------------------

  // std::lower_bound: the first position whose value is not less.
  function LowerBound<V>(less: (V, V) -> bool, s: seq<V>, v: V): (p: nat)
    ensures p <= |s|
    ensures p < |s| ==> !less(s[p], v)
    ensures forall i :: 0 <= i < p ==> less(s[i], v)
  {
    if s == [] || !less(s[0], v) then 0 else 1 + LowerBound(less, s[1..], v)
  }

  predicate FoundAt<V>(less: (V, V) -> bool, s: seq<V>, v: V, p: nat)
    requires p <= |s|
  {
    p < |s| && !less(v, s[p])
  }

  function InsertOne<V>(less: (V, V) -> bool, s: seq<V>, v: V): seq<V> {
    var p := LowerBound(less, s, v);
    if FoundAt(less, s, v, p) then s else s[..p] + [v] + s[p..]
  }

  function InsertAll<V>(less: (V, V) -> bool, s: seq<V>, vs: seq<V>): seq<V>
    decreases |vs|
  {
    if vs == [] then s else InsertAll(less, InsertOne(less, s, vs[0]), vs[1..])
  }

  // The insertion with a hint.
  function InsertHint<V>(less: (V, V) -> bool, s: seq<V>, hint: nat, v: V): seq<V>
    requires hint <= |s|
  {
    if (hint == 0 || less(s[hint - 1], v)) && (hint == |s| || less(v, s[hint])) then s[..hint] + [v] + s[hint..]
    else if (hint == 0 || less(s[hint - 1], v)) && !less(s[hint], v) then s
    else InsertOne(less, s, v)
  }

  function InsertFromRight<V>(less: (V, V) -> bool, s: seq<V>, v: V): (r: seq<V>)
    ensures |r| == |s| + 1
  {
    if s == [] || !less(v, s[|s| - 1]) then s + [v]
    else InsertFromRight(less, s[..|s| - 1], v) + [s[|s| - 1]]
  }

  function StableSort<V>(less: (V, V) -> bool, s: seq<V>): seq<V> {
    if s == [] then [] else InsertFromRight(less, StableSort(less, s[..|s| - 1]), s[|s| - 1])
  }

  function AddUnique<V>(less: (V, V) -> bool, r: seq<V>, v: V): seq<V> {
    if r != [] && !less(r[|r| - 1], v) then r else r + [v]
  }

  function Unique<V>(less: (V, V) -> bool, s: seq<V>): seq<V> {
    if s == [] then [] else AddUnique(less, Unique(less, s[..|s| - 1]), s[|s| - 1])
  }

  function Merge<V>(less: (V, V) -> bool, a: seq<V>, b: seq<V>): seq<V> {
    if a == [] then b
    else if b == [] then a
    else if less(b[0], a[0]) then [b[0]] + Merge(less, a, b[1..])
    else [a[0]] + Merge(less, a[1..], b)
  }

  // The values appended by the batch insertion and the first insertion point.
  function AppendNew<V>(less: (V, V) -> bool, s: seq<V>, vs: seq<V>): (r: (seq<V>, nat))
    ensures r.1 <= |s|
  {
    if vs == [] then ([], |s|)
    else
      var (added, first) := AppendNew(less, s, vs[..|vs| - 1]);
      var v := vs[|vs| - 1];
      var p := LowerBound(less, s, v);
      if FoundAt(less, s, v, p) then (added, first) else (added + [v], if p < first then p else first)
  }

  function InsertRange<V>(less: (V, V) -> bool, s: seq<V>, vs: seq<V>): seq<V> {
    var (added, first) := AppendNew(less, s, vs);
    s[..first] + Merge(less, s[first..], Unique(less, StableSort(less, added)))
  }

  // ---------------------------------------------------------------------------------------
  // Ranks
  // ---------------------------------------------------------------------------------------

  ghost function Below<V(!new)>(less: (V, V) -> bool, all: seq<V>, v: V): set<int> {
    set i | 0 <= i < |all| && less(all[i], v)
  }

  lemma ProperSubset(a: set<int>, b: set<int>, x: int)
    requires a <= b && x in b - a
    ensures |a| < |b|
  {
    assert b == a + (b - a);
    assert |b| == |a| + |b - a|;
    assert |b - a| > 0;
  }

  lemma RankLess<V(!new)>(less: (V, V) -> bool, all: seq<V>, a: V, b: V)
    requires StrictWeak(less) && a in all && less(a, b)
    ensures |Below(less, all, a)| < |Below(less, all, b)|
  {
    var k :| 0 <= k < |all| && all[k] == a;
    assert k in Below(less, all, b) && k !in Below(less, all, a);
    ProperSubset(Below(less, all, a), Below(less, all, b), k);
  }

  lemma RankEqual<V(!new)>(less: (V, V) -> bool, all: seq<V>, a: V, b: V)
    requires StrictWeak(less) && Equivalent(less, a, b)
    ensures Below(less, all, a) == Below(less, all, b)
  {
    forall i | 0 <= i < |all|
      ensures less(all[i], a) <==> less(all[i], b)
    {
      if less(all[i], a) {
        SameSide(less, all[i], a, b);
      } else if less(all[i], b) {
        SameSide(less, all[i], b, a);
      }
    }
  }

  lemma SameSide<V(!new)>(less: (V, V) -> bool, x: V, a: V, b: V)
    requires StrictWeak(less) && Equivalent(less, a, b) && less(x, a)
    ensures less(x, b)
  {
    if !less(x, b) {
      assert !less(b, x);
      assert Equivalent(less, x, b) && Equivalent(less, b, a);
    }
  }

  /** Among the values that occur, less is less in rank. */
  lemma RankOrder<V(!new)>(less: (V, V) -> bool, all: seq<V>, a: V, b: V)
    requires StrictWeak(less) && a in all && b in all
    ensures less(a, b) <==> |Below(less, all, a)| < |Below(less, all, b)|
  {
    if less(a, b) {
      RankLess(less, all, a, b);
    } else if less(b, a) {
      RankLess(less, all, b, a);
    } else {
      RankEqual(less, all, a, b);
    }
  }

  // ---------------------------------------------------------------------------------------
  // Values by rank
  // ---------------------------------------------------------------------------------------

  // Where a value stands first among those that occur.
  ghost function IndexOf<V>(all: seq<V>, v: V): (i: nat)
    requires v in all
    ensures i < |all| && all[i] == v
  {
    if all[0] == v then 0 else 1 + IndexOf(all[1..], v)
  }

  ghost function Code<V(!new)>(less: (V, V) -> bool, all: seq<V>, v: V): F.Value
    requires v in all
  {
    F.Value(|Below(less, all, v)|, IndexOf(all, v))
  }

  ghost predicate Within<V>(all: seq<V>, s: seq<V>) {
    forall i :: 0 <= i < |s| ==> s[i] in all
  }

  ghost function Coded<V(!new)>(less: (V, V) -> bool, all: seq<V>, s: seq<V>): (r: seq<F.Value>)
    requires Within(all, s)
    ensures |r| == |s|
    ensures forall i :: 0 <= i < |s| ==> r[i] == Code(less, all, s[i])
  {
    seq(|s|, i requires 0 <= i < |s| => Code(less, all, s[i]))
  }

  lemma CodeOrder<V(!new)>(less: (V, V) -> bool, all: seq<V>, a: V, b: V)
    requires StrictWeak(less) && a in all && b in all
    ensures less(a, b) <==> Code(less, all, a).key < Code(less, all, b).key
    ensures Code(less, all, a) == Code(less, all, b) ==> a == b
  {
    RankOrder(less, all, a, b);
  }

  lemma CodedIsInjective<V(!new)>(less: (V, V) -> bool, all: seq<V>, s: seq<V>, t: seq<V>)
    requires StrictWeak(less) && Within(all, s) && Within(all, t)
    requires Coded(less, all, s) == Coded(less, all, t)
    ensures s == t
  {
    hide Code, StrictWeak;
    forall i | 0 <= i < |s|
      ensures s[i] == t[i]
    {
      assert Coded(less, all, s)[i] == Coded(less, all, t)[i];
      CodeOrder(less, all, s[i], t[i]);
    }
  }

  lemma CodedSorted<V(!new)>(less: (V, V) -> bool, all: seq<V>, s: seq<V>)
    requires StrictWeak(less) && Within(all, s)
    ensures F.SortedUnique(Coded(less, all, s)) <==> SortedBy(less, s)
  {
    hide Code, StrictWeak;
    var c := Coded(less, all, s);
    forall i, j | 0 <= i < j < |s|
      ensures c[i].key < c[j].key <==> less(s[i], s[j])
    {
      CodeOrder(less, all, s[i], s[j]);
    }
  }

  lemma CodedParts<V(!new)>(less: (V, V) -> bool, all: seq<V>, s: seq<V>, k: nat)
    requires Within(all, s) && k <= |s|
    ensures Within(all, s[..k]) && Within(all, s[k..])
    ensures Coded(less, all, s)[..k] == Coded(less, all, s[..k])
    ensures Coded(less, all, s)[k..] == Coded(less, all, s[k..])
  {
    hide Code;
  }

  lemma CodedConcat<V(!new)>(less: (V, V) -> bool, all: seq<V>, s: seq<V>, t: seq<V>)
    requires Within(all, s) && Within(all, t)
    ensures Within(all, s + t) && Coded(less, all, s + t) == Coded(less, all, s) + Coded(less, all, t)
  {
    hide Code;
  }

  lemma CodedOne<V(!new)>(less: (V, V) -> bool, all: seq<V>, v: V)
    requires v in all
    ensures Within(all, [v]) && Coded(less, all, [v]) == [Code(less, all, v)]
  {
    hide Code;
  }

  // ---------------------------------------------------------------------------------------
  // The insertions by rank
  // ---------------------------------------------------------------------------------------

  lemma {:induction false} CodedLowerBound<V(!new)>(less: (V, V) -> bool, all: seq<V>, s: seq<V>, v: V)
    requires StrictWeak(less) && Within(all, s) && v in all
    ensures var c, k, p := Coded(less, all, s), Code(less, all, v).key, LowerBound(less, s, v);
            F.LowerBound(c, k) == p && (F.FoundAt(c, k, p) <==> FoundAt(less, s, v, p))
  {
    hide Code, StrictWeak;
    var p := LowerBound(less, s, v);
    if p < |s| {
      CodeOrder(less, all, v, s[p]);
    }
    if s != [] {
      CodeOrder(less, all, s[0], v);
      CodedParts(less, all, s, 1);
      CodedLowerBound(less, all, s[1..], v);
    }
  }

  lemma CodedInsertOne<V(!new)>(less: (V, V) -> bool, all: seq<V>, s: seq<V>, v: V)
    requires StrictWeak(less) && Within(all, s) && v in all
    ensures Within(all, InsertOne(less, s, v))
    ensures F.InsertOne(Coded(less, all, s), Code(less, all, v)) == Coded(less, all, InsertOne(less, s, v))
  {
    hide Code, StrictWeak, LowerBound, F.LowerBound, Coded;
    var p := LowerBound(less, s, v);
    CodedLowerBound(less, all, s, v);
    CodedParts(less, all, s, p);
    CodedOne(less, all, v);
    CodedConcat(less, all, s[..p], [v]);
    CodedConcat(less, all, s[..p] + [v], s[p..]);
  }

  lemma {:induction false} CodedInsertAll<V(!new)>(less: (V, V) -> bool, all: seq<V>, s: seq<V>, vs: seq<V>)
    requires StrictWeak(less) && Within(all, s) && Within(all, vs)
    ensures Within(all, InsertAll(less, s, vs))
    ensures F.InsertAll(Coded(less, all, s), Coded(less, all, vs)) == Coded(less, all, InsertAll(less, s, vs))
    decreases |vs|
  {
    hide Code, StrictWeak, InsertOne, F.InsertOne;
    if vs != [] {
      CodedInsertOne(less, all, s, vs[0]);
      CodedParts(less, all, vs, 1);
      CodedInsertAll(less, all, InsertOne(less, s, vs[0]), vs[1..]);
    }
  }

  lemma {:induction false} CodedInsertFromRight<V(!new)>(less: (V, V) -> bool, all: seq<V>, s: seq<V>, v: V)
    requires StrictWeak(less) && Within(all, s) && v in all
    ensures Within(all, InsertFromRight(less, s, v))
    ensures F.InsertFromRight(Coded(less, all, s), Code(less, all, v)) == Coded(less, all, InsertFromRight(less, s, v))
  {
    hide Code, StrictWeak;
    CodedOne(less, all, v);
    CodedConcat(less, all, s, [v]);
    if s != [] {
      var n := |s| - 1;
      CodeOrder(less, all, v, s[n]);
      CodedParts(less, all, s, n);
      CodedInsertFromRight(less, all, s[..n], v);
      CodedOne(less, all, s[n]);
      CodedConcat(less, all, InsertFromRight(less, s[..n], v), [s[n]]);
    }
  }

  lemma {:induction false} CodedStableSort<V(!new)>(less: (V, V) -> bool, all: seq<V>, s: seq<V>)
    requires StrictWeak(less) && Within(all, s)
    ensures Within(all, StableSort(less, s))
    ensures F.StableSort(Coded(less, all, s)) == Coded(less, all, StableSort(less, s))
  {
    hide Code, StrictWeak, InsertFromRight, F.InsertFromRight;
    if s != [] {
      var n := |s| - 1;
      CodedParts(less, all, s, n);
      CodedStableSort(less, all, s[..n]);
      CodedInsertFromRight(less, all, StableSort(less, s[..n]), s[n]);
    }
  }

  lemma {:induction false} CodedUnique<V(!new)>(less: (V, V) -> bool, all: seq<V>, s: seq<V>)
    requires StrictWeak(less) && Within(all, s)
    ensures Within(all, Unique(less, s)) && F.Unique(Coded(less, all, s)) == Coded(less, all, Unique(less, s))
  {
    hide Code, StrictWeak, AddUnique, F.AddUnique;
    if s != [] {
      var n := |s| - 1;
      CodedParts(less, all, s, n);
      CodedUnique(less, all, s[..n]);
      CodedAddUnique(less, all, Unique(less, s[..n]), s[n]);
    }
  }

  lemma CodedAddUnique<V(!new)>(less: (V, V) -> bool, all: seq<V>, r: seq<V>, v: V)
    requires StrictWeak(less) && Within(all, r) && v in all
    ensures Within(all, AddUnique(less, r, v))
    ensures F.AddUnique(Coded(less, all, r), Code(less, all, v)) == Coded(less, all, AddUnique(less, r, v))
  {
    hide Code, StrictWeak;
    if r != [] {
      CodeOrder(less, all, r[|r| - 1], v);
    }
    CodedOne(less, all, v);
    CodedConcat(less, all, r, [v]);
  }

  lemma {:induction false} CodedMerge<V(!new)>(less: (V, V) -> bool, all: seq<V>, a: seq<V>, b: seq<V>)
    requires StrictWeak(less) && Within(all, a) && Within(all, b)
    ensures Within(all, Merge(less, a, b))
    ensures F.Merge(Coded(less, all, a), Coded(less, all, b)) == Coded(less, all, Merge(less, a, b))
  {
    hide Code, StrictWeak;
    if a != [] && b != [] {
      CodeOrder(less, all, b[0], a[0]);
      CodedParts(less, all, a, 1);
      CodedParts(less, all, b, 1);
      CodedOne(less, all, a[0]);
      CodedOne(less, all, b[0]);
      if less(b[0], a[0]) {
        CodedMerge(less, all, a, b[1..]);
        CodedConcat(less, all, [b[0]], Merge(less, a, b[1..]));
      } else {
        CodedMerge(less, all, a[1..], b);
        CodedConcat(less, all, [a[0]], Merge(less, a[1..], b));
      }
    }
  }

  // What the loop of the batch insertion has appended, by rank.
  lemma {:induction false} CodedAppendNew<V(!new)>(less: (V, V) -> bool, all: seq<V>, s: seq<V>, vs: seq<V>)
    requires StrictWeak(less) && Within(all, s) && Within(all, vs) && SortedBy(less, s)
    ensures var (added, first) := AppendNew(less, s, vs);
            && Within(all, added)
            && F.Batch(Coded(less, all, s), Coded(less, all, s) + Coded(less, all, added), Coded(less, all, vs), |vs|,
                       first)
  {
    hide Code, StrictWeak, F.Batch, LowerBound, F.LowerBound, F.SortedUnique;
    var was, news := Coded(less, all, s), Coded(less, all, vs);
    CodedSorted(less, all, s);
    if vs == [] {
      NothingAppended(was);
      assert was + Coded(less, all, []) == was && news == [];
    } else {
      var n, v := |vs| - 1, vs[|vs| - 1];
      var (added, first) := AppendNew(less, s, vs[..n]);
      CodedParts(less, all, vs, n);
      CodedAppendNew(less, all, s, vs[..n]);
      var body := was + Coded(less, all, added);
      MoreToCome(was, body, news, n, first);
      CodedLowerBound(less, all, s, v);
      F.BatchStep(was, body, news, n, first);
      CodedOne(less, all, v);
      CodedConcat(less, all, added, [v]);
      assert body + [Code(less, all, v)] == was + (Coded(less, all, added) + [Code(less, all, v)]);
    }
  }

  lemma NothingAppended(was: seq<F.Value>)
    ensures F.Batch(was, was, [], 0, |was|)
  {
    assert was[|was|..] == [] && was + [] == was;
  }

  lemma MoreToCome(was: seq<F.Value>, body: seq<F.Value>, vs: seq<F.Value>, n: nat, first: nat)
    requires n <= |vs| && F.Batch(was, body, vs[..n], n, first)
    ensures F.Batch(was, body, vs, n, first)
  {
    assert vs[..n][..n] == vs[..n];
  }

  lemma CodedInsertRange<V(!new)>(less: (V, V) -> bool, all: seq<V>, s: seq<V>, vs: seq<V>)
    requires StrictWeak(less) && Within(all, s) && Within(all, vs) && SortedBy(less, s)
    ensures Within(all, InsertRange(less, s, vs))
    ensures Coded(less, all, InsertRange(less, s, vs)) == F.InsertAll(Coded(less, all, s), Coded(less, all, vs))
  {
    hide Code, StrictWeak, Coded, F.Batch, Merge, F.Merge, Unique, F.Unique, StableSort, F.StableSort, F.SortedUnique;
    var (added, first) := AppendNew(less, s, vs);
    CodedSorted(less, all, s);
    CodedAppendNew(less, all, s, vs);
    var was, news := Coded(less, all, s), Coded(less, all, added);
    F.BatchDone(was, was + news, Coded(less, all, vs), first);
    F.SlicesOfConcat(was, news, first);
    F.SlicesOfConcat(was, F.Unique(F.StableSort(news)), first);
    assert (was + news)[..|was|] == was;
    CodedStableSort(less, all, added);
    CodedUnique(less, all, StableSort(less, added));
    CodedParts(less, all, s, first);
    CodedMerge(less, all, s[first..], Unique(less, StableSort(less, added)));
    CodedConcat(less, all, s[..first], Merge(less, s[first..], Unique(less, StableSort(less, added))));
  }

  // ---------------------------------------------------------------------------------------
  // Main results
  // ---------------------------------------------------------------------------------------

  lemma AllWithin<V>(s: seq<V>, vs: seq<V>)
    ensures Within(s + vs, s) && Within(s + vs, vs)
  {
    forall i | 0 <= i < |vs|
      ensures vs[i] in s + vs
    {
      assert (s + vs)[|s| + i] == vs[i];
    }
    forall i | 0 <= i < |s|
      ensures s[i] in s + vs
    {
      assert (s + vs)[i] == s[i];
    }
  }

  /** Batch insertion is the insertion of the values one by one, from left to right, whatever the
      values and their order. */
  lemma BatchIsOneByOne<V(!new)>(less: (V, V) -> bool, s: seq<V>, vs: seq<V>)
    requires StrictWeak(less) && SortedBy(less, s)
    ensures InsertRange(less, s, vs) == InsertAll(less, s, vs)
    ensures SortedBy(less, InsertAll(less, s, vs))
  {
    hide StrictWeak, InsertRange, InsertAll, F.InsertAll, Coded, F.SortedUnique;
    var all := s + vs;
    AllWithin(s, vs);
    CodedInsertRange(less, all, s, vs);
    CodedInsertAll(less, all, s, vs);
    CodedIsInjective(less, all, InsertRange(less, s, vs), InsertAll(less, s, vs));
    CodedSorted(less, all, s);
    F.InsertAllCorrect(Coded(less, all, s), Coded(less, all, vs));
    CodedSorted(less, all, InsertAll(less, s, vs));
  }

  /** Whatever the hint, the outcome is that of the insertion without one. */
  lemma HintMakesNoDifference<V(!new)>(less: (V, V) -> bool, s: seq<V>, hint: nat, v: V)
    requires StrictWeak(less) && SortedBy(less, s) && hint <= |s|
    ensures InsertHint(less, s, hint, v) == InsertOne(less, s, v)
  {
    hide LowerBound, SortedBy, StrictWeak;
    if hint == 0 || less(s[hint - 1], v) {
      LowerBoundIs(less, s, hint, v);
    }
    if hint < |s| && less(v, s[hint]) {
      NotBoth(less, v, s[hint]);
    }
  }

  lemma NotBoth<V(!new)>(less: (V, V) -> bool, a: V, b: V)
    requires StrictWeak(less) && less(a, b)
    ensures !less(b, a)
  {
  }

  lemma LowerBoundIs<V(!new)>(less: (V, V) -> bool, s: seq<V>, hint: nat, v: V)
    requires StrictWeak(less) && SortedBy(less, s) && hint <= |s| && (hint == 0 || less(s[hint - 1], v))
    ensures hint == |s| || !less(s[hint], v) ==> LowerBound(less, s, v) == hint
  {
    hide LowerBound, Equivalent;
    forall i | 0 <= i < hint
      ensures less(s[i], v)
    {
      assert i < hint - 1 ==> less(s[i], s[hint - 1]);
    }
  }

  /** The tree finds a value exactly if it holds an equivalent one, and inserting adds the value
      itself exactly if it does not. */
  lemma InsertOneIs<V(!new)>(less: (V, V) -> bool, s: seq<V>, v: V)
    requires StrictWeak(less) && SortedBy(less, s)
    ensures FoundAt(less, s, v, LowerBound(less, s, v)) <==> exists x :: x in s && Equivalent(less, x, v)
    ensures forall x :: x in InsertOne(less, s, v) <==>
                        x in s || (x == v && !exists y :: y in s && Equivalent(less, y, v))
    ensures SortedBy(less, InsertOne(less, s, v))
  {
    var p := LowerBound(less, s, v);
    FoundIffHeld(less, s, v);
    if !FoundAt(less, s, v, p) {
      assert s == s[..p] + s[p..];
      hide StrictWeak, LowerBound;
      InsertAtSorted(less, s, p, v);
    }
  }

  lemma FoundIffHeld<V(!new)>(less: (V, V) -> bool, s: seq<V>, v: V)
    requires StrictWeak(less) && SortedBy(less, s)
    ensures FoundAt(less, s, v, LowerBound(less, s, v)) <==> exists x :: x in s && Equivalent(less, x, v)
    ensures !FoundAt(less, s, v, LowerBound(less, s, v)) ==>
      forall i :: LowerBound(less, s, v) <= i < |s| ==> less(v, s[i])
  {
    var p := LowerBound(less, s, v);
    if FoundAt(less, s, v, p) {
      assert s[p] in s && Equivalent(less, s[p], v);
    } else {
      forall i | p <= i < |s|
        ensures less(v, s[i])
      {
        assert i > p ==> less(s[p], s[i]);
      }
      forall i | 0 <= i < |s|
        ensures !Equivalent(less, s[i], v)
      {
        assert i < p ==> less(s[i], v);
      }
    }
  }

  lemma InsertAtSorted<V(!new)>(less: (V, V) -> bool, s: seq<V>, p: nat, v: V)
    requires SortedBy(less, s) && p <= |s|
    requires (forall i :: 0 <= i < p ==> less(s[i], v)) && (forall i :: p <= i < |s| ==> less(v, s[i]))
    ensures SortedBy(less, s[..p] + [v] + s[p..])
  {
    var r := s[..p] + [v] + s[p..];
    forall i, j | 0 <= i < j < |r|
      ensures less(r[i], r[j])
    {
      assert r[i] == if i < p then s[i] else if i == p then v else s[i - 1];
      assert r[j] == if j < p then s[j] else if j == p then v else s[j - 1];
    }
  }

  // ---------------------------------------------------------------------------------------
  // The tree
  // ---------------------------------------------------------------------------------------

  class OrderedTree<V(!new)> {
    const less: (V, V) -> bool  // value_comp
    var body: seq<V>

    ghost predicate Valid()
      reads this
    {
      StrictWeak(less) && SortedBy(less, body)
    }

    constructor (less: (V, V) -> bool)
      requires StrictWeak(less)
      ensures Valid() && this.less == less && body == []
    {
      this.less, body := less, [];
    }

    method Insert(v: V)
      requires Valid()
      modifies this
      ensures Valid() && body == InsertOne(less, old(body), v)
    {
      hide StrictWeak, SortedBy, LowerBound;
      InsertOneIs(less, body, v);
      var lower := LowerBound(less, body, v);
      if lower == |body| || less(v, body[lower]) {
        body := body[..lower] + [v] + body[lower..];
      }
    }

    method InsertWithHint(hint: nat, v: V)
      requires Valid() && hint <= |body|
      modifies this
      ensures Valid() && body == InsertOne(less, old(body), v)
    {
      hide StrictWeak, SortedBy, LowerBound, InsertOne;
      InsertOneIs(less, body, v);
      HintMakesNoDifference(less, body, hint, v);
      if hint == 0 || less(body[hint - 1], v) {
        if hint == |body| || less(v, body[hint]) {
          body := body[..hint] + [v] + body[hint..];
          return;
        }
        if !less(body[hint], v) {
          return;
        }
      }
      Insert(v);
    }

    method InsertAllOf(vs: seq<V>, multipass: bool)
      requires Valid()
      modifies this
      ensures Valid() && body == InsertAll(less, old(body), vs)
    {
      hide StrictWeak, SortedBy, LowerBound, StableSort, Unique, Merge, InsertOne;
      ghost var was := body;
      BatchIsOneByOne(less, was, vs);
      if vs == [] {
        return;
      }
      if multipass && |vs| == 1 {
        InsertWithHint(|body|, vs[0]);
        return;
      }
      var size: nat := |body|;
      var posFirstNew := AppendAllNew(vs);
      body := body[..size] + Unique(less, StableSort(less, body[size..]));
      body := body[..posFirstNew] + Merge(less, body[posFirstNew..size], body[size..]);
      assert was[..posFirstNew] == (was + Unique(less, StableSort(less, AppendNew(less, was, vs).0)))[..posFirstNew];
    }

    // The loop of the batch insertion.
    method AppendAllNew(vs: seq<V>) returns (posFirstNew: nat)
      modifies this
      ensures body == old(body) + AppendNew(less, old(body), vs).0
      ensures posFirstNew == AppendNew(less, old(body), vs).1
    {
      hide LowerBound;
      ghost var was := body;
      var size: nat := |body|;
      posFirstNew := size;
      for i := 0 to |vs|
        invariant body == was + AppendNew(less, was, vs[..i]).0
        invariant posFirstNew == AppendNew(less, was, vs[..i]).1
      {
        assert vs[..i + 1][..i] == vs[..i];
        assert body[..size] == was;
        var position := LowerBound(less, body[..size], vs[i]);
        if position == size || less(vs[i], body[position]) {
          body := body + [vs[i]];
          if position < posFirstNew {
            posFirstNew := position;
          }
        }
      }
      assert vs[..|vs|] == vs;
    }
  }
}
