/** Wrapping sequence numbers: the modular helpers of mod_ops.h, the ordering and unwrapping of
    sequence_number_util.h, and the RTP timestamp handler of time_utils.cc. */
module SequenceNumbers {
  import opened Options

  /** The template arguments <T, M>: T is an unsigned type with `range` values, and M is the
      modulus, 0 meaning the range of T. Types narrower than int are promoted to int before
      they are subtracted. */
  datatype Type = Type(range: nat, M: nat, promoted: bool)
  {
    ghost predicate Valid() {
      range >= 2 && range % 2 == 0 && M < range
    }

    function Modulus(): int {
      if M == 0 then range else M
    }
  }

  // ---------------------------------------------------------------------------------------
  // Arithmetic modulo m
  // ---------------------------------------------------------------------------------------

  lemma QuotientZero(k: int, m: int)
    requires m > 0 && -m < k * m < m
    ensures k == 0
  {
    if k >= 1 {
      AtLeastOnce(k, m);
    } else if k <= -1 {
      AtMostMinusOnce(k, m);
    }
  }

  lemma AtLeastOnce(k: int, m: int)
    requires k >= 1 && m > 0
    ensures k * m >= m
  {
  }

  lemma AtMostMinusOnce(k: int, m: int)
    requires k <= -1 && m > 0
    ensures k * m <= -m
  {
  }

  lemma ModUnique(x: int, m: int, q: int, r: int)
    requires 0 <= r < m && x == q * m + r
    ensures x % m == r
  {
    var q', r' := x / m, x % m;
    assert x == q' * m + r';
    assert (q - q') * m == r' - r;
    QuotientZero(q - q', m);
  }

  // A number is determined by its residue and a window of m numbers it lies in.
  lemma ResidueInWindow(x: int, y: int, m: int)
    requires m > 0 && x % m == y % m && -m < x - y < m
    ensures x == y
  {
    var q, q' := x / m, y / m;
    assert x == q * m + x % m && y == q' * m + y % m;
    assert (q - q') * m == x - y;
    QuotientZero(q - q', m);
  }

  lemma ModOfSum(x: int, d: int, m: int)
    requires m > 0
    ensures (x % m + d) % m == (x + d) % m
  {
    var q := x / m;
    var s := x % m + d;
    assert x + d == q * m + s;
    assert x + d == (q + s / m) * m + s % m by {
      assert s == (s / m) * m + s % m;
      assert (q + s / m) * m == q * m + (s / m) * m;
    }
    ModUnique(x + d, m, q + s / m, s % m);
  }

  lemma ModOfDifference(x: int, y: int, m: int)
    requires m > 0
    ensures (x % m - y % m) % m == (x - y) % m
  {
    ModOfSum(x, -(y % m), m);
    var q := y / m;
    var d := x - y % m;
    assert d == q * m + (x - y) by {
      assert y == q * m + y % m;
    }
    var e := x - y;
    assert d == (q + e / m) * m + e % m by {
      assert e == (e / m) * m + e % m;
      assert (q + e / m) * m == q * m + (e / m) * m;
    }
    ModUnique(d, m, q + e / m, e % m);
  }

  // What a residue of a small difference looks like.
  lemma ModOfSmall(d: int, m: int)
    requires m > 0 && -m <= d < m
    ensures d % m == if d >= 0 then d else d + m
  {
    if d >= 0 {
      ModUnique(d, m, 0, d);
    } else {
      ModUnique(d, m, -1, d + m);
    }
  }

  // ---------------------------------------------------------------------------------------
  // mod_ops.h
  // ---------------------------------------------------------------------------------------

  // unsigned long arithmetic: `word` is the number of values of that type.
  function Add(word: nat, M: nat, a: nat, b: nat): nat
    requires 0 < M < word && a < M
  {
    var t := M - b % M;
    var res := (a - t) % word;
    if t > a then (res + M) % word else res
  }

  function Subtract(M: nat, a: nat, b: nat): nat
    requires 0 < M && a < M
  {
    var sub := b % M;
    if a < sub then M - (sub - a) else a - sub
  }

  /** Although its intermediate difference wraps around the machine word, Add is addition
      modulo M. */
  lemma AddIsModular(word: nat, M: nat, a: nat, b: nat)
    requires 0 < M < word && a < M
    ensures Add(word, M, a, b) == (a + b) % M
  {
    var r := b % M;
    var t := M - r;
    ModOfSum(b, a, M);
    if t > a {
      ModOfSmall(a - t, word);
      ModUnique(a - t + word + M, word, 1, a + r);
      ModUnique(r + a, M, 0, a + r);
    } else {
      ModOfSmall(a - t, word);
      ModUnique(r + a, M, 1, a - t);
    }
  }

  lemma SubtractIsModular(M: nat, a: nat, b: nat)
    requires 0 < M && a < M
    ensures Subtract(M, a, b) == (a - b) % M
  {
    ModOfDifference(a, b, M);
    ModUnique(a, M, 0, a);
    ModOfSmall(a - b % M, M);
  }

  lemma SubtractUndoesAdd(word: nat, M: nat, a: nat, b: nat)
    requires 0 < M < word && a < M
    ensures Add(word, M, a, b) < M
    ensures Subtract(M, Add(word, M, a, b), b) == a
  {
    AddIsModular(word, M, a, b);
    SubtractFromSum(M, a, b, (a + b) % M);
  }

  lemma SubtractFromSum(M: nat, a: nat, b: nat, s: nat)
    requires 0 < M && a < M && s == (a + b) % M
    ensures s < M && Subtract(M, s, b) == a
  {
    SubtractIsModular(M, s, b);
    ModOfSum(a + b, 0 - b, M);
    ModUnique(a, M, 0, a);
  }

  function ForwardDiff(t: Type, a: nat, b: nat): (d: int)
    requires t.Valid()
  {
    if t.M > 0 then (if a <= b then b - a else t.M - (a - b)) else (b - a) % t.range
  }

  function ReverseDiff(t: Type, a: nat, b: nat): (d: int)
    requires t.Valid()
  {
    if t.M > 0 then (if b <= a then a - b else t.M - (b - a)) else (a - b) % t.range
  }

  function MinDiff(t: Type, a: nat, b: nat): int
    requires t.Valid()
  {
    var f, r := ForwardDiff(t, a, b), ReverseDiff(t, a, b);
    if f < r then f else r
  }

  /** Both differences are what their names say, modulo the modulus, and the smaller of the two
      is the distance on the circle. */
  lemma DiffsAreModular(t: Type, a: nat, b: nat)
    requires t.Valid() && a < t.Modulus() && b < t.Modulus()
    ensures ForwardDiff(t, a, b) == (b - a) % t.Modulus()
    ensures ReverseDiff(t, a, b) == (a - b) % t.Modulus()
    ensures a != b ==> ForwardDiff(t, a, b) + ReverseDiff(t, a, b) == t.Modulus()
    ensures 2 * MinDiff(t, a, b) <= t.Modulus()
  {
    ModOfSmall(b - a, t.Modulus());
    ModOfSmall(a - b, t.Modulus());
  }

  // ---------------------------------------------------------------------------------------
  // Ordering
  // ---------------------------------------------------------------------------------------

  predicate AheadOrAt(t: Type, a: nat, b: nat)
    requires t.Valid()
  {
    if t.M > 0 then
      var maxDist := t.M / 2;
      if t.M % 2 == 0 && MinDiff(t, a, b) == maxDist then b < a else ForwardDiff(t, b, a) <= maxDist
    else
      var maxDist := (t.range - 1) / 2 + 1;
      var difference := if t.promoted then a - b else (a - b) % t.range;
      if difference == maxDist then b < a else ForwardDiff(t, b, a) < maxDist
  }

  predicate AheadOf(t: Type, a: nat, b: nat)
    requires t.Valid()
  {
    a != b && AheadOrAt(t, a, b)
  }

  /** All variants decide alike: a is ahead of b if it is less than half way round in front of
      it, and at exactly half way the larger number is ahead. */
  lemma AheadOrAtMeans(t: Type, a: nat, b: nat)
    requires t.Valid() && a < t.Modulus() && b < t.Modulus()
    ensures var d := (a - b) % t.Modulus();
            AheadOrAt(t, a, b) <==> 2 * d < t.Modulus() || (2 * d == t.Modulus() && b < a)
  {
    DiffsAreModular(t, a, b);
    DiffsAreModular(t, b, a);
    ModOfSmall(a - b, t.Modulus());
  }

  /** Of two different numbers exactly one is ahead of the other, even half way round. */
  lemma AheadOfIsTotal(t: Type, a: nat, b: nat)
    requires t.Valid() && a < t.Modulus() && b < t.Modulus()
    ensures !AheadOf(t, a, a)
    ensures a != b ==> (AheadOf(t, a, b) <==> !AheadOf(t, b, a))
  {
    AheadOrAtMeans(t, a, b);
    AheadOrAtMeans(t, b, a);
    ModOfSmall(a - b, t.Modulus());
    ModOfSmall(b - a, t.Modulus());
  }

  /** Two steps ahead are a step ahead exactly if together they go less than half way round, or
      half way up to a larger number. */
  lemma AheadOfTransitiveIff(t: Type, a: nat, b: nat, c: nat)
    requires t.Valid() && a < t.Modulus() && b < t.Modulus() && c < t.Modulus()
    requires AheadOf(t, a, b) && AheadOf(t, b, c)
    ensures var m := t.Modulus();
            var d := (a - b) % m + (b - c) % m;
            AheadOf(t, a, c) <==> 2 * d < m || (2 * d == m && c < a)
  {
    var m := t.Modulus();
    AheadOrAtMeans(t, a, b);
    AheadOrAtMeans(t, b, c);
    AheadOrAtMeans(t, a, c);
    ModOfSmall(a - b, m);
    ModOfSmall(b - c, m);
    ModOfSmall(a - c, m);
  }

  ghost predicate Transitive(t: Type)
    requires t.Valid()
  {
    forall a: nat, b: nat, c: nat | a < t.Modulus() && b < t.Modulus() && c < t.Modulus() ::
      AheadOf(t, a, b) && AheadOf(t, b, c) ==> AheadOf(t, a, c)
  }

  lemma NoTwoSteps(t: Type, a: nat, b: nat, c: nat)
    requires t.Valid() && a < t.Modulus() && b < t.Modulus() && c < t.Modulus() && t.Modulus() <= 2
    ensures !(AheadOf(t, a, b) && AheadOf(t, b, c))
  {
    AheadOfIsTotal(t, a, b);
  }

  /** On a circle of three or more numbers the order as a whole is never transitive. */
  lemma TransitiveIffTiny(t: Type)
    requires t.Valid()
    ensures Transitive(t) <==> t.Modulus() <= 2
  {
    var m := t.Modulus();
    if m > 2 {
      var b := m / 2;
      AheadOrAtMeans(t, b, 0);
      AheadOrAtMeans(t, b + 1, b);
      ModOfSmall(b, m);
      ModOfSmall(1, m);
      AheadOfTransitiveIff(t, b + 1, b, 0);
      assert AheadOf(t, b + 1, b) && AheadOf(t, b, 0) && !AheadOf(t, b + 1, 0);
    } else {
      forall a: nat, b: nat, c: nat | a < m && b < m && c < m
        ensures AheadOf(t, a, b) && AheadOf(t, b, c) ==> AheadOf(t, a, c)
      {
        NoTwoSteps(t, a, b, c);
      }
    }
  }

  // The i-th number from `start` on.
  function At(t: Type, start: int, i: int): (v: nat)
    requires t.Valid()
    ensures v < t.Modulus()
  {
    (start + i) % t.Modulus()
  }

  predicate InOrder(t: Type, start: int, i: int, j: int)
    requires t.Valid()
  {
    AheadOf(t, At(t, start, i), At(t, start, j)) <==> i > j
  }

  // Less than half way round apart, numbers are ordered as they follow one another.
  lemma InOrderWhenClose(t: Type, start: int, i: int, j: int)
    requires t.Valid() && -t.Modulus() < 2 * (i - j) < t.Modulus()
    ensures InOrder(t, start, i, j)
  {
    var m := t.Modulus();
    var a, b := At(t, start, i), At(t, start, j);
    AheadOrAtMeans(t, a, b);
    ModOfDifference(start + i, start + j, m);
    ModOfSmall(i - j, m);
    if a == b {
      ResidueInWindow(start + i, start + j, m);
    }
  }

  // Half way round, it is the wrap-around that decides.
  lemma InOrderHalfWay(t: Type, start: int, k: nat)
    requires t.Valid() && 2 * k == t.Modulus()
    ensures InOrder(t, start, k, 0) <==> start % t.Modulus() < k
    ensures InOrder(t, start, 0, k) <==> start % t.Modulus() < k
  {
    var m := t.Modulus();
    var v, w := At(t, start, 0), At(t, start, k);
    ModOfSum(start, k, m);
    if v < k {
      ModUnique(v + k, m, 0, v + k);
    } else {
      ModUnique(v + k, m, 1, v - k);
    }
    AheadOrAtMeans(t, w, v);
    ModOfSmall(w - v, m);
    AheadOfIsTotal(t, w, v);
  }

  // Just over half way round, the order is the wrong way.
  lemma NotInOrderFurther(t: Type, start: int)
    requires t.Valid()
    ensures !InOrder(t, start, t.Modulus() / 2 + 1, 0)
  {
    var m := t.Modulus();
    var i := m / 2 + 1;
    var a, b := At(t, start, i), At(t, start, 0);
    AheadOrAtMeans(t, a, b);
    ModOfDifference(start + i, start, m);
    if i < m {
      ModOfSmall(i, m);
    } else {
      ModUnique(i, m, 1, i - m);
      ModOfSmall(a - b, m);
    }
  }

  /** The k + 1 numbers from `start` on are ordered as they follow one another. */
  ghost predicate WindowOrdered(t: Type, start: int, k: nat)
    requires t.Valid()
  {
    forall i, j :: 0 <= i <= k && 0 <= j <= k ==> InOrder(t, start, i, j)
  }

  /** The order is that of the unwrapped numbers, and so a strict total order, exactly on windows
      of less than half the circle, wherever they start, and on windows of half the circle that do
      not wrap around. */
  lemma WindowOrderedIff(t: Type, start: int, k: nat)
    requires t.Valid()
    ensures var m := t.Modulus();
            WindowOrdered(t, start, k) <==> 2 * k < m || (2 * k == m && start % m < k)
  {
    hide InOrder;
    var m := t.Modulus();
    if 2 * k > m {
      NotInOrderFurther(t, start);
    } else if 2 * k == m {
      InOrderHalfWay(t, start, k);
    }
    forall i, j | 0 <= i <= k && 0 <= j <= k && 2 * (i - j) < m && 2 * (j - i) < m
      ensures InOrder(t, start, i, j)
    {
      InOrderWhenClose(t, start, i, j);
    }
  }

  // ---------------------------------------------------------------------------------------
  // Unwrapping
  // ---------------------------------------------------------------------------------------

  function UnwrapStep(t: Type, lastUnwrapped: int, lastValue: nat, value: nat): int
    requires t.Valid()
  {
    var forward := lastUnwrapped + ForwardDiff(t, lastValue, value);
    if AheadOrAt(t, value, lastValue) then forward else forward - t.Modulus()
  }

  // The steps Unwrap recovers: less than half way round, or half way in the direction in
  // which the wrapped values move.
  predicate Recoverable(m: int, last: int, next: int)
    requires m > 0
  {
    || -m < 2 * (next - last) < m
    || (2 * (next - last) == m && last % m < next % m)
    || (2 * (next - last) == -m && next % m < last % m)
  }

  lemma StepIsCongruent(t: Type, last: int, value: nat)
    requires t.Valid() && value < t.Modulus()
    ensures UnwrapStep(t, last, last % t.Modulus(), value) % t.Modulus() == value
  {
    var m := t.Modulus();
    var v := last % m;
    DiffsAreModular(t, v, value);
    var d := ForwardDiff(t, v, value);
    ModOfSum(last, d, m);
    ModOfSum(last, d - m, m);
    ModOfSmall(value - v, m);
    ModOfResidue(v, d, value, m);
  }

  lemma ModOfResidue(v: nat, d: int, value: nat, m: int)
    requires m > 0 && v < m && value < m
    requires d == if value >= v then value - v else value - v + m
    ensures (v + d) % m == value
    ensures (v + (d - m)) % m == value
  {
    if value >= v {
      ModUnique(v + d, m, 0, value);
      ModUnique(v + (d - m), m, -1, value);
    } else {
      ModUnique(v + d, m, 1, value);
      ModUnique(v + (d - m), m, 0, value);
    }
  }

  /** Unwrap recovers the next number from its residue if and only if the step is recoverable. */
  lemma UnwrapExact(t: Type, last: int, next: int)
    requires t.Valid()
    ensures var m := t.Modulus();
            UnwrapStep(t, last, last % m, next % m) == next <==> Recoverable(m, last, next)
  {
    var m := t.Modulus();
    var v, w := last % m, next % m;
    var r := UnwrapStep(t, last, v, w);
    StepIsCongruent(t, last, w);
    AheadOrAtMeans(t, w, v);
    DiffsAreModular(t, v, w);
    ModOfSmall(w - v, m);
    // The result is always a recoverable step away.
    assert Recoverable(m, last, r);
    if Recoverable(m, last, next) {
      if -m < r - next < m {
        ResidueInWindow(r, next, m);
      }
    }
  }

  class SeqNumUnwrapper {
    const t: Type
    var lastUnwrapped: int
    var lastValue: Option<nat>

    ghost predicate Valid()
      reads this
    {
      t.Valid() && (lastValue.Some? ==> lastValue.value == lastUnwrapped % t.Modulus())
    }

    constructor (t: Type)
      requires t.Valid()
      ensures Valid() && lastValue == None && this.t == t
    {
      this.t := t;
      lastUnwrapped, lastValue := 0, None;
    }

    method Unwrap(value: nat) returns (r: int)
      requires Valid() && value < t.Modulus()
      modifies this
      ensures Valid()
      ensures lastValue == Some(value) && lastUnwrapped == r
      ensures r % t.Modulus() == value
      ensures r == if old(lastValue).None? then value
                   else UnwrapStep(t, old(lastUnwrapped), old(lastValue).value, value)
    {
      if lastValue.None? {
        lastUnwrapped := value;
        ModUnique(value, t.Modulus(), 0, value);
      } else {
        StepIsCongruent(t, lastUnwrapped, value);
        lastUnwrapped := lastUnwrapped + ForwardDiff(t, lastValue.value, value);
        if !AheadOrAt(t, value, lastValue.value) {
          var backwardAdjustment := if t.M == 0 then (t.range - 1) + 1 else t.M;
          lastUnwrapped := lastUnwrapped - backwardAdjustment;
        }
      }
      lastValue := Some(value);
      return lastUnwrapped;
    }

    /** Recovers exactly the next number that is at most one round further on. */
    method UnwrapForward(value: nat, ghost next: int) returns (r: int)
      requires Valid() && value < t.Modulus() && next % t.Modulus() == value
      modifies this
      ensures Valid()
      ensures lastValue == Some(value) && lastUnwrapped == r
      ensures old(lastValue).Some? ==> (r == next <==> 0 <= next - old(lastUnwrapped) < t.Modulus())
      ensures old(lastValue).None? ==> r == value
    {
      ghost var m, last := t.Modulus(), lastUnwrapped;
      if lastValue.None? {
        lastUnwrapped := value;
        ModUnique(value, m, 0, value);
      } else {
        ghost var d := ForwardDiff(t, lastValue.value, value);
        DiffsAreModular(t, lastValue.value, value);
        ModOfSmall(value - lastValue.value, m);
        ModOfSum(last, d, m);
        ModOfResidue(lastValue.value, d, value, m);
        if 0 <= next - last < m {
          ResidueInWindow(last + d, next, m);
        }
        lastUnwrapped := lastUnwrapped + ForwardDiff(t, lastValue.value, value);
      }
      lastValue := Some(value);
      return lastUnwrapped;
    }

    /** Recovers exactly the next number that is at most one round further back. */
    method UnwrapBackwards(value: nat, ghost next: int) returns (r: int)
      requires Valid() && value < t.Modulus() && next % t.Modulus() == value
      modifies this
      ensures Valid()
      ensures lastValue == Some(value) && lastUnwrapped == r
      ensures old(lastValue).Some? ==> (r == next <==> 0 <= old(lastUnwrapped) - next < t.Modulus())
      ensures old(lastValue).None? ==> r == value
    {
      ghost var m, last := t.Modulus(), lastUnwrapped;
      if lastValue.None? {
        lastUnwrapped := value;
        ModUnique(value, m, 0, value);
      } else {
        ghost var d := ReverseDiff(t, lastValue.value, value);
        DiffsAreModular(t, lastValue.value, value);
        ModOfSmall(lastValue.value - value, m);
        ModOfSum(last, -d, m);
        assert (lastValue.value - d) % m == value by {
          if value <= lastValue.value {
            ModUnique(lastValue.value - d, m, 0, value);
          } else {
            ModUnique(lastValue.value - d, m, -1, value);
          }
        }
        if 0 <= last - next < m {
          ResidueInWindow(last - d, next, m);
        }
        lastUnwrapped := lastUnwrapped - ReverseDiff(t, lastValue.value, value);
      }
      lastValue := Some(value);
      return lastUnwrapped;
    }
  }

  // What successive calls of Unwrap return.
  function UnwrapAll(t: Type, values: seq<nat>): (r: seq<int>)
    requires t.Valid()
    ensures |r| == |values|
  {
    if values == [] then []
    else
      var r := UnwrapAll(t, values[..|values| - 1]);
      var n := |values| - 1;
      if n == 0 then [values[0]] else r + [UnwrapStep(t, r[n - 1], values[n - 1], values[n])]
  }

  lemma UnwrapAllStep(t: Type, values: seq<nat>)
    requires t.Valid()
    ensures values == [] ==> UnwrapAll(t, values) == []
    ensures |values| == 1 ==> UnwrapAll(t, values) == [values[0]]
    ensures |values| > 1 ==>
      var n := |values| - 1;
      var r := UnwrapAll(t, values[..n]);
      UnwrapAll(t, values) == r + [UnwrapStep(t, r[n - 1], values[n - 1], values[n])]
  {
    hide UnwrapStep;
  }

  function Wrapped(m: int, xs: seq<int>): (r: seq<nat>)
    requires m > 0
    ensures |r| == |xs|
    ensures forall i :: 0 <= i < |r| ==> r[i] == xs[i] % m
  {
    seq(|xs|, i requires 0 <= i < |xs| => xs[i] % m)
  }

  ghost predicate StepsRecoverable(m: int, xs: seq<int>)
    requires m > 0
  {
    && (xs != [] ==> 0 <= xs[0] < m)
    && forall i :: 0 < i < |xs| ==> Recoverable(m, xs[i - 1], xs[i])
  }

  lemma StepsRecoverableMore(m: int, xs: seq<int>)
    requires m > 0 && xs != []
    ensures StepsRecoverable(m, xs) <==>
      StepsRecoverable(m, xs[..|xs| - 1])
      && (if |xs| == 1 then 0 <= xs[0] < m else Recoverable(m, xs[|xs| - 2], xs[|xs| - 1]))
  {
    hide Recoverable;
  }

  /** Over every run: the numbers come back from their wrapped values if and only if the first lies
      within the modulus and each step is one that is recovered, less than half way round or exactly
      half way in the direction that the larger residue decides. */
  lemma {:induction false} UnwrapRecoversIff(t: Type, xs: seq<int>)
    requires t.Valid()
    ensures UnwrapAll(t, Wrapped(t.Modulus(), xs)) == xs <==> StepsRecoverable(t.Modulus(), xs)
  {
    hide UnwrapStep, UnwrapAll, Wrapped, Recoverable, StepsRecoverable;
    var m := t.Modulus();
    var values := Wrapped(m, xs);
    UnwrapAllStep(t, values);
    if xs == [] {
      assert values == [];
      NoSteps(m);
    } else {
      var n := |xs| - 1;
      assert values[..n] == Wrapped(m, xs[..n]);
      UnwrapRecoversIff(t, xs[..n]);
      StepsRecoverableMore(m, xs);
      var r := UnwrapAll(t, values);
      SameUpTo(r, xs, n);
      if n == 0 {
        WithinIff(xs[0], m);
        NoSteps(m);
      } else {
        assert r[..n] == UnwrapAll(t, values[..n]);
        UnwrapExact(t, xs[n - 1], xs[n]);
      }
    }
  }

  lemma NoSteps(m: int)
    requires m > 0
    ensures StepsRecoverable(m, [])
  {
  }

  lemma WithinIff(x: int, m: int)
    requires m > 0
    ensures x % m == x <==> 0 <= x < m
  {
    if 0 <= x < m {
      ModOfSmall(x, m);
    }
  }

  // ---------------------------------------------------------------------------------------
  // TimestampWrapAroundHandler
  // ---------------------------------------------------------------------------------------

  const WRAP: int := 0x1_0000_0000

  function UnwrapTimestamp(lastTs: nat, numWrap: int, ts: nat): int {
    if ts < lastTs then
      ts + (if lastTs >= 0xf000_0000 && ts < 0x0fff_ffff then numWrap + 1 else numWrap) * WRAP
    else if ts - lastTs > 0xf000_0000 then
      ts + (numWrap - 1) * WRAP
    else
      ts + numWrap * WRAP
  }

  lemma RoundOf(ts: nat, round: int)
    requires ts < WRAP
    ensures (ts + round * WRAP) % WRAP == ts && (ts + round * WRAP) / WRAP == round
  {
  }

  class TimestampWrapAroundHandler {
    var lastTs: nat
    var numWrap: int

    // The unwrapped timestamp later ones are compared with.
    ghost function Reference(): int
      reads this
    {
      lastTs + numWrap * WRAP
    }

    constructor ()
      ensures numWrap == -1
    {
      lastTs, numWrap := 0, -1;
    }

    /** A timestamp that wrapped backwards does not become the new reference. */
    method Unwrap(ts: nat) returns (r: int)
      requires lastTs < WRAP && ts < WRAP
      modifies this
      ensures lastTs < WRAP
      ensures r % WRAP == ts
      ensures old(numWrap) == -1 ==> r == Reference() == ts
      ensures old(numWrap) != -1 ==>
                var reference := old(Reference());
                && r == UnwrapTimestamp(reference % WRAP, reference / WRAP, ts)
                && Reference() == NextReference(reference, ts)
      ensures numWrap >= old(numWrap) && (old(numWrap) >= -1 ==> numWrap >= 0)
    {
      if numWrap == -1 {
        lastTs := ts;
        numWrap := 0;
        return ts;
      }
      RoundOf(lastTs, numWrap);
      if ts < lastTs {
        if lastTs >= 0xf000_0000 && ts < 0x0fff_ffff {
          numWrap := numWrap + 1;
        }
      } else if ts - lastTs > 0xf000_0000 {
        return ts + (numWrap - 1) * WRAP;
      }
      lastTs := ts;
      return ts + numWrap * WRAP;
    }
  }

  // What the guards of Unwrap read off the reference and the timestamp.
  predicate LooksWrappedForward(lastTs: nat, ts: nat) {
    lastTs >= 0xf000_0000 && ts < 0x0fff_ffff
  }

  predicate LooksWrappedBackwards(lastTs: nat, ts: nat) {
    ts - lastTs > 0xf000_0000
  }

  // A timestamp is taken for one of the next round, the one before, or the same round, as the
  // guards say.
  predicate TimestampRecoverable(reference: int, next: int) {
    var v, w := reference % WRAP, next % WRAP;
    next / WRAP - reference / WRAP ==
      if LooksWrappedForward(v, w) then 1 else if LooksWrappedBackwards(v, w) then -1 else 0
  }

  lemma Rounds(x: int)
    ensures x == x % WRAP + x / WRAP * WRAP && 0 <= x % WRAP < WRAP
  {
  }

  // A timestamp is recovered from its residue exactly if it lies in the round the guards take it for.
  lemma TimestampRecoveredIff(reference: int, next: int)
    ensures UnwrapTimestamp(reference % WRAP, reference / WRAP, next % WRAP) == next
            <==> TimestampRecoverable(reference, next)
  {
    Rounds(next);
    Rounds(reference);
  }

  lemma CloseTimestampsRecovered(reference: int, next: int)
    requires -0x1000_0000 < next - reference < 0x1000_0000
    ensures TimestampRecoverable(reference, next)
  {
    Rounds(next);
    Rounds(reference);
  }

  // From the end of a round forward, and from its start backwards, the bound is sharp.
  lemma FarTimestampsLost(d: int)
    ensures d >= 0x1000_0000 ==> !TimestampRecoverable(0xffff_ffff, 0xffff_ffff + d)
    ensures d <= -0x1000_0000 ==> !TimestampRecoverable(0, d)
  {
    Rounds(0xffff_ffff + d);
    Rounds(d);
  }

  predicate StepRecovered(reference: int, d: int) {
    TimestampRecoverable(reference, reference + d)
  }

  /** A step is recovered from every reference if and only if it is shorter than 2^28, in either
      direction. */
  lemma RecoveredFromAnywhereIff(d: int)
    ensures (forall reference :: StepRecovered(reference, d)) <==> -0x1000_0000 < d < 0x1000_0000
  {
    if -0x1000_0000 < d < 0x1000_0000 {
      forall reference
        ensures StepRecovered(reference, d)
      {
        CloseTimestampsRecovered(reference, reference + d);
      }
    } else {
      FarTimestampsLost(d);
      assert 0 + d == d;
      assert !StepRecovered(0xffff_ffff, d) || !StepRecovered(0, d);
    }
  }

  // The reference after a timestamp has been unwrapped.
  function NextReference(reference: int, ts: nat): int {
    if LooksWrappedBackwards(reference % WRAP, ts) then reference
    else UnwrapTimestamp(reference % WRAP, reference / WRAP, ts)
  }

  // What successive calls of Unwrap leave as the reference, and what they return.
  function ReferenceAfter(values: seq<nat>): int
    requires values != []
  {
    var n := |values| - 1;
    if n == 0 then values[0] else NextReference(ReferenceAfter(values[..n]), values[n])
  }

  function UnwrapTimestamps(values: seq<nat>): (r: seq<int>)
    ensures |r| == |values|
  {
    if values == [] then []
    else
      var n := |values| - 1;
      if n == 0 then [values[0]]
      else
        var reference := ReferenceAfter(values[..n]);
        UnwrapTimestamps(values[..n]) + [UnwrapTimestamp(reference % WRAP, reference / WRAP, values[n])]
  }

  // The reference in terms of the timestamps themselves: the last one that did not look like a
  // step back over the wrap.
  function TrueReference(xs: seq<int>): int
    requires xs != []
  {
    var n := |xs| - 1;
    if n == 0 then xs[0]
    else
      var reference := TrueReference(xs[..n]);
      if LooksWrappedBackwards(reference % WRAP, xs[n] % WRAP) then reference else xs[n]
  }

  ghost predicate AllRecoverable(xs: seq<int>) {
    && (xs != [] ==> 0 <= xs[0] < WRAP)
    && forall i :: 0 < i < |xs| ==> TimestampRecoverable(TrueReference(xs[..i]), xs[i])
  }

  lemma RecoverablePrefix(xs: seq<int>)
    requires xs != []
    ensures AllRecoverable(xs) <==>
      AllRecoverable(xs[..|xs| - 1])
      && (if |xs| == 1 then 0 <= xs[0] < WRAP
          else TimestampRecoverable(TrueReference(xs[..|xs| - 1]), xs[|xs| - 1]))
  {
    hide TimestampRecoverable, TrueReference;
    var n := |xs| - 1;
    assert forall i :: 0 < i < n ==> xs[..n][..i] == xs[..i];
  }

  lemma SameUpTo(a: seq<int>, b: seq<int>, n: nat)
    requires |a| == |b| == n + 1
    ensures a == b <==> a[..n] == b[..n] && a[n] == b[n]
  {
    assert a == a[..n] + [a[n]] && b == b[..n] + [b[n]];
  }

  lemma UnwrapMore(values: seq<nat>)
    requires values != []
    ensures var n := |values| - 1;
            && UnwrapTimestamps(values)[..n] == UnwrapTimestamps(values[..n])
            && (n == 0 ==> UnwrapTimestamps(values)[0] == values[0])
            && (n > 0 ==> var r := ReferenceAfter(values[..n]);
                          UnwrapTimestamps(values)[n] == UnwrapTimestamp(r % WRAP, r / WRAP, values[n]))
  {
    hide UnwrapTimestamp, LooksWrappedBackwards;
  }

  lemma ReferenceMore(xs: seq<int>, values: seq<nat>, reference: int)
    requires |xs| == |values| > 1 && values[|xs| - 1] == xs[|xs| - 1] % WRAP
    requires reference == TrueReference(xs[..|xs| - 1]) == ReferenceAfter(values[..|xs| - 1])
    requires UnwrapTimestamp(reference % WRAP, reference / WRAP, values[|xs| - 1]) == xs[|xs| - 1]
    ensures ReferenceAfter(values) == TrueReference(xs)
  {
    hide UnwrapTimestamp, LooksWrappedBackwards;
  }

  /** Over every run: the timestamps come back from their residues if and only if the first is in
      the first round and each later one in the round the guards take it for. */
  lemma {:induction false} TimestampsRecoveredIff(xs: seq<int>)
    ensures UnwrapTimestamps(Wrapped(WRAP, xs)) == xs <==> AllRecoverable(xs)
    ensures xs != [] && AllRecoverable(xs) ==> ReferenceAfter(Wrapped(WRAP, xs)) == TrueReference(xs)
  {
    if xs != [] {
      var n, values := |xs| - 1, Wrapped(WRAP, xs);
      assert values[..n] == Wrapped(WRAP, xs[..n]);
      TimestampsRecoveredIff(xs[..n]);
      RecoverablePrefix(xs);
      UnwrapMore(values);
      SameUpTo(UnwrapTimestamps(values), xs, n);
      hide UnwrapTimestamp, TimestampRecoverable, AllRecoverable;
      if n == 0 {
        Rounds(xs[0]);
        ModOfSmallNumber(xs[0]);
      } else {
        var reference := TrueReference(xs[..n]);
        TimestampRecoveredIff(reference, xs[n]);
        if AllRecoverable(xs) {
          ReferenceMore(xs, values, reference);
        }
      }
    }
  }

  lemma ModOfSmallNumber(x: int)
    ensures x % WRAP == x <==> 0 <= x < WRAP
  {
  }
}
