/** rtc::MovingMaxCounter: the maximum over a moving time window, kept in a deque from which
    samples that can no longer be a maximum are dropped. */
module MovingMax {
  import opened Options

  datatype Sample = Sample(time: int, value: int)

  /** The deque is strictly increasing in time and strictly decreasing in value. */
  ghost predicate Monotone(s: seq<Sample>) {
    forall i, j :: 0 <= i < j < |s| ==> s[i].time < s[j].time && s[i].value > s[j].value
  }

  // Some sample of s is at least as young and at least as large as h.
  ghost predicate Dominated(h: Sample, s: seq<Sample>) {
    exists d :: d in s && h.time <= d.time && h.value <= d.value
  }

  /** The deque speaks for the history: it holds only samples that were added, and each added
      sample not older than `begin` is dominated by one in the deque. */
  ghost predicate SpeaksFor(s: seq<Sample>, history: seq<Sample>, begin: int) {
    && (forall d :: d in s ==> d in history)
    && (forall h {:trigger Dominated(h, s)} :: h in history && h.time >= begin ==> Dominated(h, s))
  }

  ghost predicate InWindow(h: Sample, history: seq<Sample>, begin: int) {
    h in history && h.time >= begin
  }

  /** The definition of the result: None if the window holds no sample, else its largest value. */
  ghost predicate IsWindowMax(history: seq<Sample>, begin: int, r: Option<int>) {
    match r
    case None => forall h :: !InWindow(h, history, begin)
    case Some(v) =>
      && (exists h :: InWindow(h, history, begin) && h.value == v)
      && (forall h :: InWindow(h, history, begin) ==> h.value <= v)
  }

  lemma DropOld(s: seq<Sample>, history: seq<Sample>, before: int, begin: int)
    requires s != [] && s[0].time < begin && before <= begin
    requires SpeaksFor(s, history, before)
    ensures SpeaksFor(s[1..], history, begin)
  {
    forall h | h in history && h.time >= begin
      ensures Dominated(h, s[1..])
    {
      assert Dominated(h, s);
      var d :| d in s && h.time <= d.time && h.value <= d.value;
      assert s == [s[0]] + s[1..];
      assert d in s[1..];
    }
  }

  lemma LaterWindow(s: seq<Sample>, history: seq<Sample>, before: int, begin: int)
    requires SpeaksFor(s, history, before) && before <= begin
    ensures SpeaksFor(s, history, begin)
  {
  }

  // The new sample, once it is at the end, dominates the one dropped before it.
  ghost predicate SpeaksWith(s: seq<Sample>, sample: Sample, history: seq<Sample>, begin: int) {
    SpeaksFor(s + [sample], history + [sample], begin)
  }

  // Where Add stands between dropping samples and adding the new one.
  ghost predicate Fits(s: seq<Sample>, sample: Sample, history: seq<Sample>, begin: int) {
    && Monotone(s)
    && (forall d :: d in s ==> d in history && d.time <= sample.time)
    && SpeaksWith(s, sample, history, begin)
  }

  lemma DropSmaller(s: seq<Sample>, sample: Sample, history: seq<Sample>, begin: int)
    requires s != [] && s[|s| - 1].value <= sample.value
    requires Fits(s, sample, history, begin)
    ensures Fits(s[..|s| - 1], sample, history, begin)
  {
    var front, last := s[..|s| - 1], s[|s| - 1];
    assert s == front + [last];
    assert last in s;
    forall h | h in history + [sample] && h.time >= begin
      ensures Dominated(h, front + [sample])
    {
      assert Dominated(h, s + [sample]);
      var d :| d in s + [sample] && h.time <= d.time && h.value <= d.value;
      if d in front {
        assert d in front + [sample];
      } else {
        assert sample in front + [sample];
      }
    }
  }

  lemma WithNewSample(s: seq<Sample>, sample: Sample, history: seq<Sample>, begin: int)
    requires SpeaksFor(s, history, begin) && Monotone(s) && forall d :: d in s ==> d.time <= sample.time
    ensures Fits(s, sample, history, begin)
  {
    hide Monotone;
    forall h | h in history + [sample] && h.time >= begin
      ensures Dominated(h, s + [sample])
    {
      if h in history {
        assert Dominated(h, s);
        var d :| d in s && h.time <= d.time && h.value <= d.value;
        assert d in s + [sample];
      } else {
        assert h in s + [sample];
      }
    }
  }

  // The new sample goes to the end, unless a larger one of the same time stays there.
  lemma Settle(s: seq<Sample>, sample: Sample, history: seq<Sample>, begin: int)
    requires Fits(s, sample, history, begin)
    requires s == [] || s[|s| - 1].value > sample.value
    ensures var s' := if s == [] || s[|s| - 1].time < sample.time then s + [sample] else s;
            Monotone(s') && SpeaksFor(s', history + [sample], begin) && forall d :: d in s' ==> d.time <= sample.time
  {
    if s == [] || s[|s| - 1].time < sample.time {
      SettleAtEnd(s, sample, history, begin);
    } else {
      hide Dominated, Monotone;
      SettleBehind(s, sample, history, begin);
    }
  }

  lemma SettleAtEnd(s: seq<Sample>, sample: Sample, history: seq<Sample>, begin: int)
    requires Fits(s, sample, history, begin)
    requires s == [] || (s[|s| - 1].value > sample.value && s[|s| - 1].time < sample.time)
    ensures Monotone(s + [sample]) && SpeaksFor(s + [sample], history + [sample], begin)
    ensures forall d :: d in s + [sample] ==> d.time <= sample.time
  {
    hide Dominated;
  }

  lemma SettleBehind(s: seq<Sample>, sample: Sample, history: seq<Sample>, begin: int)
    requires Fits(s, sample, history, begin)
    requires s != [] && s[|s| - 1].value > sample.value && s[|s| - 1].time >= sample.time
    ensures SpeaksFor(s, history + [sample], begin)
  {
    hide Monotone;
    if s != [] && s[|s| - 1].time >= sample.time {
      var last := s[|s| - 1];
      assert last in s;
      forall h | h in history + [sample] && h.time >= begin
        ensures Dominated(h, s)
      {
        assert Dominated(h, s + [sample]);
        var d :| d in s + [sample] && h.time <= d.time && h.value <= d.value;
        assert d in s || d == sample;
      }
    }
  }

  lemma FrontIsMax(s: seq<Sample>, history: seq<Sample>, begin: int)
    requires Monotone(s) && SpeaksFor(s, history, begin)
    requires forall d :: d in s ==> d.time >= begin
    ensures IsWindowMax(history, begin, if s == [] then None else Some(s[0].value))
  {
    if s == [] {
      forall h
        ensures !InWindow(h, history, begin)
      {
        assert !Dominated(h, s);
      }
    } else {
      assert s[0] in s && InWindow(s[0], history, begin);
      forall h | InWindow(h, history, begin)
        ensures h.value <= s[0].value
      {
        assert Dominated(h, s);
        var d :| d in s && h.time <= d.time && h.value <= d.value;
        var i :| 0 <= i < |s| && s[i] == d;
      }
    }
  }

  // Once the front is young enough, everything behind it is.
  lemma YoungFrom(s: seq<Sample>, it: nat, begin: int)
    requires Monotone(s) && it <= |s| && (it < |s| ==> s[it].time >= begin)
    ensures Monotone(s[it..])
    ensures forall d :: d in s[it..] ==> d in s && d.time >= begin
  {
  }

  class MovingMaxCounter {
    const windowLengthMs: int
    var samples: seq<Sample>
    var lastCallTimeMs: Option<int>     // None before the first call
    ghost var history: seq<Sample>      // everything added since the last reset

    ghost predicate Valid()
      reads this
    {
      && Monotone(samples)
      && (lastCallTimeMs.Some? ==> forall d :: d in samples ==> d.time <= lastCallTimeMs.value)
      && (lastCallTimeMs.None? ==> samples == [] && history == [])
      && (lastCallTimeMs.Some? ==> SpeaksFor(samples, history, lastCallTimeMs.value - windowLengthMs))
    }

    constructor (windowLengthMs: int)
      ensures Valid() && history == [] && this.windowLengthMs == windowLengthMs && lastCallTimeMs == None
    {
      this.windowLengthMs := windowLengthMs;
      samples, lastCallTimeMs, history := [], None, [];
    }

    // The time of a call is not before that of the call before it.
    ghost predicate InTime(timeMs: int)
      reads this
    {
      lastCallTimeMs.Some? ==> lastCallTimeMs.value <= timeMs
    }

    method RollWindow(newTimeMs: int)
      requires Valid() && InTime(newTimeMs)
      modifies this`samples, this`lastCallTimeMs
      ensures Valid()
      ensures lastCallTimeMs == Some(newTimeMs)
      ensures forall d :: d in samples ==> d.time >= newTimeMs - windowLengthMs
    {
      var windowBeginMs := newTimeMs - windowLengthMs;
      assert SpeaksFor(samples, history, windowBeginMs) by {
        if lastCallTimeMs.Some? {
          LaterWindow(samples, history, lastCallTimeMs.value - windowLengthMs, windowBeginMs);
        }
      }
      lastCallTimeMs := Some(newTimeMs);
      var it := 0;
      while it != |samples| && samples[it].time < windowBeginMs
        invariant 0 <= it <= |samples|
        invariant SpeaksFor(samples[it..], history, windowBeginMs)
        modifies {}
      {
        DropOld(samples[it..], history, windowBeginMs, windowBeginMs);
        assert samples[it..][1..] == samples[it + 1..];
        it := it + 1;
      }
      ghost var was := samples;
      samples := samples[it..];
      YoungFrom(was, it, windowBeginMs);
    }

    method Add(sample: int, currentTimeMs: int)
      requires Valid() && InTime(currentTimeMs)
      modifies this
      ensures Valid()
      ensures history == old(history) + [Sample(currentTimeMs, sample)]
      ensures lastCallTimeMs == Some(currentTimeMs)
    {
      hide Monotone, SpeaksFor, Fits;
      RollWindow(currentTimeMs);
      ghost var begin := currentTimeMs - windowLengthMs;
      ghost var entry := Sample(currentTimeMs, sample);
      WithNewSample(samples, entry, history, begin);
      PopSmaller(sample, entry, begin);
      Settle(samples, entry, history, begin);
      if samples == [] || samples[|samples| - 1].time < currentTimeMs {
        samples := samples + [Sample(currentTimeMs, sample)];
      }
      history := history + [entry];
    }

    // The loop of Add.
    method PopSmaller(sample: int, ghost entry: Sample, ghost begin: int)
      requires entry.value == sample && Fits(samples, entry, history, begin)
      modifies this`samples
      ensures Fits(samples, entry, history, begin)
      ensures samples == [] || samples[|samples| - 1].value > sample
    {
      while samples != [] && samples[|samples| - 1].value <= sample
        invariant Fits(samples, entry, history, begin)
        decreases |samples|
      {
        DropSmaller(samples, entry, history, begin);
        samples := samples[..|samples| - 1];
      }
    }

    /** The largest sample added since the last reset with a time in the window. */
    method Max(currentTimeMs: int) returns (res: Option<int>)
      requires Valid() && InTime(currentTimeMs)
      modifies this`samples, this`lastCallTimeMs
      ensures Valid()
      ensures lastCallTimeMs == Some(currentTimeMs)
      ensures IsWindowMax(history, currentTimeMs - windowLengthMs, res)
    {
      RollWindow(currentTimeMs);
      res := None;
      if samples != [] {
        res := Some(samples[0].value);
      }
      FrontIsMax(samples, history, currentTimeMs - windowLengthMs);
    }

    method Reset()
      requires Valid()
      modifies this`samples, this`history
      ensures Valid() && history == []
    {
      samples, history := [], [];
    }
  }

  /** The definition of the result leaves no choice. */
  lemma WindowMaxIsUnique(history: seq<Sample>, begin: int, r: Option<int>, r': Option<int>)
    requires IsWindowMax(history, begin, r) && IsWindowMax(history, begin, r')
    ensures r == r'
  {
    match (r, r')
    case (Some(v), Some(w)) =>
      var h :| InWindow(h, history, begin) && h.value == v;
      var h' :| InWindow(h', history, begin) && h'.value == w;
    case (Some(v), None) =>
    case (None, Some(w)) =>
    case (None, None) =>
  }
}
