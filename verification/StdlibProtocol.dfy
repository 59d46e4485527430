/** All interleavings of posters, deleters and the worker of TaskQueueStdlib, one atomic action
    at a time: a clock read, a lock section, setting the event, entering or leaving the wait. */
module StdlibProtocol {
  import opened Options
  import opened StdlibQueue

  // A thread that posts or deletes. A task that posts to its own queue is one of these too.
  datatype Poster =
    | Ready
    | HasFireTime(fireAt: int)  // in PostDelayedTask, between reading the clock and locking
    | MustNotify                // between leaving the lock and setting the event

  datatype Worker =
    | Top
    | HasTick(tick: int)                      // in GetNextTask, before the lock
    | Running(start: Start)
    | Decided(tick: int, ms: Option<nat>)     // nothing to run, about to wait
    | Waiting(tick: int, ms: Option<nat>, since: int)
    | Exited

  // A picked entry with the clock value it was picked by.
  datatype Start = Start(entry: Entry, tick: int)

  // `posted`, `done`, `doneAt` and `late` are history: nothing the code does depends on them.
  datatype System = System(
    q: Queues,
    signalled: bool,
    now: int,
    posters: map<nat, Poster>,
    worker: Worker,
    posted: seq<Entry>,
    done: seq<Start>,
    doneAt: seq<int>,
    late: set<nat>)

  datatype Step =
    | TimePasses(us: nat)
    | PostLocked(p: nat, task: Task)
    | ReadsClock(p: nat, delay: int)
    | PostDelayedLocked(p: nat, task: Task)
    | DeleteLocked(p: nat)
    | SetsEvent(p: nat)
    | WorkerReadsClock
    | WorkerPicks
    | WorkerFinishesTask
    | WorkerEntersWait
    | WorkerWakes
    | WorkerTimesOut

  // The entries that left the queues, in the order they were picked.
  function Started(s: System): seq<Start> {
    if s.worker.Running? then s.done + [s.worker.start] else s.done
  }

  predicate At(s: System, p: nat, pc: Poster) {
    p in s.posters && s.posters[p] == pc
  }

  // When the wait of the worker gives up.
  function GiveUpAt(w: Worker): Option<int>
    requires w.Waiting?
  {
    if w.ms.None? then None else Some(w.since + w.ms.value * 1000)
  }

  predicate Enabled(s: System, step: Step) {
    match step
    case TimePasses(_) => true
    case PostLocked(p, _) => At(s, p, Ready)
    case ReadsClock(p, _) => At(s, p, Ready)
    case PostDelayedLocked(p, _) => p in s.posters && s.posters[p].HasFireTime?
    case DeleteLocked(p) => At(s, p, Ready)
    case SetsEvent(p) => At(s, p, MustNotify)
    case WorkerReadsClock => s.worker.Top?
    case WorkerPicks => s.worker.HasTick?
    case WorkerFinishesTask => s.worker.Running?
    case WorkerEntersWait => s.worker.Decided?
    case WorkerWakes => s.worker.Waiting? && s.signalled
    case WorkerTimesOut =>
      s.worker.Waiting? && GiveUpAt(s.worker).Some? && s.now >= GiveUpAt(s.worker).value
  }

  // Some entry already picked should, by its fire time, come after one that fires at fireAt.
  predicate ComesTooLate(s: System, fireAt: int) {
    exists i :: 0 <= i < |Started(s)| && Started(s)[i].entry.Delayed? && Started(s)[i].entry.fireAt > fireAt
  }

  function Do(s: System, step: Step): System
    requires s.q.Valid() && Enabled(s, step)
  {
    match step
    case TimePasses(us) => s.(now := s.now + us)
    case PostLocked(p, task) =>
      s.(q := AfterPost(s.q, task),
         posters := s.posters[p := MustNotify],
         posted := s.posted + [Immediate(s.q.lastOrder + 1, task)])
    case ReadsClock(p, delay) => s.(posters := s.posters[p := HasFireTime(s.now + delay)])
    case PostDelayedLocked(p, task) =>
      var fireAt := s.posters[p].fireAt;
      s.(q := AfterPostDelayed(s.q, task, fireAt),
         posters := s.posters[p := MustNotify],
         posted := s.posted + [Delayed(s.q.lastOrder + 1, task, fireAt)],
         late := if ComesTooLate(s, fireAt) then s.late + {s.q.lastOrder + 1} else s.late)
    case DeleteLocked(p) => s.(q := s.q.(quit := true), posters := s.posters[p := MustNotify])
    case SetsEvent(p) => s.(signalled := true, posters := s.posters[p := Ready])
    case WorkerReadsClock => s.(worker := HasTick(s.now))
    case WorkerPicks =>
      var (q, next) := Pick(s.q, s.worker.tick);
      s.(q := q,
         worker := match next
                   case Final => Exited
                   case Run(entry) => Running(Start(entry, s.worker.tick))
                   case Sleep(ms) => Decided(s.worker.tick, ms))
    case WorkerFinishesTask =>
      s.(worker := Top, done := s.done + [s.worker.start], doneAt := s.doneAt + [s.now])
    case WorkerEntersWait => s.(worker := Waiting(s.worker.tick, s.worker.ms, s.now))
    case WorkerWakes => s.(worker := Top, signalled := false)
    // A wait that times out leaves the event as it is.
    case WorkerTimesOut => s.(worker := Top)
  }

  ghost predicate Initial(s: System) {
    && s.q == Queues([], [], 0, false)
    && !s.signalled
    && (forall p :: p in s.posters ==> s.posters[p] == Ready)
    && s.worker == Top
    && s.posted == [] && s.done == [] && s.doneAt == [] && s.late == {}
  }

  ghost predicate Follows(states: seq<System>, steps: seq<Step>)
    requires |states| == |steps| + 1
  {
    forall i :: 0 <= i < |steps| ==>
                  && states[i].q.Valid()
                  && Enabled(states[i], steps[i])
                  && states[i + 1] == Do(states[i], steps[i])
  }

  /** A run: states with the step taken between each and the next. */
  ghost predicate IsRun(states: seq<System>, steps: seq<Step>) {
    |states| == |steps| + 1 && Initial(states[0]) && Follows(states, steps)
  }

  // ---------------------------------------------------------------------------------------
  // Conservation
  // ---------------------------------------------------------------------------------------

  function Entries(starts: seq<Start>): (r: seq<Entry>)
    ensures |r| == |starts|
    ensures forall i :: 0 <= i < |r| ==> r[i] == starts[i].entry
  {
    seq(|starts|, i requires 0 <= i < |starts| => starts[i].entry)
  }

  function Immediates(es: seq<Entry>): seq<Entry> {
    if es == [] then []
    else Immediates(es[..|es| - 1]) + if es[|es| - 1].Immediate? then [es[|es| - 1]] else []
  }

  ghost predicate Numbered(posted: seq<Entry>) {
    forall i :: 0 <= i < |posted| ==> posted[i].order == i + 1
  }

  /** Every posted entry is queued, running or done, exactly once. */
  ghost predicate Conserved(s: System) {
    && |s.posted| == s.q.lastOrder
    && Numbered(s.posted)
    && multiset(s.posted)
       == multiset(Entries(Started(s))) + multiset(s.q.pending) + multiset(s.q.delayed)
  }

  /** Immediate tasks leave the queue in the order they were posted, and none is lost. */
  ghost predicate ImmediatesInOrder(s: System) {
    Immediates(Entries(Started(s))) + s.q.pending == Immediates(s.posted)
  }

  lemma QueuesStayValid(s: System, step: Step)
    requires s.q.Valid() && Enabled(s, step)
    ensures Do(s, step).q.Valid()
  {
    hide Sorted, InsertDelayed, Pick;
    match step
    case PostLocked(p, task) =>
      PostKeepsValid(s.q, task);
    case PostDelayedLocked(p, task) =>
      PostDelayedKeepsValid(s.q, task, s.posters[p].fireAt);
    case WorkerPicks =>
      PickKeepsValid(s.q, s.worker.tick);
    case _ =>
  }

  lemma StartedAfterPick(s: System)
    requires s.q.Valid() && s.worker.HasTick?
    ensures var s' := Do(s, WorkerPicks);
            var (q, next) := Pick(s.q, s.worker.tick);
            && s'.q == q && s'.posted == s.posted
            && Entries(Started(s')) == Entries(Started(s)) + if next.Run? then [next.entry] else []
  {
    hide Pick, Sorted;
  }

  // The other steps leave the tasks where they are.
  predicate MovesTasks(step: Step) {
    step.PostLocked? || step.PostDelayedLocked? || step.WorkerPicks?
  }

  lemma OtherStepsMoveNothing(s: System, step: Step)
    requires s.q.Valid() && Enabled(s, step) && !MovesTasks(step)
    ensures var s' := Do(s, step);
            && s'.q == s.q.(quit := s'.q.quit)
            && s'.posted == s.posted && s'.late == s.late
            && Started(s') == Started(s)
  {
  }

  lemma ConservedAfterPost(s: System, step: Step)
    requires s.q.Valid() && Conserved(s) && Enabled(s, step)
    requires step.PostLocked? || step.PostDelayedLocked?
    ensures Conserved(Do(s, step))
  {
    hide Sorted, InsertDelayed, Pick;
    var s' := Do(s, step);
    assert Started(s') == Started(s);
  }

  lemma ConservedAfterPick(s: System)
    requires s.q.Valid() && Conserved(s) && s.worker.HasTick?
    ensures Conserved(Do(s, WorkerPicks))
  {
    hide Do, Pick, Sorted;
    var s' := Do(s, WorkerPicks);
    var (q, next) := Pick(s.q, s.worker.tick);
    StartedAfterPick(s);
    PendingAfterPick(s.q, s.worker.tick);
    if next.Run? {
      MultisetOfAppend(Entries(Started(s)), next.entry);
      MoveBetween(multiset(Entries(Started(s))), multiset{next.entry}, multiset(s.q.pending),
                  multiset(s.q.delayed), multiset(q.pending), multiset(q.delayed));
    } else {
      assert Entries(Started(s')) == Entries(Started(s));
    }
  }

  lemma MoveBetween(out: multiset<Entry>, one: multiset<Entry>, p: multiset<Entry>, d: multiset<Entry>,
                    p': multiset<Entry>, d': multiset<Entry>)
    requires p + d == p' + d' + one
    ensures out + p + d == (out + one) + p' + d'
  {
    assert out + p + d == out + (p + d);
  }

  lemma MultisetOfAppend(es: seq<Entry>, e: Entry)
    ensures multiset(es + [e]) == multiset(es) + multiset{e}
  {
  }

  lemma ConservationKept(s: System, step: Step)
    requires s.q.Valid() && Conserved(s) && Enabled(s, step)
    ensures Conserved(Do(s, step))
  {
    if !MovesTasks(step) {
      OtherStepsMoveNothing(s, step);
    } else if step.WorkerPicks? {
      ConservedAfterPick(s);
    } else {
      ConservedAfterPost(s, step);
    }
  }

  lemma ImmediatesOfAppend(es: seq<Entry>, e: Entry)
    ensures Immediates(es + [e]) == Immediates(es) + if e.Immediate? then [e] else []
  {
    assert (es + [e])[..|es + [e]| - 1] == es;
  }

  lemma ImmediateOrderKept(s: System, step: Step)
    requires s.q.Valid() && ImmediatesInOrder(s) && Enabled(s, step)
    ensures ImmediatesInOrder(Do(s, step))
  {
    if !MovesTasks(step) {
      OtherStepsMoveNothing(s, step);
    } else if step.WorkerPicks? {
      ImmediateOrderAfterPick(s);
    } else {
      ImmediateOrderAfterPost(s, step);
    }
  }

  lemma ImmediateOrderAfterPost(s: System, step: Step)
    requires s.q.Valid() && ImmediatesInOrder(s) && Enabled(s, step)
    requires step.PostLocked? || step.PostDelayedLocked?
    ensures ImmediatesInOrder(Do(s, step))
  {
    hide Immediates, InsertDelayed, Pick, Sorted;
    var s' := Do(s, step);
    ImmediatesOfAppend(s.posted, s'.posted[|s.posted|]);
    assert Started(s') == Started(s);
  }

  lemma ImmediateOrderAfterPick(s: System)
    requires s.q.Valid() && ImmediatesInOrder(s) && s.worker.HasTick?
    ensures ImmediatesInOrder(Do(s, WorkerPicks))
  {
    hide Do, Pick, Immediates, Sorted;
    StartedAfterPick(s);
    PendingAfterPick(s.q, s.worker.tick);
    var s' := Do(s, WorkerPicks);
    var next := Pick(s.q, s.worker.tick).1;
    if next.Run? {
      ImmediatesOfAppend(Entries(Started(s)), next.entry);
    } else {
      assert Entries(Started(s')) == Entries(Started(s));
    }
  }

  // ---------------------------------------------------------------------------------------
  // Time
  // ---------------------------------------------------------------------------------------

  /** The worker never holds a clock value from the future, and no delayed task is picked, let
      alone finished, before its fire time. */
  ghost predicate NeverEarly(s: System) {
    && |s.doneAt| == |s.done|
    && (s.worker.HasTick? || s.worker.Decided? || s.worker.Waiting? ==> s.worker.tick <= s.now)
    && (s.worker.Waiting? ==> s.worker.tick <= s.worker.since <= s.now)
    && (forall i :: 0 <= i < |Started(s)| ==>
                      && Started(s)[i].tick <= s.now
                      && (Started(s)[i].entry.Delayed? ==> Started(s)[i].entry.fireAt <= Started(s)[i].tick))
    && (forall i :: 0 <= i < |s.done| ==> s.done[i].tick <= s.doneAt[i])
  }

  lemma NeverEarlyKept(s: System, step: Step)
    requires s.q.Valid() && NeverEarly(s) && Enabled(s, step)
    ensures NeverEarly(Do(s, step))
  {
    hide Pick, InsertDelayed, Sorted;
    match step
    case WorkerPicks =>
      NeverEarlyAfterPick(s);
    case WorkerFinishesTask =>
      NeverEarlyAfterTask(s);
    case _ =>
      assert Started(Do(s, step)) == Started(s);
  }

  lemma NeverEarlyAfterTask(s: System)
    requires s.q.Valid() && NeverEarly(s) && s.worker.Running?
    ensures NeverEarly(Do(s, WorkerFinishesTask))
  {
    assert Started(Do(s, WorkerFinishesTask)) == Started(s);
    assert s.worker.start == Started(s)[|Started(s)| - 1];
  }

  lemma NeverEarlyAfterPick(s: System)
    requires s.q.Valid() && NeverEarly(s) && s.worker.HasTick?
    ensures NeverEarly(Do(s, WorkerPicks))
  {
    hide Pick, Sorted;
    var next := Pick(s.q, s.worker.tick).1;
    assert Started(Do(s, WorkerPicks)) == Started(s) + if next.Run? then [Start(next.entry, s.worker.tick)] else [];
  }

  // ---------------------------------------------------------------------------------------
  // No lost wake-up
  // ---------------------------------------------------------------------------------------

  ghost predicate SomeoneMustNotify(s: System) {
    exists p :: At(s, p, MustNotify)
  }

  /** While the worker is about to wait or waits, either a wake-up is on its way or what it
      decided still fits the queues. */
  ghost predicate WakeUpNotLost(s: System)
    requires s.q.Valid()
  {
    (s.worker.Decided? || s.worker.Waiting?) && !s.signalled && !SomeoneMustNotify(s) ==>
      && s.q.pending == []
      && !s.q.quit
      && (s.q.delayed != [] ==> s.worker.tick < s.q.delayed[0].fireAt)
      && s.worker.ms == SleepFor(s.q.delayed, s.worker.tick)
  }

  lemma WakeUpNotLostKept(s: System, step: Step)
    requires s.q.Valid() && WakeUpNotLost(s) && Enabled(s, step)
    requires Do(s, step).q.Valid()
    ensures WakeUpNotLost(Do(s, step))
  {
    var s' := Do(s, step);
    match step
    case PostLocked(p, _) => assert At(s', p, MustNotify);
    case PostDelayedLocked(p, _) => assert At(s', p, MustNotify);
    case DeleteLocked(p) => assert At(s', p, MustNotify);
    case SetsEvent(_) =>
    case _ =>
      if SomeoneMustNotify(s) {
        var p :| At(s, p, MustNotify);
        assert At(s', p, MustNotify);
      }
  }

  // ---------------------------------------------------------------------------------------
  // The order of delayed tasks
  // ---------------------------------------------------------------------------------------

  ghost predicate DelayedInOrder(starts: seq<Start>) {
    forall i, j :: 0 <= i < j < |starts| && starts[i].entry.Delayed? && starts[j].entry.Delayed? ==>
                     Before(starts[i].entry, starts[j].entry)
  }

  // The late entry e, if picked, has a picked entry before it that fires after it.
  ghost predicate Overtaken(starts: seq<Start>, upTo: int, e: Entry) {
    exists i :: 0 <= i < upTo <= |starts| && starts[i].entry.Delayed? && e.Delayed? && starts[i].entry.fireAt > e.fireAt
  }

  // An entry is overtaken by one picked before it exactly when it is late.
  ghost predicate LateFacts(starts: seq<Start>, delayed: seq<Entry>, late: set<nat>)
    requires AllDelayed(delayed)
  {
    && (forall i, j :: 0 <= i < j < |starts| && starts[i].entry.Delayed? && starts[j].entry.Delayed?
                       && starts[j].entry.order !in late ==>
                         Before(starts[i].entry, starts[j].entry))
    && (forall i, e :: 0 <= i < |starts| && starts[i].entry.Delayed? && e in delayed
                       && e.order !in late ==>
                         Before(starts[i].entry, e))
    && (forall j :: 0 <= j < |starts| && starts[j].entry.Delayed? && starts[j].entry.order in late ==>
                      Overtaken(starts, j, starts[j].entry))
    && (forall e :: e in delayed && e.order in late ==> Overtaken(starts, |starts|, e))
  }

  /** What is late is exactly what has been overtaken. */
  ghost predicate LateMeansOvertaken(s: System)
    requires s.q.Valid()
  {
    var starts := Started(s);
    && (forall o :: o in s.late ==> o <= s.q.lastOrder)
    && (forall i :: 0 <= i < |starts| ==> starts[i].entry.order <= s.q.lastOrder)
    && LateFacts(starts, s.q.delayed, s.late)
  }

  lemma LateKept(s: System, step: Step)
    requires s.q.Valid() && LateMeansOvertaken(s) && Enabled(s, step)
    requires Do(s, step).q.Valid()
    ensures LateMeansOvertaken(Do(s, step))
  {
    if step.PostDelayedLocked? {
      LatePosted(s, step.p, step.task);
    } else if step.WorkerPicks? {
      LatePicked(s);
    } else {
      assert Started(Do(s, step)) == Started(s);
    }
  }

  lemma LateFactsAfterPost(starts: seq<Start>, delayed: seq<Entry>, late: set<nat>, e: Entry, late': set<nat>)
    requires AllDelayed(delayed) && LateFacts(starts, delayed, late) && e.Delayed?
    requires forall i :: 0 <= i < |starts| ==> starts[i].entry.order < e.order
    requires forall x :: x in delayed ==> x.order != e.order
    requires e.order !in late
    requires late' == if Overtaken(starts, |starts|, e) then late + {e.order} else late
    ensures LateFacts(starts, InsertDelayed(delayed, e), late')
  {
    forall x
      ensures x in InsertDelayed(delayed, e) <==> x in delayed || x == e
    {
      assert multiset(InsertDelayed(delayed, e))[x] == (multiset(delayed) + multiset{e})[x];
      assert x in multiset(InsertDelayed(delayed, e)) <==> x in multiset(delayed) || x == e;
    }
  }

  lemma LatePosted(s: System, p: nat, task: Task)
    requires s.q.Valid() && LateMeansOvertaken(s) && Enabled(s, PostDelayedLocked(p, task))
    requires Do(s, PostDelayedLocked(p, task)).q.Valid()
    ensures LateMeansOvertaken(Do(s, PostDelayedLocked(p, task)))
  {
    hide LateFacts, InsertDelayed, Pick, Sorted;
    var s' := Do(s, PostDelayedLocked(p, task));
    var e := Delayed(s.q.lastOrder + 1, task, s.posters[p].fireAt);
    assert Started(s') == Started(s);
    assert ComesTooLate(s, e.fireAt) <==> Overtaken(Started(s), |Started(s)|, e);
    LateFactsAfterPost(Started(s), s.q.delayed, s.late, e, s'.late);
  }

  // Nothing that stays in the delayed queue comes before what was picked from its head.
  lemma PickedComesFirst(s: System)
    requires s.q.Valid() && s.worker.HasTick?
    ensures var (q, next) := Pick(s.q, s.worker.tick);
            && (forall x :: x in q.delayed ==> x in s.q.delayed)
            && (next.Run? ==> next.entry.order <= s.q.lastOrder)
            && (next.Run? && next.entry.Delayed? ==>
                  && next.entry in s.q.delayed
                  && forall x :: x in q.delayed ==> x.Delayed? && Before(next.entry, x))
  {
    var (q, next) := Pick(s.q, s.worker.tick);
    if next.Run? && next.entry.Delayed? {
      assert next.entry == s.q.delayed[0];
      forall x | x in q.delayed
        ensures x.Delayed? && Before(next.entry, x)
      {
        var k :| 0 <= k < |q.delayed| && q.delayed[k] == x;
        assert s.q.delayed[k + 1] == x;
      }
    }
  }

  lemma LateFactsAfterStart(starts: seq<Start>, delayed: seq<Entry>, late: set<nat>, last: Start, rest: seq<Entry>)
    requires AllDelayed(delayed) && AllDelayed(rest) && LateFacts(starts, delayed, late)
    requires forall x :: x in rest ==> x in delayed
    requires last.entry.Delayed? ==> last.entry in delayed && forall x :: x in rest ==> Before(last.entry, x)
    ensures LateFacts(starts + [last], rest, late)
  {
    var starts' := starts + [last];
    forall j | 0 <= j < |starts'| && starts'[j].entry.Delayed? && starts'[j].entry.order in late
      ensures Overtaken(starts', j, starts'[j].entry)
    {
      OvertakenExtends(starts, last, j, starts'[j].entry);
    }
    forall x | x in rest && x.order in late
      ensures Overtaken(starts', |starts'|, x)
    {
      OvertakenExtends(starts, last, |starts|, x);
    }
  }

  lemma LatePicked(s: System)
    requires s.q.Valid() && LateMeansOvertaken(s) && s.worker.HasTick?
    requires Do(s, WorkerPicks).q.Valid()
    ensures LateMeansOvertaken(Do(s, WorkerPicks))
  {
    var s' := Do(s, WorkerPicks);
    var next := Pick(s.q, s.worker.tick).1;
    PickedComesFirst(s);
    if next.Run? {
      var last := Start(next.entry, s.worker.tick);
      assert Started(s') == Started(s) + [last];
      LateFactsAfterStart(Started(s), s.q.delayed, s.late, last, s'.q.delayed);
    } else {
      assert Started(s') == Started(s);
    }
  }

  lemma OvertakenExtends(starts: seq<Start>, last: Start, upTo: nat, e: Entry)
    requires upTo <= |starts| && Overtaken(starts, upTo, e)
    ensures Overtaken(starts + [last], upTo, e)
    ensures Overtaken(starts + [last], |starts| + 1, e)
  {
    var i :| 0 <= i < upTo && starts[i].entry.Delayed? && starts[i].entry.fireAt > e.fireAt;
    assert (starts + [last])[i] == starts[i];
  }

  // ---------------------------------------------------------------------------------------
  // Whole runs
  // ---------------------------------------------------------------------------------------

  ghost predicate Inv(s: System) {
    && s.q.Valid()
    && Conserved(s)
    && ImmediatesInOrder(s)
    && NeverEarly(s)
    && WakeUpNotLost(s)
    && LateMeansOvertaken(s)
  }

  lemma InvKept(s: System, step: Step)
    requires Inv(s) && Enabled(s, step)
    ensures Inv(Do(s, step))
  {
    QueuesStayValid(s, step);
    ConservationKept(s, step);
    ImmediateOrderKept(s, step);
    NeverEarlyKept(s, step);
    WakeUpNotLostKept(s, step);
    LateKept(s, step);
  }

  lemma {:induction false} InvHolds(states: seq<System>, steps: seq<Step>, n: nat)
    requires IsRun(states, steps) && n < |states|
    ensures Inv(states[n])
  {
    if n == 0 {
      assert Entries(Started(states[0])) == [];
    } else {
      InvHolds(states, steps, n - 1);
      InvKept(states[n - 1], steps[n - 1]);
    }
  }

  /** No lost wake-up. When the worker waits on an unsignalled event and nobody stands between
      leaving the lock and setting the event, nothing is runnable, no quit is pending, and the
      wait gives up at or after the fire time of the delayed head, less than a millisecond
      late beyond the time that went by between reading the clock and entering the wait. */
  lemma NoLostWakeUp(states: seq<System>, steps: seq<Step>, n: nat)
    requires IsRun(states, steps) && n < |states|
    requires states[n].worker.Waiting? && !states[n].signalled && !SomeoneMustNotify(states[n])
    ensures var s := states[n];
            && s.q.pending == [] && !s.q.quit
            && s.q.Valid()
            && (s.q.delayed == [] <==> GiveUpAt(s.worker).None?)
            && (s.q.delayed != [] ==>
                  var head := s.q.delayed[0].fireAt;
                  head <= GiveUpAt(s.worker).value < head + 1000 + (s.worker.since - s.worker.tick))
  {
    InvHolds(states, steps, n);
  }

  // What stands in one of the three places of a conserved system.
  ghost function Places(s: System, e: Entry): nat {
    multiset(Entries(Started(s)))[e] + multiset(s.q.pending)[e] + multiset(s.q.delayed)[e]
  }

  lemma {:induction false} NumberedOnce(posted: seq<Entry>, e: Entry)
    requires Numbered(posted)
    ensures multiset(posted)[e] == if e in posted then 1 else 0
  {
    if posted != [] {
      var n := |posted| - 1;
      assert posted == posted[..n] + [posted[n]];
      NumberedOnce(posted[..n], e);
      assert forall k :: 0 <= k < n ==> posted[..n][k].order == k + 1;
      assert posted[n] !in posted[..n];
    }
  }

  /** Exactly once: in every reachable state each posted entry is in exactly one place, nothing
      else is anywhere, and immediate tasks were picked in posting order: those picked are
      a prefix of those posted. */
  lemma EachPostedTaskInOnePlace(states: seq<System>, steps: seq<Step>, n: nat, e: Entry)
    requires IsRun(states, steps) && n < |states|
    ensures Places(states[n], e) == if e in states[n].posted then 1 else 0
    ensures Immediates(Entries(Started(states[n]))) <= Immediates(states[n].posted)
  {
    InvHolds(states, steps, n);
    NumberedOnce(states[n].posted, e);
  }

  lemma NoDelayedTaskEarly(states: seq<System>, steps: seq<Step>, n: nat, i: nat)
    requires IsRun(states, steps) && n < |states|
    requires i < |states[n].done| && states[n].done[i].entry.Delayed?
    ensures i < |states[n].doneAt| && states[n].done[i].entry.fireAt <= states[n].doneAt[i]
  {
    InvHolds(states, steps, n);
    assert Started(states[n])[i] == states[n].done[i];
  }

  /** Delayed tasks were picked in (fire time, order) order if and only if none of them was
      enqueued after a task with a later fire time had been picked. */
  lemma DelayedOrderIffNoneLate(states: seq<System>, steps: seq<Step>, n: nat)
    requires IsRun(states, steps) && n < |states|
    ensures var s := states[n];
            DelayedInOrder(Started(s))
            <==> forall i :: 0 <= i < |Started(s)| && Started(s)[i].entry.Delayed? ==>
                               Started(s)[i].entry.order !in s.late
  {
    InvHolds(states, steps, n);
    var s := states[n];
    var starts := Started(s);
    if DelayedInOrder(starts) {
      forall j | 0 <= j < |starts| && starts[j].entry.Delayed?
        ensures starts[j].entry.order !in s.late
      {
        assert !Overtaken(starts, j, starts[j].entry);
      }
    }
  }

  // Each delayed post takes the lock before its fire time has passed, as it does when reading
  // the clock and enqueueing happen at one instant and delays are not negative.
  ghost predicate Prompt(states: seq<System>, steps: seq<Step>) {
    forall i :: 0 <= i < |steps| < |states| && steps[i].PostDelayedLocked? ==>
                  var s := states[i];
                  steps[i].p in s.posters && s.posters[steps[i].p].HasFireTime?
                  && s.posters[steps[i].p].fireAt >= s.now
  }

  lemma PromptIsNotLate(s: System, p: nat)
    requires NeverEarly(s) && p in s.posters && s.posters[p].HasFireTime?
    requires s.posters[p].fireAt >= s.now
    ensures !ComesTooLate(s, s.posters[p].fireAt)
  {
  }

  lemma PromptStepNotLate(s: System, step: Step)
    requires s.q.Valid() && NeverEarly(s) && Enabled(s, step) && s.late == {}
    requires step.PostDelayedLocked? ==> s.posters[step.p].fireAt >= s.now
    ensures Do(s, step).late == {}
  {
    hide NeverEarly, ComesTooLate, Pick, InsertDelayed, Sorted;
    if step.PostDelayedLocked? {
      PromptIsNotLate(s, step.p);
    }
  }

  lemma {:induction false} NoneLateWhenPrompt(states: seq<System>, steps: seq<Step>, n: nat)
    requires IsRun(states, steps) && n < |states| && Prompt(states, steps)
    ensures states[n].late == {}
  {
    hide Do, Enabled, Conserved, ImmediatesInOrder, NeverEarly, WakeUpNotLost, LateMeansOvertaken, Sorted;
    if n > 0 {
      NoneLateWhenPrompt(states, steps, n - 1);
      InvHolds(states, steps, n - 1);
      PromptStepNotLate(states[n - 1], steps[n - 1]);
    }
  }

  /** With prompt posts delayed tasks run in (fire time, order) order. */
  lemma PromptPostsRunInOrder(states: seq<System>, steps: seq<Step>, n: nat)
    requires IsRun(states, steps) && n < |states| && Prompt(states, steps)
    ensures DelayedInOrder(Started(states[n]))
  {
    NoneLateWhenPrompt(states, steps, n);
    DelayedOrderIffNoneLate(states, steps, n);
  }

  function Last(states: seq<System>): System
    requires states != []
  {
    states[|states| - 1]
  }

  lemma StartRun(s: System) returns (states: seq<System>, steps: seq<Step>)
    requires Initial(s)
    ensures IsRun(states, steps) && Last(states) == s
  {
    states, steps := [s], [];
  }

  lemma ExtendRun(states: seq<System>, steps: seq<Step>, step: Step) returns (states': seq<System>, steps': seq<Step>)
    requires IsRun(states, steps) && Enabled(Last(states), step)
    ensures IsRun(states', steps')
    ensures Last(states).q.Valid()
    ensures Last(states') == Do(Last(states), step)
  {
    hide Do, Enabled, Initial, Conserved, ImmediatesInOrder, NeverEarly, WakeUpNotLost, LateMeansOvertaken, Sorted;
    InvHolds(states, steps, |steps|);
    states' := states + [Do(Last(states), step)];
    steps' := steps + [step];
    forall i | 0 <= i < |steps'|
      ensures states'[i].q.Valid() && Enabled(states'[i], steps'[i]) && states'[i + 1] == Do(states'[i], steps'[i])
    {
      assert states'[i] == states[i];
      if i < |steps| {
        assert states'[i + 1] == states[i + 1];
      }
    }
  }

  // Two posters have read their fire times.
  lemma InversionStarted() returns (states: seq<System>, steps: seq<Step>)
    ensures IsRun(states, steps)
    ensures Last(states) == System(Queues([], [], 0, false), false, 0,
                                   map[0 := HasFireTime(10), 1 := HasFireTime(11)], Top, [], [], [], {})
  {
    hide Follows;
    var posters := map[0 := Ready, 1 := Ready];
    states, steps := StartRun(System(Queues([], [], 0, false), false, 0, posters, Top, [], [], [], {}));
    states, steps := ExtendRun(states, steps, ReadsClock(0, 10));
    states, steps := ExtendRun(states, steps, ReadsClock(1, 11));
    assert Last(states).posters == map[0 := HasFireTime(10), 1 := HasFireTime(11)];
  }

  // The task that fires at 11 has been posted.
  lemma InversionPosted() returns (states: seq<System>, steps: seq<Step>)
    ensures IsRun(states, steps)
    ensures Last(states) == System(Queues([], [Delayed(1, Task(1), 11)], 1, false), false, 20,
                                   map[0 := HasFireTime(10), 1 := MustNotify], Top, [Delayed(1, Task(1), 11)],
                                   [], [], {})
  {
    hide Follows;
    states, steps := InversionStarted();
    states, steps := ExtendRun(states, steps, PostDelayedLocked(1, Task(1)));
    assert Last(states).q.delayed == [Delayed(1, Task(1), 11)];
    assert Last(states).posters == map[0 := HasFireTime(10), 1 := MustNotify];
    states, steps := ExtendRun(states, steps, TimePasses(20));
  }

  // The worker has run the task that fires at 11.
  lemma InversionRun() returns (states: seq<System>, steps: seq<Step>)
    ensures IsRun(states, steps)
    ensures var s := Last(states);
            && s.q == Queues([], [], 1, false) && s.now == 20 && s.worker == Top
            && s.posters == map[0 := HasFireTime(10), 1 := MustNotify]
            && s.done == [Start(Delayed(1, Task(1), 11), 20)]
  {
    hide Follows;
    states, steps := InversionPosted();
    states, steps := ExtendRun(states, steps, WorkerReadsClock);
    states, steps := ExtendRun(states, steps, WorkerPicks);
    assert Last(states).q.delayed == [];
    states, steps := ExtendRun(states, steps, WorkerFinishesTask);
  }

  // The task that fires at 10 has been posted.
  lemma InversionLate() returns (states: seq<System>, steps: seq<Step>)
    ensures IsRun(states, steps)
    ensures var s := Last(states);
            && s.q == Queues([], [Delayed(2, Task(0), 10)], 2, false) && s.now == 20 && s.worker == Top
            && s.done == [Start(Delayed(1, Task(1), 11), 20)]
  {
    hide Follows, Pick;
    states, steps := InversionRun();
    states, steps := ExtendRun(states, steps, PostDelayedLocked(0, Task(0)));
    assert Last(states).q.delayed == [Delayed(2, Task(0), 10)];
  }

  /** Without promptness the order can be inverted: one poster reads the clock and stalls while
      a task that fires one microsecond later is posted and run. */
  lemma DelayedOrderCanBeInverted() returns (states: seq<System>, steps: seq<Step>)
    ensures IsRun(states, steps)
    ensures !DelayedInOrder(Started(Last(states)))
  {
    hide Follows, InsertDelayed;
    states, steps := InversionLate();
    states, steps := ExtendRun(states, steps, WorkerReadsClock);
    states, steps := ExtendRun(states, steps, WorkerPicks);
    var starts := Started(Last(states));
    assert starts == [Start(Delayed(1, Task(1), 11), 20), Start(Delayed(2, Task(0), 10), 20)];
    assert !Before(starts[0].entry, starts[1].entry);
  }

  // A poster has read a fire time of 65 and enqueued its task.
  lemma OvertakingStarted() returns (states: seq<System>, steps: seq<Step>)
    ensures IsRun(states, steps)
    ensures var s := Last(states);
            && s.q == Queues([], [Delayed(1, Task(0), 65)], 1, false) && s.now == 0 && s.worker == Top
            && At(s, 1, Ready) && At(s, 2, Ready)
  {
    hide Follows, Pick, Before;
    var posters := map[0 := Ready, 1 := Ready, 2 := Ready];
    states, steps := StartRun(System(Queues([], [], 0, false), false, 0, posters, Top, [], [], [], {}));
    states, steps := ExtendRun(states, steps, ReadsClock(0, 65));
    states, steps := ExtendRun(states, steps, PostDelayedLocked(0, Task(0)));
    assert Last(states).q.delayed == [Delayed(1, Task(0), 65)];
  }

  // A task without a delay has been posted after it.
  lemma OvertakingPosted() returns (states: seq<System>, steps: seq<Step>)
    ensures IsRun(states, steps)
    ensures var s := Last(states);
            && s.q == Queues([Immediate(2, Task(1))], [Delayed(1, Task(0), 65)], 2, false) && s.now == 0
            && s.worker == Top && At(s, 2, Ready)
  {
    hide Follows, Pick, InsertDelayed;
    states, steps := OvertakingStarted();
    states, steps := ExtendRun(states, steps, PostLocked(1, Task(1)));
    assert Last(states).q.pending == [Immediate(2, Task(1))];
  }

  // A task that fires at 60 has been posted last, and 70 microseconds have gone by.
  lemma OvertakingDue() returns (states: seq<System>, steps: seq<Step>)
    ensures IsRun(states, steps)
    ensures var s := Last(states);
            && s.q == Queues([Immediate(2, Task(1))], [Delayed(3, Task(2), 60), Delayed(1, Task(0), 65)], 3, false)
            && s.now == 70 && s.worker == Top
  {
    hide Follows, Pick;
    states, steps := OvertakingPosted();
    states, steps := ExtendRun(states, steps, ReadsClock(2, 60));
    states, steps := ExtendRun(states, steps, PostDelayedLocked(2, Task(2)));
    assert Last(states).q.delayed == [Delayed(3, Task(2), 60), Delayed(1, Task(0), 65)];
    states, steps := ExtendRun(states, steps, TimePasses(70));
  }

  /** The overtaking of a due task does occur: a run after which the worker picks the immediate
      task posted second ahead of the delayed task posted first, which has been due for a while. */
  lemma DueTaskIsOvertaken() returns (states: seq<System>, steps: seq<Step>)
    ensures IsRun(states, steps)
    ensures var s := Last(states);
            s.worker.HasTick? && s.worker.tick == s.now && s.q.Valid() && OvertakesDueTask(s.q, s.worker.tick)
  {
    hide Follows, Pick, InsertDelayed, OvertakesDueTask;
    states, steps := OvertakingDue();
    states, steps := ExtendRun(states, steps, WorkerReadsClock);
    InvHolds(states, steps, |steps|);
    var q := Last(states).q;
    assert DueBefore(q.delayed[1], 70, q.pending[0].order);
    OvertakesDueTaskIff(q, 70);
  }
}
