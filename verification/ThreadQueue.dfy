/** The message queue of rtc::Thread: posted tasks go to a FIFO, delayed ones to a priority
    queue; Get moves whatever is due from the second to the first before it takes one task. */
module ThreadQueue {
  import opened Options

  // ---------------------------------------------------------------------------------------
  // The queue object
  // ---------------------------------------------------------------------------------------

  datatype Task =
    | Posted(id: nat)
    | Delayed(id: nat, runTimeMs: int, messageNumber: nat)

  const NUMBERS: nat := 0x1_0000_0000  // message_number is a uint32_t

  // DelayedMessage::operator< turned round: a is handed out before b.
  predicate Before(a: Task, b: Task)
    requires a.Delayed? && b.Delayed?
  {
    a.runTimeMs < b.runTimeMs || (a.runTimeMs == b.runTimeMs && a.messageNumber < b.messageNumber)
  }

  predicate AllDelayed(ts: seq<Task>) {
    forall i :: 0 <= i < |ts| ==> ts[i].Delayed?
  }

  ghost predicate Sorted(ts: seq<Task>)
    requires AllDelayed(ts)
  {
    forall i, j :: 0 <= i < j < |ts| ==> !Before(ts[j], ts[i])
  }

  // `delayed` lists the priority queue from its top down.
  datatype Queue = Queue(messages: seq<Task>, delayed: seq<Task>, nextNum: nat)
  {
    ghost predicate Valid() {
      AllDelayed(delayed) && Sorted(delayed) && nextNum < NUMBERS
    }
  }

  function Insert(ts: seq<Task>, t: Task): (r: seq<Task>)
    requires AllDelayed(ts) && t.Delayed?
    ensures AllDelayed(r)
    ensures multiset(r) == multiset(ts) + multiset{t}
    ensures forall x :: x in r <==> x in ts || x == t
  {
    if ts == [] || Before(t, ts[0]) then
      [t] + ts
    else
      assert ts == [ts[0]] + ts[1..];
      [ts[0]] + Insert(ts[1..], t)
  }

  lemma {:induction false} InsertKeepsSorted(ts: seq<Task>, t: Task)
    requires AllDelayed(ts) && Sorted(ts) && t.Delayed?
    ensures Sorted(Insert(ts, t))
  {
    if ts == [] || Before(t, ts[0]) {
      var r := [t] + ts;
      forall i, j | 0 <= i < j < |r|
        ensures !Before(r[j], r[i])
      {
        if i == 0 {
          assert !Before(r[j], ts[0]);
        } else {
          assert !Before(ts[j - 1], ts[i - 1]);
        }
      }
    } else {
      InsertKeepsSorted(ts[1..], t);
      var rest := Insert(ts[1..], t);
      forall x | x in rest
        ensures !Before(x, ts[0])
      {
        if x in ts[1..] {
          var k :| 0 <= k < |ts[1..]| && ts[1..][k] == x;
          assert ts[k + 1] == x;
        }
      }
    }
  }

  // How many messages at the top of the priority queue are due at msCurrent.
  function Due(delayed: seq<Task>, msCurrent: int): (k: nat)
    requires AllDelayed(delayed)
    ensures k <= |delayed|
    ensures forall i :: 0 <= i < k ==> delayed[i].runTimeMs <= msCurrent
    ensures k < |delayed| ==> msCurrent < delayed[k].runTimeMs
  {
    if delayed == [] || msCurrent < delayed[0].runTimeMs then 0 else 1 + Due(delayed[1..], msCurrent)
  }

  lemma DueFrom(delayed: seq<Task>, msCurrent: int, k: nat)
    requires AllDelayed(delayed) && k <= |delayed|
    ensures Due(delayed[k..], msCurrent) ==
      if k == |delayed| || msCurrent < delayed[k].runTimeMs then 0 else 1 + Due(delayed[k + 1..], msCurrent)
  {
    if k < |delayed| {
      assert delayed[k..][0] == delayed[k] && delayed[k..][1..] == delayed[k + 1..];
    }
  }

  function AfterPostDelayed(q: Queue, id: nat, runTimeMs: int): Queue
    requires AllDelayed(q.delayed)
  {
    q.(delayed := Insert(q.delayed, Delayed(id, runTimeMs, q.nextNum)), nextNum := (q.nextNum + 1) % NUMBERS)
  }

  // The lock section of Get: move what is due, take the front.
  function AfterGet(q: Queue, msCurrent: int): (Queue, Option<Task>)
    requires AllDelayed(q.delayed)
  {
    var k := Due(q.delayed, msCurrent);
    var messages := q.messages + q.delayed[..k];
    if messages == [] then (q.(messages := [], delayed := q.delayed[k..]), None)
    else (q.(messages := messages[1..], delayed := q.delayed[k..]), Some(messages[0]))
  }

  class Thread {
    var messages: seq<Task>
    var delayedMessages: seq<Task>
    var delayedNextNum: nat
    var stop: bool

    ghost function View(): Queue
      reads this
    {
      Queue(messages, delayedMessages, delayedNextNum)
    }

    constructor ()
      ensures View() == Queue([], [], 0) && !stop
      ensures View().Valid()
    {
      messages, delayedMessages, delayedNextNum, stop := [], [], 0, false;
    }

    method Quit()
      modifies this`stop
      ensures stop
    {
      stop := true;
    }

    method PostTask(id: nat)
      modifies this`messages
      ensures View() == if stop then old(View()) else old(View()).(messages := old(messages) + [Posted(id)])
    {
      if stop {
        return;
      }
      messages := messages + [Posted(id)];
    }

    method PostDelayedHighPrecisionTask(id: nat, runTimeMs: int)
      requires View().Valid()
      modifies this`delayedMessages, this`delayedNextNum
      ensures View() == if stop then old(View()) else AfterPostDelayed(old(View()), id, runTimeMs)
      ensures View().Valid()
    {
      if stop {
        return;
      }
      InsertKeepsSorted(delayedMessages, Delayed(id, runTimeMs, delayedNextNum));
      delayedMessages := Insert(delayedMessages, Delayed(id, runTimeMs, delayedNextNum));
      delayedNextNum := (delayedNextNum + 1) % NUMBERS;
    }

    // The loop at the start of the lock section of Get.
    method MoveDue(msCurrent: int) returns (cmsDelayNext: Option<int>)
      requires AllDelayed(delayedMessages)
      modifies this`messages, this`delayedMessages
      ensures var k := Due(old(delayedMessages), msCurrent);
              && messages == old(messages) + old(delayedMessages)[..k]
              && delayedMessages == old(delayedMessages)[k..]
      ensures cmsDelayNext ==
              if delayedMessages == [] then None else Some(delayedMessages[0].runTimeMs - msCurrent)
    {
      hide Due;
      cmsDelayNext := None;
      ghost var was, k := delayedMessages, 0;
      assert was[0..] == was && was[..0] == [];
      while delayedMessages != []
        invariant k <= |was| && delayedMessages == was[k..]
        invariant messages == old(messages) + was[..k]
        invariant Due(was, msCurrent) == k + Due(was[k..], msCurrent)
        invariant cmsDelayNext == None
        decreases |delayedMessages|
      {
        DueFrom(was, msCurrent, k);
        if msCurrent < delayedMessages[0].runTimeMs {
          cmsDelayNext := Some(delayedMessages[0].runTimeMs - msCurrent);
          break;
        }
        assert was[k..][1..] == was[k + 1..] && was[..k + 1] == was[..k] + [was[k]];
        messages := messages + [delayedMessages[0]];
        delayedMessages := delayedMessages[1..];
        k := k + 1;
      }
      DueFrom(was, msCurrent, k);
    }

    /** One pass of Get through its lock section. Returns a task if there is one, and how long
        a wait that follows may last at most without missing a delayed message. */
    method TryGet(msCurrent: int) returns (task: Option<Task>, cmsDelayNext: Option<int>)
      requires View().Valid()
      modifies this`messages, this`delayedMessages
      ensures (View(), task) == AfterGet(old(View()), msCurrent)
      ensures View().Valid()
      ensures cmsDelayNext ==
              if delayedMessages == [] then None else Some(delayedMessages[0].runTimeMs - msCurrent)
      ensures cmsDelayNext.Some? ==> cmsDelayNext.value > 0
    {
      cmsDelayNext := MoveDue(msCurrent);
      task := None;
      if messages != [] {
        task := Some(messages[0]);
        messages := messages[1..];
      }
    }
  }

  // ---------------------------------------------------------------------------------------
  // Runs
  // ---------------------------------------------------------------------------------------

  // `reading` has the posters between reading the clock and taking the lock, with the run time of
  // their message; `posted`, `delayedPosts`, `handed` and `late` are history.
  datatype System = System(
    q: Queue,
    now: int,
    reading: map<nat, int>,
    posted: seq<Task>,
    delayedPosts: nat,
    handed: seq<Task>,
    late: set<nat>)

  datatype Step =
    | TimePasses(ms: nat)
    | Post
    | ReadsClock(p: nat, delayMs: int)
    | PostDelayed(p: nat)
    | Get(msCurrent: int)   // the clock value may be an old one

  // What has left the priority queue or never was in it, in the order it is handed out.
  function Moved(s: System): seq<Task> {
    s.handed + s.q.messages
  }

  predicate Enabled(s: System, step: Step) {
    match step
    case TimePasses(_) => true
    case Post => true
    case ReadsClock(p, _) => p !in s.reading
    case PostDelayed(p) => p in s.reading
    case Get(msCurrent) => msCurrent <= s.now
  }

  // Something that should be handed out after t has been moved already.
  predicate ComesTooLate(s: System, t: Task)
    requires t.Delayed?
  {
    exists i :: 0 <= i < |Moved(s)| && Moved(s)[i].Delayed? && Before(t, Moved(s)[i])
  }

  function Do(s: System, step: Step): System
    requires AllDelayed(s.q.delayed) && Enabled(s, step)
  {
    match step
    case TimePasses(ms) => s.(now := s.now + ms)
    case Post =>
      var t := Posted(|s.posted|);
      s.(q := s.q.(messages := s.q.messages + [t]), posted := s.posted + [t])
    case ReadsClock(p, delayMs) => s.(reading := s.reading[p := s.now + delayMs])
    case PostDelayed(p) =>
      var t := Delayed(|s.posted|, s.reading[p], s.q.nextNum);
      s.(q := AfterPostDelayed(s.q, |s.posted|, s.reading[p]),
         reading := s.reading - {p},
         posted := s.posted + [t],
         delayedPosts := s.delayedPosts + 1,
         late := if ComesTooLate(s, t) then s.late + {t.id} else s.late)
    case Get(ms) =>
      var (q, task) := AfterGet(s.q, ms);
      s.(q := q, handed := if task.Some? then s.handed + [task.value] else s.handed)
  }

  ghost predicate Initial(s: System) {
    s.q == Queue([], [], 0) && s.reading == map[] &&
    s.posted == [] && s.delayedPosts == 0 && s.handed == [] && s.late == {}
  }

  ghost predicate Follows(states: seq<System>, steps: seq<Step>)
    requires |states| == |steps| + 1
  {
    forall i :: 0 <= i < |steps| ==>
                  && states[i].q.Valid()
                  && Enabled(states[i], steps[i])
                  && states[i + 1] == Do(states[i], steps[i])
  }

  ghost predicate IsRun(states: seq<System>, steps: seq<Step>) {
    |states| == |steps| + 1 && Initial(states[0]) && Follows(states, steps)
  }

  // What a Get moves: the due part of the priority queue goes to the end.
  lemma MovedByGet(s: System, ms: int)
    requires AllDelayed(s.q.delayed) && ms <= s.now
    ensures var s' := Do(s, Get(ms));
            var k := Due(s.q.delayed, ms);
            && Moved(s') == Moved(s) + s.q.delayed[..k]
            && s'.q == Queue(s'.q.messages, s.q.delayed[k..], s.q.nextNum)
            && s'.posted == s.posted && s'.delayedPosts == s.delayedPosts && s'.late == s.late && s'.now == s.now
  {
    hide Due;
    var s' := Do(s, Get(ms));
    var k := Due(s.q.delayed, ms);
    var messages := s.q.messages + s.q.delayed[..k];
    if messages != [] {
      assert messages == [messages[0]] + messages[1..];
      assert s'.handed + s'.q.messages == s.handed + messages;
    }
  }

  ghost predicate Numbered(posted: seq<Task>) {
    forall i :: 0 <= i < |posted| ==> posted[i].id == i
  }

  function PostedOf(ts: seq<Task>): seq<Task> {
    if ts == [] then [] else (if ts[0].Posted? then [ts[0]] else []) + PostedOf(ts[1..])
  }

  lemma {:induction false} PostedOfAppend(a: seq<Task>, b: seq<Task>)
    ensures PostedOf(a + b) == PostedOf(a) + PostedOf(b)
  {
    if a == [] {
      assert a + b == b;
    } else {
      assert (a + b)[1..] == a[1..] + b;
      PostedOfAppend(a[1..], b);
    }
  }

  lemma PostedOfOne(t: Task)
    ensures PostedOf([t]) == if t.Posted? then [t] else []
  {
    assert [t][1..] == [];
  }

  lemma {:induction false} NoPostedInDelayed(ts: seq<Task>)
    requires AllDelayed(ts)
    ensures PostedOf(ts) == []
  {
    if ts != [] {
      NoPostedInDelayed(ts[1..]);
    }
  }

  ghost predicate Conserved(s: System) {
    && Numbered(s.posted)
    && multiset(s.posted) == multiset(Moved(s)) + multiset(s.q.delayed)
    && PostedOf(Moved(s)) == PostedOf(s.posted)
  }

  lemma ConservedAfterGet(s: System, ms: int)
    requires s.q.Valid() && Conserved(s) && ms <= s.now
    ensures Conserved(Do(s, Get(ms)))
  {
    hide Do, Due, PostedOf, Sorted, Moved;
    MovedByGet(s, ms);
    var k := Due(s.q.delayed, ms);
    var due, rest := s.q.delayed[..k], s.q.delayed[k..];
    assert s.q.delayed == due + rest;
    PostedOfAppend(Moved(s), due);
    NoPostedInDelayed(due);
    assert multiset(Moved(s) + due) == multiset(Moved(s)) + multiset(due);
    assert multiset(s.q.delayed) == multiset(due) + multiset(rest);
  }

  lemma ConservedAfterPostDelayed(s: System, p: nat)
    requires s.q.Valid() && Conserved(s) && p in s.reading
    ensures Conserved(Do(s, PostDelayed(p)))
  {
    hide Sorted, Insert, PostedOf;
    var t := Delayed(|s.posted|, s.reading[p], s.q.nextNum);
    PostedOfAppend(s.posted, [t]);
    PostedOfOne(t);
    assert multiset(s.posted + [t]) == multiset(s.posted) + multiset{t};
  }

  lemma ConservedAfterPost(s: System)
    requires s.q.Valid() && Conserved(s)
    ensures Conserved(Do(s, Post))
  {
    hide Sorted, PostedOf;
    var t := Posted(|s.posted|);
    assert Moved(Do(s, Post)) == Moved(s) + [t];
    PostedOfAppend(Moved(s), [t]);
    PostedOfAppend(s.posted, [t]);
    PostedOfOne(t);
    assert multiset(s.posted + [t]) == multiset(s.posted) + multiset{t};
    assert multiset(Moved(s) + [t]) == multiset(Moved(s)) + multiset{t};
  }

  lemma ConservedKept(s: System, step: Step)
    requires s.q.Valid() && Conserved(s) && Enabled(s, step)
    ensures Conserved(Do(s, step))
  {
    hide Sorted, PostedOf, AfterGet, AfterPostDelayed;
    match step
    case TimePasses(_) =>
    case Post => ConservedAfterPost(s);
    case ReadsClock(_, _) =>
    case PostDelayed(p) => ConservedAfterPostDelayed(s, p);
    case Get(ms) => ConservedAfterGet(s, ms);
  }

  ghost predicate NeverEarly(s: System) {
    && s.q.Valid()
    && forall t :: t in Moved(s) && t.Delayed? ==> t.runTimeMs <= s.now
  }

  lemma NeverEarlyKept(s: System, step: Step)
    requires NeverEarly(s) && Enabled(s, step)
    ensures NeverEarly(Do(s, step))
  {
    match step
    case PostDelayed(p) =>
      InsertKeepsSorted(s.q.delayed, Delayed(|s.posted|, s.reading[p], s.q.nextNum));
    case Get(ms) =>
      MovedByGet(s, ms);
      var k := Due(s.q.delayed, ms);
      forall t | t in s.q.delayed[..k]
        ensures t.runTimeMs <= s.now
      {
        var i :| 0 <= i < k && s.q.delayed[i] == t;
      }
    case _ =>
  }

  // ---------------------------------------------------------------------------------------
  // The order of delayed messages
  // ---------------------------------------------------------------------------------------

  ghost predicate DelayedInOrder(ts: seq<Task>) {
    forall i, j :: 0 <= i < j < |ts| && ts[i].Delayed? && ts[j].Delayed? ==> !Before(ts[j], ts[i])
  }

  ghost predicate Overtaken(moved: seq<Task>, upTo: int, t: Task) {
    exists i :: 0 <= i < upTo <= |moved| && moved[i].Delayed? && t.Delayed? && Before(t, moved[i])
  }

  // A delayed message is overtaken by one moved before it exactly when it is late.
  ghost predicate LateFacts(moved: seq<Task>, delayed: seq<Task>, late: set<nat>) {
    && (forall j :: 0 <= j < |moved| && moved[j].Delayed? ==>
                      (moved[j].id in late <==> Overtaken(moved, j, moved[j])))
    && (forall t :: t in delayed && t.Delayed? ==> (t.id in late <==> Overtaken(moved, |moved|, t)))
  }

  lemma {:induction false} OvertakenInPrefix(moved: seq<Task>, more: seq<Task>, upTo: nat, t: Task)
    requires upTo <= |moved|
    ensures Overtaken(moved + more, upTo, t) <==> Overtaken(moved, upTo, t)
  {
    if Overtaken(moved, upTo, t) {
      var i :| 0 <= i < upTo && moved[i].Delayed? && t.Delayed? && Before(t, moved[i]);
      assert (moved + more)[i] == moved[i];
    }
  }

  // Moving the top of the priority queue changes nobody's lateness.
  lemma LateFactsMoveTop(moved: seq<Task>, delayed: seq<Task>, late: set<nat>)
    requires AllDelayed(delayed) && Sorted(delayed) && delayed != []
    requires LateFacts(moved, delayed, late)
    ensures LateFacts(moved + [delayed[0]], delayed[1..], late)
  {
    var top := delayed[0];
    var moved' := moved + [top];
    forall j | 0 <= j < |moved'| && moved'[j].Delayed?
      ensures moved'[j].id in late <==> Overtaken(moved', j, moved'[j])
    {
      OvertakenInPrefix(moved, [top], j, moved'[j]);
      assert top in delayed;
    }
    forall t | t in delayed[1..]
      ensures t.id in late <==> Overtaken(moved', |moved'|, t)
    {
      var k :| 0 <= k < |delayed[1..]| && delayed[1..][k] == t;
      assert delayed[k + 1] == t && !Before(t, top);
      OvertakenInPrefix(moved, [top], |moved|, t);
      if Overtaken(moved', |moved'|, t) {
        var i :| 0 <= i < |moved'| && moved'[i].Delayed? && Before(t, moved'[i]);
        assert i < |moved|;
      }
      if Overtaken(moved, |moved|, t) {
        var i :| 0 <= i < |moved| && moved[i].Delayed? && Before(t, moved[i]);
        assert moved'[i] == moved[i];
      }
    }
  }

  lemma {:induction false} LateFactsMove(moved: seq<Task>, delayed: seq<Task>, late: set<nat>, k: nat)
    requires AllDelayed(delayed) && Sorted(delayed) && k <= |delayed|
    requires LateFacts(moved, delayed, late)
    ensures LateFacts(moved + delayed[..k], delayed[k..], late)
  {
    if k == 0 {
      assert moved + delayed[..0] == moved && delayed[0..] == delayed;
    } else {
      LateFactsMove(moved, delayed, late, k - 1);
      var rest := delayed[k - 1..];
      LateFactsMoveTop(moved + delayed[..k - 1], rest, late);
      assert moved + delayed[..k - 1] + [rest[0]] == moved + delayed[..k];
      assert rest[1..] == delayed[k..];
    }
  }

  // A message posted for now goes to the end of what is moved.
  lemma LateFactsPost(moved: seq<Task>, delayed: seq<Task>, late: set<nat>, t: Task)
    requires t.Posted? && LateFacts(moved, delayed, late)
    ensures LateFacts(moved + [t], delayed, late)
  {
    var moved' := moved + [t];
    forall j | 0 <= j < |moved'| && moved'[j].Delayed?
      ensures moved'[j].id in late <==> Overtaken(moved', j, moved'[j])
    {
      OvertakenInPrefix(moved, [t], j, moved'[j]);
    }
    forall x | x in delayed && x.Delayed?
      ensures x.id in late <==> Overtaken(moved', |moved'|, x)
    {
      OvertakenInPrefix(moved, [t], |moved|, x);
      if Overtaken(moved', |moved'|, x) {
        var i :| 0 <= i < |moved'| && moved'[i].Delayed? && Before(x, moved'[i]);
        assert i < |moved|;
      }
    }
  }

  lemma LateFactsInsert(moved: seq<Task>, delayed: seq<Task>, late: set<nat>, t: Task, late': set<nat>)
    requires AllDelayed(delayed) && t.Delayed? && LateFacts(moved, delayed, late)
    requires forall x :: x in moved || x in delayed ==> x.id != t.id
    requires t.id !in late
    requires late' == if Overtaken(moved, |moved|, t) then late + {t.id} else late
    ensures LateFacts(moved, Insert(delayed, t), late')
  {
  }

  ghost predicate LateIsOvertaken(s: System) {
    && (forall o :: o in s.late ==> o < |s.posted|)
    && (forall t :: t in Moved(s) || t in s.q.delayed ==> t.id < |s.posted|)
    && LateFacts(Moved(s), s.q.delayed, s.late)
  }

  lemma LateKept(s: System, step: Step)
    requires s.q.Valid() && LateIsOvertaken(s) && Enabled(s, step)
    ensures LateIsOvertaken(Do(s, step))
  {
    var s' := Do(s, step);
    match step
    case TimePasses(_) =>
    case ReadsClock(_, _) =>
    case Post =>
      assert Moved(s') == Moved(s) + [Posted(|s.posted|)];
      LateFactsPost(Moved(s), s.q.delayed, s.late, Posted(|s.posted|));
    case PostDelayed(p) =>
      var t := Delayed(|s.posted|, s.reading[p], s.q.nextNum);
      assert ComesTooLate(s, t) <==> Overtaken(Moved(s), |Moved(s)|, t);
      LateFactsInsert(Moved(s), s.q.delayed, s.late, t, s'.late);
    case Get(ms) =>
      MovedByGet(s, ms);
      var k := Due(s.q.delayed, ms);
      LateFactsMove(Moved(s), s.q.delayed, s.late, k);
  }

  // ---------------------------------------------------------------------------------------
  // Whole runs
  // ---------------------------------------------------------------------------------------

  ghost predicate Inv(s: System) {
    NeverEarly(s) && Conserved(s) && LateIsOvertaken(s)
  }

  lemma {:induction false} InvHolds(states: seq<System>, steps: seq<Step>, n: nat)
    requires IsRun(states, steps) && n < |states|
    ensures Inv(states[n])
  {
    if n > 0 {
      InvHolds(states, steps, n - 1);
      NeverEarlyKept(states[n - 1], steps[n - 1]);
      ConservedKept(states[n - 1], steps[n - 1]);
      LateKept(states[n - 1], steps[n - 1]);
    }
  }

  lemma {:induction false} NumberedOnce(posted: seq<Task>, t: Task)
    requires Numbered(posted)
    ensures multiset(posted)[t] == if t in posted then 1 else 0
  {
    if posted != [] {
      var n := |posted| - 1;
      assert posted == posted[..n] + [posted[n]];
      NumberedOnce(posted[..n], t);
      assert forall k :: 0 <= k < n ==> posted[..n][k].id == k;
      assert posted[n] !in posted[..n];
    }
  }

  /** Get hands out each task at most once, and only posted ones; tasks posted without a delay
      are handed out in posting order. */
  lemma HandedOnceInPostOrder(states: seq<System>, steps: seq<Step>, n: nat, t: Task)
    requires IsRun(states, steps) && n < |states|
    ensures var s := states[n];
            && multiset(s.handed)[t] + multiset(s.q.messages)[t] + multiset(s.q.delayed)[t]
               == (if t in s.posted then 1 else 0)
            && PostedOf(s.handed) <= PostedOf(s.posted)
  {
    InvHolds(states, steps, n);
    var s := states[n];
    NumberedOnce(s.posted, t);
    PostedOfAppend(s.handed, s.q.messages);
  }

  lemma HandedNeverEarly(states: seq<System>, steps: seq<Step>, n: nat, t: Task)
    requires IsRun(states, steps) && n < |states| && t in states[n].handed && t.Delayed?
    ensures t.runTimeMs <= states[n].now
  {
    InvHolds(states, steps, n);
    assert t in Moved(states[n]);
  }

  /** Delayed tasks leave in (run_time_ms, message_number) order if and only if none of them was
      posted after one that belongs behind it had been moved to the FIFO. */
  lemma DelayedOrderIffNoneLate(states: seq<System>, steps: seq<Step>, n: nat)
    requires IsRun(states, steps) && n < |states|
    ensures var s := states[n];
            DelayedInOrder(Moved(s)) <==> forall t :: t in Moved(s) && t.Delayed? ==> t.id !in s.late
  {
    InvHolds(states, steps, n);
    var s := states[n];
    var moved := Moved(s);
    if DelayedInOrder(moved) {
      forall t | t in moved && t.Delayed?
        ensures t.id !in s.late
      {
        var j :| 0 <= j < |moved| && moved[j] == t;
        assert !Overtaken(moved, j, moved[j]);
      }
    } else {
      var i, j :| 0 <= i < j < |moved| && moved[i].Delayed? && moved[j].Delayed? && Before(moved[j], moved[i]);
      assert Overtaken(moved, j, moved[j]);
      assert moved[j] in moved;
    }
  }

  // Each delayed message is enqueued before its run time has passed, as it is when reading the clock
  // and enqueueing happen at one instant and delays are not negative.
  ghost predicate Prompt(states: seq<System>, steps: seq<Step>) {
    forall i :: 0 <= i < |steps| < |states| && steps[i].PostDelayed? ==>
                  steps[i].p in states[i].reading && states[i].now <= states[i].reading[steps[i].p]
  }

  // Before the message counter wraps, numbers grow with every delayed post.
  ghost predicate NumbersGrow(s: System) {
    && s.q.nextNum == s.delayedPosts % NUMBERS
    && (s.delayedPosts <= NUMBERS ==>
          forall t :: t in Moved(s) || t in s.q.delayed ==> t.Delayed? ==> t.messageNumber < s.delayedPosts)
  }

  lemma NumbersGrowKept(s: System, step: Step)
    requires s.q.Valid() && NumbersGrow(s) && Enabled(s, step)
    ensures NumbersGrow(Do(s, step))
  {
    hide Sorted, Insert, Due, AfterGet;
    if step.Get? {
      NumbersGrowAfterGet(s, step.msCurrent);
    }
  }

  lemma NumbersGrowAfterGet(s: System, ms: int)
    requires s.q.Valid() && NumbersGrow(s) && ms <= s.now
    ensures NumbersGrow(Do(s, Get(ms)))
  {
    hide Sorted, Do, Due, Moved;
    MovedByGet(s, ms);
  }

  lemma NumbersGrowFromStart(s: System)
    requires Initial(s)
    ensures NumbersGrow(s)
  {
  }

  lemma PromptStepNotLate(s: System, step: Step)
    requires NeverEarly(s) && NumbersGrow(s) && Enabled(s, step) && s.late == {}
    requires step.PostDelayed? ==> s.now <= s.reading[step.p] && s.delayedPosts < NUMBERS
    ensures Do(s, step).late == {}
  {
    hide Sorted, Insert, Due, AfterGet, AfterPostDelayed, Moved;
    if step.PostDelayed? {
      var t := Delayed(|s.posted|, s.reading[step.p], s.q.nextNum);
      forall x | x in Moved(s) && x.Delayed?
        ensures !Before(t, x)
      {
      }
      assert !ComesTooLate(s, t);
    }
  }

  lemma PostsCounted(s: System, step: Step)
    requires s.q.Valid() && Enabled(s, step)
    ensures Do(s, step).delayedPosts == s.delayedPosts + if step.PostDelayed? then 1 else 0
  {
  }

  lemma {:induction false} NoneLateWhenPrompt(states: seq<System>, steps: seq<Step>, n: nat)
    requires IsRun(states, steps) && n < |states| && Prompt(states, steps)
    requires states[n].delayedPosts <= NUMBERS
    ensures NumbersGrow(states[n]) && states[n].late == {}
  {
    hide Sorted, Do, Enabled, NumbersGrow, Conserved, LateIsOvertaken;
    if n == 0 {
      NumbersGrowFromStart(states[0]);
    } else {
      PostsCounted(states[n - 1], steps[n - 1]);
      NoneLateWhenPrompt(states, steps, n - 1);
      InvHolds(states, steps, n - 1);
      NumbersGrowKept(states[n - 1], steps[n - 1]);
      PromptStepNotLate(states[n - 1], steps[n - 1]);
    }
  }

  /** With prompt posts, and until the message counter wraps, delayed tasks leave in
      (run_time_ms, message_number) order although they pass through two queues in bulk. */
  lemma PromptPostsLeaveInOrder(states: seq<System>, steps: seq<Step>, n: nat)
    requires IsRun(states, steps) && n < |states| && Prompt(states, steps)
    requires states[n].delayedPosts <= NUMBERS
    ensures DelayedInOrder(Moved(states[n]))
  {
    NoneLateWhenPrompt(states, steps, n);
    DelayedOrderIffNoneLate(states, steps, n);
  }

  function Last(states: seq<System>): System
    requires states != []
  {
    states[|states| - 1]
  }

  lemma StartRun(s: System) returns (states: seq<System>, steps: seq<Step>)
    requires Initial(s)
    ensures IsRun(states, steps) && Last(states) == s
  {
    states, steps := [s], [];
  }

  lemma ExtendRun(states: seq<System>, steps: seq<Step>, step: Step) returns (states': seq<System>, steps': seq<Step>)
    requires IsRun(states, steps) && Enabled(Last(states), step) && Last(states).q.Valid()
    ensures IsRun(states', steps')
    ensures Last(states') == Do(Last(states), step)
  {
    hide Do, Enabled, Initial, Sorted;
    states' := states + [Do(Last(states), step)];
    steps' := steps + [step];
    forall i | 0 <= i < |steps'|
      ensures states'[i].q.Valid() && Enabled(states'[i], steps'[i]) && states'[i + 1] == Do(states'[i], steps'[i])
    {
      assert states'[i] == states[i];
      if i < |steps| {
        assert states'[i + 1] == states[i + 1];
      }
    }
  }

  // Two posters have read the clock; the message that runs at 11 has been posted.
  lemma InversionPosted() returns (states: seq<System>, steps: seq<Step>)
    ensures IsRun(states, steps)
    ensures var t := Delayed(0, 11, 0);
            Last(states) == System(Queue([], [t], 1), 0, map[0 := 10], [t], 1, [], {})
  {
    hide Follows;
    states, steps := StartRun(System(Queue([], [], 0), 0, map[], [], 0, [], {}));
    states, steps := ExtendRun(states, steps, ReadsClock(0, 10));
    states, steps := ExtendRun(states, steps, ReadsClock(1, 11));
    states, steps := ExtendRun(states, steps, PostDelayed(1));
    assert Last(states).q.delayed == [Delayed(0, 11, 0)];
    assert Last(states).reading == map[0 := 10];
  }

  // It has been handed out.
  lemma InversionHanded() returns (states: seq<System>, steps: seq<Step>)
    ensures IsRun(states, steps)
    ensures var t := Delayed(0, 11, 0);
            Last(states) == System(Queue([], [], 1), 20, map[0 := 10], [t], 1, [t], {})
  {
    hide Follows;
    states, steps := InversionPosted();
    states, steps := ExtendRun(states, steps, TimePasses(20));
    states, steps := ExtendRun(states, steps, Get(20));
  }

  /** Without promptness the order can be inverted here, too: the poster of a message that runs at
      10 has read the clock, and is held up until the one that runs at 11 has been handed out. */
  lemma DelayedOrderCanBeInverted() returns (states: seq<System>, steps: seq<Step>)
    ensures IsRun(states, steps)
    ensures Last(states).q.messages == [] && !DelayedInOrder(Last(states).handed)
  {
    hide Follows;
    states, steps := InversionHanded();
    states, steps := ExtendRun(states, steps, PostDelayed(0));
    assert Last(states).q.delayed == [Delayed(1, 10, 1)];
    states, steps := ExtendRun(states, steps, Get(20));
    var handed := Last(states).handed;
    assert handed == [Delayed(0, 11, 0), Delayed(1, 10, 1)];
    assert Before(handed[1], handed[0]);
  }
}
