/** webrtc::TaskQueueLibevent: posters push under a lock and wake the worker through a pipe.
    Only the poster that finds the list empty writes a byte; the worker reads one byte, then
    swaps the whole list out and runs it. Every interleaving of these actions is a run. */
module LibeventQueue {
  import opened Multisets

  // ---------------------------------------------------------------------------------------
  // The queue object
  // ---------------------------------------------------------------------------------------

  /** What a posted closure does: run a task, or arm the timer of a task that was posted from
      another thread with a delay. */
  datatype Task = Plain(id: nat) | ArmTimer(id: nat, postedUs: int, delayUs: int)

  datatype Byte = Quit | RunTasks

  // A pending timer, told apart from all others by its address; `notBefore` is when the caller
  // of PostDelayedTask wanted it to fire.
  datatype Timer = Timer(address: nat, id: nat, notBefore: int, due: int)

  datatype Queue = Queue(pending: seq<Task>, pipe: seq<Byte>, isActive: bool, timers: seq<Timer>)

  // The delay left when the closure posted at postedUs runs at nowUs.
  function RemainingDelay(postedUs: int, delayUs: int, nowUs: int): int {
    var left := delayUs - (nowUs - postedUs);
    if left < 0 then 0 else left
  }

  // std::list::remove
  function Without(timers: seq<Timer>, t: Timer): seq<Timer> {
    if timers == [] then []
    else Without(timers[..|timers| - 1], t) + if timers[|timers| - 1] == t then [] else [timers[|timers| - 1]]
  }

  // What each action on the queue object leaves behind; the class and the protocol share these.

  function Pushed(q: Queue, task: Task): Queue {
    q.(pending := q.pending + [task])
  }

  function Written(q: Queue, message: Byte): Queue {
    q.(pipe := q.pipe + [message])
  }

  function OneByteRead(q: Queue): Queue
    requires q.pipe != []
  {
    q.(pipe := q.pipe[1..], isActive := q.isActive && q.pipe[0].RunTasks?)
  }

  function Swapped(q: Queue): Queue {
    q.(pending := [])
  }

  function TimerAdded(q: Queue, t: Timer): Queue {
    q.(timers := q.timers + [t])
  }

  function TimerRemoved(q: Queue, t: Timer): Queue {
    q.(timers := Without(q.timers, t))
  }

  class TaskQueueLibevent {
    var pending: seq<Task>
    var pipe: seq<Byte>
    var isActive: bool
    var pendingTimers: seq<Timer>

    ghost function View(): Queue
      reads this
    {
      Queue(pending, pipe, isActive, pendingTimers)
    }

    constructor ()
      ensures View() == Queue([], [], true, [])
    {
      pending, pipe, isActive, pendingTimers := [], [], true, [];
    }

    // The lock section of PostTask; the caller writes to the pipe if it must.
    method PostTask(task: Task) returns (mustWrite: bool)
      modifies this
      ensures mustWrite <==> old(pending) == []
      ensures View() == Pushed(old(View()), task)
    {
      var hadPendingTasks := |pending| != 0;
      pending := pending + [task];
      mustWrite := !hadPendingTasks;
    }

    method Write(message: Byte)
      modifies this
      ensures View() == Written(old(View()), message)
    {
      pipe := pipe + [message];
    }

    // The first half of OnWakeup, up to the swap.
    method ReadByte() returns (message: Byte)
      requires pipe != []
      modifies this
      ensures message == old(pipe)[0]
      ensures View() == OneByteRead(old(View()))
    {
      message := pipe[0];
      pipe := pipe[1..];
      match message {
        case Quit => isActive := false;
        case RunTasks =>
      }
    }

    method SwapPending() returns (tasks: seq<Task>)
      modifies this
      ensures tasks == old(pending)
      ensures View() == Swapped(old(View()))
    {
      tasks := [];
      tasks, pending := pending, tasks;
    }

    /** From the queue itself a delayed task gets its timer at once; from another thread the arming
        is posted, with the time of the post. */
    method PostDelayedTask(isCurrent: bool, timer: nat, id: nat, delayUs: int, nowUs: int) returns (mustWrite: bool)
      modifies this
      ensures mustWrite <==> !isCurrent && old(pending) == []
      ensures View() == if isCurrent then TimerAdded(old(View()), Timer(timer, id, nowUs + delayUs, nowUs + delayUs))
                        else Pushed(old(View()), ArmTimer(id, nowUs, delayUs))
    {
      if isCurrent {
        PostDelayedTaskOnTaskQueue(timer, id, nowUs + delayUs, delayUs, nowUs);
        return false;
      }
      mustWrite := PostTask(ArmTimer(id, nowUs, delayUs));
    }

    /** The timer at address `timer` is due when the delay has passed from now on. */
    method PostDelayedTaskOnTaskQueue(timer: nat, id: nat, notBefore: int, delayUs: int, nowUs: int)
      modifies this
      ensures |pendingTimers| == |old(pendingTimers)| + 1
      ensures View() == TimerAdded(old(View()), Timer(timer, id, notBefore, nowUs + delayUs))
    {
      var sec, usec := delayUs / 1_000_000, delayUs % 1_000_000;
      var due := nowUs + sec * 1_000_000 + usec;
      pendingTimers := pendingTimers + [Timer(timer, id, notBefore, due)];
    }

    // The end of RunTimer: the timer that has run leaves the list.
    method RemoveTimer(timer: Timer)
      modifies this`pendingTimers
      ensures View() == TimerRemoved(old(View()), timer)
    {
      var kept: seq<Timer> := [];
      var i := 0;
      while i < |pendingTimers|
        invariant 0 <= i <= |pendingTimers|
        invariant kept == Without(pendingTimers[..i], timer)
        modifies {}
      {
        assert pendingTimers[..i + 1][..i] == pendingTimers[..i];
        if pendingTimers[i] != timer {
          kept := kept + [pendingTimers[i]];
        }
        i := i + 1;
      }
      assert pendingTimers[..i] == pendingTimers;
      pendingTimers := kept;
    }
  }

  // ---------------------------------------------------------------------------------------
  // The protocol
  // ---------------------------------------------------------------------------------------

  // A task that posts to its own queue acts as one of these too.
  datatype Poster = Ready | MustWrite

  datatype Deleter = NotCalled | Retrying | Joining

  datatype Worker =
    | InEventLoop
    | HasReadRunByte               // between the read and the swap
    | RunningBatch(rest: seq<Task>)
    | RunningTimer(timer: Timer)   // in RunTimer, before the timer leaves the list
    | Exited

  // `posted`, `done`, `armed` and `fired` are history.
  datatype System = System(
    q: Queue,
    capacity: nat,   // of the pipe
    now: int,
    posters: map<nat, Poster>,
    deleter: Deleter,
    worker: Worker,
    posted: seq<Task>,
    done: seq<Task>,
    armed: seq<Timer>,
    fired: seq<Timer>,
    firedAt: seq<int>)

  datatype Step =
    | TimePasses(us: nat)
    | PostLocked(p: nat, task: Task)
    | WritesRunByte(p: nat)
    | DeleteCalled
    | WritesQuitByte
    | QuitWriteFails
    | ReadsByte
    | SwapsPending
    | RunsTask
    | ArmsFromTask(id: nat, delayUs: int)   // PostDelayedTask called by a running task
    | FiresTimer(k: nat)
    | RemovesTimer
    | LeavesLoop

  predicate At(s: System, p: nat, pc: Poster) {
    p in s.posters && s.posters[p] == pc
  }

  predicate Enabled(s: System, step: Step) {
    match step
    case TimePasses(_) => true
    case PostLocked(p, task) =>
      At(s, p, Ready) && (task.ArmTimer? ==> task.postedUs <= s.now)
    case WritesRunByte(p) => At(s, p, MustWrite)
    case DeleteCalled => s.deleter.NotCalled?
    case WritesQuitByte => s.deleter.Retrying? && |s.q.pipe| < s.capacity
    case QuitWriteFails => s.deleter.Retrying? && |s.q.pipe| >= s.capacity
    case ReadsByte => s.worker.InEventLoop? && s.q.isActive && s.q.pipe != []
    case SwapsPending => s.worker.HasReadRunByte?
    case RunsTask => s.worker.RunningBatch? && s.worker.rest != []
    case ArmsFromTask(_, _) => s.worker.RunningBatch? || s.worker.RunningTimer?
    case FiresTimer(k) =>
      s.worker.InEventLoop? && s.q.isActive && k < |s.q.timers| && s.q.timers[k].due <= s.now
    case RemovesTimer => s.worker.RunningTimer?
    case LeavesLoop =>
      (s.worker.InEventLoop? && !s.q.isActive) || (s.worker.RunningBatch? && s.worker.rest == [])
  }

  // The address of the next timer: no other timer has it.
  function Fresh(s: System): nat {
    |s.armed|
  }

  function Arm(s: System, t: Timer): System {
    s.(q := TimerAdded(s.q, t), armed := s.armed + [t])
  }

  function Do(s: System, step: Step): System
    requires Enabled(s, step)
  {
    match step
    case TimePasses(us) => s.(now := s.now + us)
    case PostLocked(p, task) =>
      s.(q := Pushed(s.q, task),
         posted := s.posted + [task],
         posters := if s.q.pending == [] then s.posters[p := MustWrite] else s.posters)
    case WritesRunByte(p) => s.(q := Written(s.q, RunTasks), posters := s.posters[p := Ready])
    case DeleteCalled => s.(deleter := Retrying)
    case WritesQuitByte => s.(q := Written(s.q, Quit), deleter := Joining)
    case QuitWriteFails => s
    case ReadsByte =>
      var message := s.q.pipe[0];
      s.(q := OneByteRead(s.q),
         worker := if message.RunTasks? then HasReadRunByte else InEventLoop)
    case SwapsPending => s.(q := Swapped(s.q), worker := RunningBatch(s.q.pending))
    case RunsTask =>
      var task := s.worker.rest[0];
      var s1 := s.(worker := RunningBatch(s.worker.rest[1..]), done := s.done + [task]);
      (match task
       case Plain(_) => s1
       case ArmTimer(id, posted, delay) =>
         Arm(s1, Timer(Fresh(s), id, posted + delay, s.now + RemainingDelay(posted, delay, s.now))))
    case ArmsFromTask(id, delay) => Arm(s, Timer(Fresh(s), id, s.now + delay, s.now + delay))
    case FiresTimer(k) =>
      s.(worker := RunningTimer(s.q.timers[k]),
         fired := s.fired + [s.q.timers[k]],
         firedAt := s.firedAt + [s.now])
    case RemovesTimer => s.(q := TimerRemoved(s.q, s.worker.timer), worker := InEventLoop)
    case LeavesLoop => s.(worker := if s.q.isActive then InEventLoop else Exited)
  }

  ghost predicate Initial(s: System) {
    && s.q == Queue([], [], true, [])
    && (forall p :: p in s.posters ==> s.posters[p] == Ready)
    && s.deleter == NotCalled && s.worker == InEventLoop
    && s.posted == [] && s.done == [] && s.armed == [] && s.fired == [] && s.firedAt == []
  }

  ghost predicate IsRun(states: seq<System>, steps: seq<Step>) {
    && |states| == |steps| + 1
    && Initial(states[0])
    && forall i :: 0 <= i < |steps| ==> Enabled(states[i], steps[i]) && states[i + 1] == Do(states[i], steps[i])
  }

  // ---------------------------------------------------------------------------------------
  // The wake byte
  // ---------------------------------------------------------------------------------------

  function Count(pipe: seq<Byte>, b: Byte): (n: nat)
    ensures n <= |pipe|
  {
    multiset(pipe)[b]
  }

  lemma CountAppend(pipe: seq<Byte>, b: Byte, c: Byte)
    ensures Count(pipe + [b], c) == Count(pipe, c) + if b == c then 1 else 0
  {
  }

  lemma CountTail(pipe: seq<Byte>, c: Byte)
    requires pipe != []
    ensures Count(pipe, c) == Count(pipe[1..], c) + if pipe[0] == c then 1 else 0
  {
    assert pipe == [pipe[0]] + pipe[1..];
  }

  lemma CountBoth(pipe: seq<Byte>)
    ensures Count(pipe, Quit) + Count(pipe, RunTasks) == |pipe|
  {
    if pipe != [] {
      CountTail(pipe, Quit);
      CountTail(pipe, RunTasks);
      CountBoth(pipe[1..]);
    }
  }

  ghost function Writers(s: System): set<nat> {
    set p | p in s.posters && s.posters[p] == MustWrite
  }

  /** Bytes in the pipe, posters about to write one, and a byte read but not yet acted on: one
      in all when a task is pending, and none otherwise. */
  ghost predicate OneWakeByte(s: System) {
    Count(s.q.pipe, RunTasks) + |Writers(s)| + (if s.worker.HasReadRunByte? then 1 else 0)
    == if s.q.pending != [] then 1 else 0
  }

  // At most one quit byte is ever written, and only by Delete.
  ghost predicate OneQuitByte(s: System) {
    && Count(s.q.pipe, Quit) <= 1
    && (!s.deleter.Joining? ==> Count(s.q.pipe, Quit) == 0 && s.q.isActive)
    && (!s.q.isActive ==> Count(s.q.pipe, Quit) == 0)
  }

  lemma WritersAfterPost(s: System, p: nat, task: Task)
    requires Enabled(s, PostLocked(p, task))
    ensures Writers(Do(s, PostLocked(p, task))) == if s.q.pending == [] then Writers(s) + {p} else Writers(s)
    ensures p !in Writers(s)
  {
  }

  lemma WritersAfterWrite(s: System, p: nat)
    requires Enabled(s, WritesRunByte(p))
    ensures Writers(Do(s, WritesRunByte(p))) == Writers(s) - {p}
    ensures p in Writers(s)
  {
  }

  lemma WritersOtherwise(s: System, step: Step)
    requires Enabled(s, step) && !step.PostLocked? && !step.WritesRunByte?
    ensures Writers(Do(s, step)) == Writers(s)
  {
    assert Do(s, step).posters == s.posters;
  }

  // A step that leaves everything the wake byte depends on.
  lemma WakeByteUntouched(s: System, s': System)
    requires OneWakeByte(s) && s'.q.pipe == s.q.pipe && s'.posters == s.posters && s'.q.pending == s.q.pending
    requires s'.worker.HasReadRunByte? <==> s.worker.HasReadRunByte?
    ensures OneWakeByte(s')
  {
    assert Writers(s') == Writers(s);
  }

  lemma WakeByteAfterPost(s: System, p: nat, task: Task)
    requires OneWakeByte(s) && Enabled(s, PostLocked(p, task))
    ensures OneWakeByte(Do(s, PostLocked(p, task)))
  {
    hide Writers;
    WritersAfterPost(s, p, task);
  }

  lemma WakeByteAfterWrite(s: System, p: nat)
    requires OneWakeByte(s) && Enabled(s, WritesRunByte(p))
    ensures OneWakeByte(Do(s, WritesRunByte(p)))
  {
    hide Writers;
    WritersAfterWrite(s, p);
    CountAppend(s.q.pipe, RunTasks, RunTasks);
  }

  lemma WakeByteAfterPipeOrSwap(s: System, step: Step)
    requires OneWakeByte(s) && Enabled(s, step) && (step.WritesQuitByte? || step.ReadsByte? || step.SwapsPending?)
    ensures OneWakeByte(Do(s, step))
  {
    hide Writers;
    WritersOtherwise(s, step);
    match step
    case WritesQuitByte => CountAppend(s.q.pipe, Quit, RunTasks);
    case ReadsByte => CountTail(s.q.pipe, RunTasks);
    case SwapsPending =>
  }

  lemma OneWakeByteKept(s: System, step: Step)
    requires OneWakeByte(s) && Enabled(s, step)
    ensures OneWakeByte(Do(s, step))
  {
    hide OneWakeByte, Writers, Count;
    match step
    case PostLocked(p, task) => WakeByteAfterPost(s, p, task);
    case WritesRunByte(p) => WakeByteAfterWrite(s, p);
    case WritesQuitByte => WakeByteAfterPipeOrSwap(s, step);
    case ReadsByte => WakeByteAfterPipeOrSwap(s, step);
    case SwapsPending => WakeByteAfterPipeOrSwap(s, step);
    case _ => WakeByteUntouched(s, Do(s, step));
  }

  lemma OneQuitByteKept(s: System, step: Step)
    requires OneQuitByte(s) && Enabled(s, step)
    ensures OneQuitByte(Do(s, step))
  {
    match step
    case WritesRunByte(p) => CountAppend(s.q.pipe, RunTasks, Quit);
    case WritesQuitByte => CountAppend(s.q.pipe, Quit, Quit);
    case ReadsByte => CountTail(s.q.pipe, Quit);
    case _ =>
  }

  // ---------------------------------------------------------------------------------------
  // Order and conservation
  // ---------------------------------------------------------------------------------------

  function InBatch(s: System): seq<Task> {
    if s.worker.RunningBatch? then s.worker.rest else []
  }

  /** Tasks run in the order of their pushes, across batches: what has run, what is left of the
      batch, and what is pending are the posted tasks, in order. */
  ghost predicate InPushOrder(s: System) {
    s.done + InBatch(s) + s.q.pending == s.posted
  }

  lemma PushOrderUntouched(s: System, s': System)
    requires InPushOrder(s) && s'.done == s.done && InBatch(s') == InBatch(s)
    requires s'.q.pending == s.q.pending && s'.posted == s.posted
    ensures InPushOrder(s')
  {
  }

  lemma PushOrderAfterTask(s: System)
    requires InPushOrder(s) && Enabled(s, RunsTask)
    ensures InPushOrder(Do(s, RunsTask))
  {
    var s' := Do(s, RunsTask);
    assert InBatch(s) == [s.worker.rest[0]] + InBatch(s');
    assert s'.done == s.done + [s.worker.rest[0]];
    hide Do, InBatch;
    assert s.done + ([s.worker.rest[0]] + InBatch(s')) + s.q.pending
        == (s.done + [s.worker.rest[0]]) + InBatch(s') + s.q.pending;
  }

  lemma InPushOrderKept(s: System, step: Step)
    requires InPushOrder(s) && OneWakeByte(s) && Enabled(s, step)
    ensures InPushOrder(Do(s, step))
  {
    hide OneWakeByte, InPushOrder;
    match step
    case PostLocked(p, task) => PushOrderAfterPost(s, p, task);
    case SwapsPending => PushOrderAfterSwap(s);
    case RunsTask => PushOrderAfterTask(s);
    case _ => PushOrderUntouched(s, Do(s, step));
  }

  lemma PushOrderAfterPost(s: System, p: nat, task: Task)
    requires InPushOrder(s) && Enabled(s, PostLocked(p, task))
    ensures InPushOrder(Do(s, PostLocked(p, task)))
  {
    assert s.done + InBatch(s) + (s.q.pending + [task]) == (s.done + InBatch(s) + s.q.pending) + [task];
  }

  lemma PushOrderAfterSwap(s: System)
    requires InPushOrder(s) && Enabled(s, SwapsPending)
    ensures InPushOrder(Do(s, SwapsPending))
  {
    assert s.done + [] + s.q.pending == s.done + s.q.pending + [];
  }

  // ---------------------------------------------------------------------------------------
  // Timers
  // ---------------------------------------------------------------------------------------

  ghost predicate Distinct(ts: seq<Timer>) {
    forall i, j :: 0 <= i < j < |ts| ==> ts[i].address != ts[j].address
  }

  // The timer whose task is running: it has fired and is still on the list.
  function InFlight(s: System): seq<Timer> {
    if s.worker.RunningTimer? then [s.worker.timer] else []
  }

  /** Every armed timer is pending or has fired, exactly once, and never before its time. */
  ghost predicate TimersOk(s: System) {
    && multiset(s.armed) + multiset(InFlight(s)) == multiset(s.q.timers) + multiset(s.fired)
    && (forall t :: t in InFlight(s) ==> t in s.q.timers && t in s.fired)
    && Distinct(s.q.timers)
    && (forall t :: t in s.q.timers ==> t.notBefore <= t.due && t.address < |s.armed|)
    && |s.fired| == |s.firedAt|
    && (forall i :: 0 <= i < |s.fired| ==> s.fired[i].notBefore <= s.firedAt[i])
  }

  lemma {:induction false} WithoutElements(ts: seq<Timer>, t: Timer)
    ensures forall x :: x in Without(ts, t) <==> x in ts && x != t
  {
    if ts != [] {
      WithoutElements(ts[..|ts| - 1], t);
      assert ts == ts[..|ts| - 1] + [ts[|ts| - 1]];
    }
  }

  lemma {:induction false} WithoutDistinct(ts: seq<Timer>, t: Timer)
    requires Distinct(ts)
    ensures Distinct(Without(ts, t))
  {
    if ts != [] {
      var n := |ts| - 1;
      WithoutDistinct(ts[..n], t);
      WithoutElements(ts[..n], t);
      var w := Without(ts[..n], t);
      forall i | 0 <= i < |w|
        ensures w[i].address != ts[n].address
      {
        assert w[i] in ts[..n];
      }
    }
  }

  lemma DistinctInit(ts: seq<Timer>)
    requires Distinct(ts) && ts != []
    ensures var init, last := ts[..|ts| - 1], ts[|ts| - 1];
            Distinct(init) && last !in init && multiset(ts) == multiset(init) + multiset{last}
  {
    assert ts == ts[..|ts| - 1] + [ts[|ts| - 1]];
  }

  // What removing leaves: everything but the timer, which no other entry of the list is.
  lemma {:induction false} WithoutIs(ts: seq<Timer>, t: Timer)
    requires Distinct(ts)
    ensures multiset(ts) == multiset(Without(ts, t)) + if t in ts then multiset{t} else multiset{}
  {
    hide Distinct;
    if ts != [] {
      var n := |ts| - 1;
      DistinctInit(ts);
      WithoutIs(ts[..n], t);
      WithoutElements(ts[..n], t);
    }
  }

  lemma TimersAfterFiring(s: System, k: nat)
    requires TimersOk(s) && Enabled(s, FiresTimer(k))
    ensures TimersOk(Do(s, FiresTimer(k)))
  {
    var s', t := Do(s, FiresTimer(k)), s.q.timers[k];
    assert t in s.q.timers;
    assert multiset(s'.fired) == multiset(s.fired) + multiset{t};
    assert InFlight(s) == [] && multiset(InFlight(s')) == multiset{t};
    assert multiset(s.armed) + multiset(InFlight(s)) == multiset(s.armed);
  }

  lemma TimersAfterRemoval(s: System)
    requires TimersOk(s) && Enabled(s, RemovesTimer)
    ensures TimersOk(Do(s, RemovesTimer))
  {
    var t := s.worker.timer;
    WithoutIs(s.q.timers, t);
    WithoutElements(s.q.timers, t);
    WithoutDistinct(s.q.timers, t);
    assert t in InFlight(s);
    assert multiset(InFlight(s)) == multiset{t};
    CancelOne(multiset(s.armed), multiset(Without(s.q.timers, t)) + multiset(s.fired), t);
  }

  lemma OneOnBothSides(a: multiset<Timer>, b: multiset<Timer>, c: multiset<Timer>, d: multiset<Timer>,
                       one: multiset<Timer>)
    requires a + b == c + d
    ensures (a + one) + b == (c + one) + d
  {
    assert (a + one) + b == (a + b) + one;
    assert (c + one) + d == (c + d) + one;
  }

  lemma TimersAfterArming(s: System, t: Timer)
    requires TimersOk(s) && t.notBefore <= t.due && t.address == Fresh(s)
    ensures TimersOk(Arm(s, t))
  {
    assert forall i :: 0 <= i < |s.q.timers| ==> s.q.timers[i] in s.q.timers;
    assert multiset(s.armed + [t]) == multiset(s.armed) + multiset{t};
    assert multiset(s.q.timers + [t]) == multiset(s.q.timers) + multiset{t};
    assert InFlight(Arm(s, t)) == InFlight(s);
    OneOnBothSides(multiset(s.armed), multiset(InFlight(s)), multiset(s.q.timers), multiset(s.fired), multiset{t});
  }

  // The steps that leave the timers alone.
  lemma TimersUntouched(s: System, s': System)
    requires TimersOk(s) && s'.armed == s.armed && s'.q.timers == s.q.timers
    requires s'.fired == s.fired && s'.firedAt == s.firedAt && InFlight(s') == InFlight(s)
    ensures TimersOk(s')
  {
  }

  lemma TimersKept(s: System, step: Step)
    requires TimersOk(s) && Enabled(s, step)
    ensures TimersOk(Do(s, step))
  {
    hide TimersOk;
    match step
    case FiresTimer(k) => TimersAfterFiring(s, k);
    case RemovesTimer => TimersAfterRemoval(s);
    case ArmsFromTask(id, delay) => TimersAfterArming(s, Timer(Fresh(s), id, s.now + delay, s.now + delay));
    case RunsTask => TimersAfterTask(s);
    case _ => TimersUntouched(s, Do(s, step));
  }

  lemma TimersAfterTask(s: System)
    requires TimersOk(s) && Enabled(s, RunsTask)
    ensures TimersOk(Do(s, RunsTask))
  {
    hide TimersOk;
    var task := s.worker.rest[0];
    var s1 := s.(worker := RunningBatch(s.worker.rest[1..]), done := s.done + [task]);
    TimersUntouched(s, s1);
    if task.ArmTimer? {
      TimersAfterArming(s1, Timer(Fresh(s1), task.id, task.postedUs + task.delayUs,
                                  s.now + RemainingDelay(task.postedUs, task.delayUs, s.now)));
    }
  }

  // ---------------------------------------------------------------------------------------
  // Whole runs
  // ---------------------------------------------------------------------------------------

  ghost predicate Inv(s: System) {
    OneWakeByte(s) && OneQuitByte(s) && InPushOrder(s) && TimersOk(s)
  }

  lemma {:induction false} InvHolds(states: seq<System>, steps: seq<Step>, n: nat)
    requires IsRun(states, steps) && n < |states|
    ensures Inv(states[n])
  {
    if n == 0 {
      assert Writers(states[0]) == {};
    } else {
      InvHolds(states, steps, n - 1);
      var s, step := states[n - 1], steps[n - 1];
      OneWakeByteKept(s, step);
      OneQuitByteKept(s, step);
      InPushOrderKept(s, step);
      TimersKept(s, step);
    }
  }

  /** A pipe that holds two bytes never refuses a poster: whenever one is about to write, there
      is room. */
  lemma PosterAlwaysHasRoom(states: seq<System>, steps: seq<Step>, n: nat, p: nat)
    requires IsRun(states, steps) && n < |states|
    requires At(states[n], p, MustWrite) && states[n].capacity >= 2
    ensures |states[n].q.pipe| < states[n].capacity
  {
    InvHolds(states, steps, n);
    assert p in Writers(states[n]);
    CountBoth(states[n].q.pipe);
  }

  /** The worker never swaps out an empty list. */
  lemma BatchNeverEmpty(states: seq<System>, steps: seq<Step>, n: nat)
    requires IsRun(states, steps) && n < |states| && states[n].worker.HasReadRunByte?
    ensures states[n].q.pending != []
  {
    InvHolds(states, steps, n);
  }

  /** No lost wake-up: while tasks are pending, a byte is in the pipe, or one poster is about to
      write it, or the worker has read it and is about to swap; never two of these. */
  lemma PendingMeansOneWakeUp(states: seq<System>, steps: seq<Step>, n: nat)
    requires IsRun(states, steps) && n < |states|
    ensures var s := states[n];
            var inPipe := RunTasks in s.q.pipe;
            var coming := exists p :: At(s, p, MustWrite);
            var taken := s.worker.HasReadRunByte?;
            && (s.q.pending != [] <==> inPipe || coming || taken)
            && !(inPipe && coming) && !(inPipe && taken) && !(coming && taken)
            && Count(s.q.pipe, RunTasks) <= 1
            && (forall p, p' :: At(s, p, MustWrite) && At(s, p', MustWrite) ==> p == p')
  {
    InvHolds(states, steps, n);
    var s := states[n];
    if Writers(s) != {} {
      var p :| p in Writers(s);
      assert At(s, p, MustWrite);
      assert |Writers(s)| == |Writers(s) - {p}| + 1;
    }
    assert forall p :: At(s, p, MustWrite) ==> p in Writers(s);
    assert Count(s.q.pipe, RunTasks) > 0 <==> RunTasks in s.q.pipe;
  }

  /** What has run is a prefix of what was posted. */
  lemma RunsInPostOrder(states: seq<System>, steps: seq<Step>, n: nat)
    requires IsRun(states, steps) && n < |states|
    ensures states[n].done <= states[n].posted
    ensures states[n].posted == states[n].done + InBatch(states[n]) + states[n].q.pending
  {
    InvHolds(states, steps, n);
  }

  /** A delayed task, posted from any thread or from a task or timer of the queue, fires no
      earlier than its delay after the post; and every timer armed has fired at most once, and is
      on the list freed at the end if and only if it has not both fired and run. */
  lemma TimersFireOnceNeverEarly(states: seq<System>, steps: seq<Step>, n: nat, t: Timer)
    requires IsRun(states, steps) && n < |states|
    ensures var s := states[n];
            && multiset(s.fired)[t] <= multiset(s.armed)[t] <= 1
            && (t in s.q.timers <==> t in s.armed && (t in s.fired ==> t in InFlight(s)))
            && |s.fired| == |s.firedAt|
            && forall i :: 0 <= i < |s.fired| ==> s.fired[i].notBefore <= s.firedAt[i]
  {
    InvHolds(states, steps, n);
    var s := states[n];
    ArmedOnce(states, steps, n, t);
    PlacesOf(s, t);
  }

  lemma ArmedGrows(s: System, step: Step)
    requires Enabled(s, step)
    ensures var armed := Do(s, step).armed;
            || armed == s.armed
            || (|armed| == |s.armed| + 1 && armed == s.armed + [armed[|s.armed|]]
                && armed[|s.armed|].address == |s.armed|)
  {
    hide RemainingDelay, Without;
  }

  // The timers are numbered in the order they were armed.
  lemma {:induction false} ArmedOnce(states: seq<System>, steps: seq<Step>, n: nat, t: Timer)
    requires IsRun(states, steps) && n < |states|
    ensures forall i :: 0 <= i < |states[n].armed| ==> states[n].armed[i].address == i
    ensures multiset(states[n].armed)[t] <= 1
  {
    hide Do, Enabled;
    if n > 0 {
      ArmedOnce(states, steps, n - 1, t);
      ArmedGrows(states[n - 1], steps[n - 1]);
      var before, armed := states[n - 1].armed, states[n].armed;
      if armed != before {
        AppendedOnce(before, armed[|before|], t);
      }
    }
  }

  lemma AppendedOnce(before: seq<Timer>, last: Timer, t: Timer)
    requires forall i :: 0 <= i < |before| ==> before[i].address == i
    requires last.address == |before| && multiset(before)[t] <= 1
    ensures multiset(before + [last])[t] <= 1
  {
    assert t == last ==> t !in before;
  }

  lemma PlacesOf(s: System, t: Timer)
    requires TimersOk(s) && multiset(s.armed)[t] <= 1
    ensures multiset(s.fired)[t] <= multiset(s.armed)[t]
    ensures t in s.q.timers <==> t in s.armed && (t in s.fired ==> t in InFlight(s))
  {
    var a, p, f, r := multiset(s.armed), multiset(s.q.timers), multiset(s.fired), multiset(InFlight(s));
    assert (a + r)[t] == (p + f)[t];
    AtMostOnce(s.q.timers, t);
    assert t in InFlight(s) <==> r[t] == 1;
  }

  lemma {:induction false} AtMostOnce(ts: seq<Timer>, t: Timer)
    requires Distinct(ts)
    ensures multiset(ts)[t] <= 1
  {
    WithoutIs(ts, t);
    WithoutElements(ts, t);
  }
}
