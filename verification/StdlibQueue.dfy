/** webrtc::TaskQueueStdlib: the two queues its posters and its worker share under a lock, and what
    the worker picks from them. StdlibProtocol has the threads around them. */
module StdlibQueue {
  import opened Options

  // ---------------------------------------------------------------------------------------
  // The queues behind pending_lock_
  // ---------------------------------------------------------------------------------------

  datatype Task = Task(id: nat)

  datatype Entry =
    | Immediate(order: nat, task: Task)
    | Delayed(order: nat, task: Task, fireAt: int)

  // DelayedEntryTimeout::operator<
  predicate Before(a: Entry, b: Entry)
    requires a.Delayed? && b.Delayed?
  {
    a.fireAt < b.fireAt || (a.fireAt == b.fireAt && a.order < b.order)
  }

  predicate AllDelayed(es: seq<Entry>) {
    forall i :: 0 <= i < |es| ==> es[i].Delayed?
  }

  ghost predicate Sorted(es: seq<Entry>)
    requires AllDelayed(es)
  {
    forall i, j :: 0 <= i < j < |es| ==> Before(es[i], es[j])
  }

  // `delayed` lists the entries of the std::map in key order.
  datatype Queues = Queues(pending: seq<Entry>, delayed: seq<Entry>, lastOrder: nat, quit: bool)
  {
    ghost predicate Valid() {
      && (forall i :: 0 <= i < |pending| ==> pending[i].Immediate?)
      && AllDelayed(delayed)
      && Sorted(delayed)
      && (forall i :: 0 <= i < |pending| ==> pending[i].order <= lastOrder)
      && (forall i :: 0 <= i < |delayed| ==> delayed[i].order <= lastOrder)
    }
  }

  datatype Next = Final | Run(entry: Entry) | Sleep(ms: Option<nat>)

  function InsertDelayed(es: seq<Entry>, e: Entry): (r: seq<Entry>)
    requires AllDelayed(es) && e.Delayed?
    ensures AllDelayed(r)
    ensures multiset(r) == multiset(es) + multiset{e}
  {
    if es == [] || Before(e, es[0]) then
      assert es == [] || es == [es[0]] + es[1..];
      [e] + es
    else
      assert es == [es[0]] + es[1..];
      [es[0]] + InsertDelayed(es[1..], e)
  }

  lemma {:induction false} InsertKeepsSorted(es: seq<Entry>, e: Entry)
    requires AllDelayed(es) && Sorted(es) && e.Delayed?
    requires forall i :: 0 <= i < |es| ==> es[i].order != e.order
    ensures Sorted(InsertDelayed(es, e))
    ensures forall x :: x in InsertDelayed(es, e) <==> x in es || x == e
  {
    if es == [] || Before(e, es[0]) {
    } else {
      InsertKeepsSorted(es[1..], e);
      var r := InsertDelayed(es[1..], e);
      forall x | x in r
        ensures Before(es[0], x)
      {
        if x != e {
          assert x in es[1..];
        }
      }
    }
  }

  function AfterPost(q: Queues, task: Task): Queues {
    q.(pending := q.pending + [Immediate(q.lastOrder + 1, task)], lastOrder := q.lastOrder + 1)
  }

  function AfterPostDelayed(q: Queues, task: Task, fireAt: int): Queues
    requires AllDelayed(q.delayed)
  {
    q.(delayed := InsertDelayed(q.delayed, Delayed(q.lastOrder + 1, task, fireAt)),
       lastOrder := q.lastOrder + 1)
  }

  // DivideRoundUp for the arguments it accepts.
  function DivideRoundUp(dividend: nat, divisor: nat): (r: nat)
    requires divisor > 0
    ensures (r - 1) * divisor < dividend <= r * divisor
  {
    dividend / divisor + if dividend % divisor > 0 then 1 else 0
  }

  function SleepFor(delayed: seq<Entry>, tick: int): Option<nat>
    requires AllDelayed(delayed)
    requires delayed != [] ==> tick < delayed[0].fireAt
  {
    if delayed == [] then None else Some(DivideRoundUp(delayed[0].fireAt - tick, 1000))
  }

  /** What the worker does next, given the time it read before taking the lock. An immediate
      task is never picked ahead of a due head of the delayed queue that was posted earlier, a
      delayed task is never picked early, and the worker sleeps only if nothing is runnable. */
  function Pick(q: Queues, tick: int): (r: (Queues, Next))
    requires AllDelayed(q.delayed)
    requires forall i :: 0 <= i < |q.pending| ==> q.pending[i].Immediate?
    ensures r.1.Final? <==> q.quit
    ensures r.1.Run? && r.1.entry.Immediate? && q.delayed != [] && q.delayed[0].fireAt <= tick
            ==> r.1.entry.order < q.delayed[0].order
    ensures r.1.Run? && r.1.entry.Delayed? ==> r.1.entry.fireAt <= tick
    ensures r.1.Sleep? ==> q.pending == [] && (q.delayed == [] || tick < q.delayed[0].fireAt)
    ensures r.1.Run? ==> multiset(q.pending) + multiset(q.delayed)
                         == multiset(r.0.pending) + multiset(r.0.delayed) + multiset{r.1.entry}
    ensures !r.1.Run? ==> r.0 == q
  {
    assert q.pending != [] ==> q.pending == [q.pending[0]] + q.pending[1..];
    assert q.delayed != [] ==> q.delayed == [q.delayed[0]] + q.delayed[1..];
    if q.quit then
      (q, Final)
    else if q.delayed != [] && tick >= q.delayed[0].fireAt then
      if q.pending != [] && q.pending[0].order < q.delayed[0].order then
        (q.(pending := q.pending[1..]), Run(q.pending[0]))
      else
        (q.(delayed := q.delayed[1..]), Run(q.delayed[0]))
    else if q.pending != [] then
      (q.(pending := q.pending[1..]), Run(q.pending[0]))
    else
      (q, Sleep(SleepFor(q.delayed, tick)))
  }

  // What the three lock sections do to the queues keeps them valid.
  lemma PostKeepsValid(q: Queues, task: Task)
    requires q.Valid()
    ensures AfterPost(q, task).Valid()
  {
  }

  lemma PostDelayedKeepsValid(q: Queues, task: Task, fireAt: int)
    requires q.Valid()
    ensures AfterPostDelayed(q, task, fireAt).Valid()
  {
    hide Sorted, InsertDelayed, Before;
    var e := Delayed(q.lastOrder + 1, task, fireAt);
    InsertKeepsSorted(q.delayed, e);
    var r := InsertDelayed(q.delayed, e);
    forall i | 0 <= i < |r|
      ensures r[i].order <= q.lastOrder + 1
    {
      assert r[i] in r;
    }
  }

  lemma PickKeepsValid(q: Queues, tick: int)
    requires q.Valid()
    ensures Pick(q, tick).0.Valid()
  {
    hide Before;
  }

  // An immediate task leaves the front of its queue, and nothing else leaves it.
  lemma PendingAfterPick(q: Queues, tick: int)
    requires q.Valid()
    ensures var (q', next) := Pick(q, tick);
            && q'.lastOrder == q.lastOrder
            && q.pending == (if next.Run? && next.entry.Immediate? then [next.entry] else []) + q'.pending
  {
    hide Sorted;
  }

  predicate DueBefore(e: Entry, tick: int, order: nat) {
    e.Delayed? && e.fireAt <= tick && e.order < order
  }

  /** An immediate task is picked although a delayed task that was posted before it is due. */
  ghost predicate OvertakesDueTask(q: Queues, tick: int)
    requires q.Valid()
  {
    var next := Pick(q, tick).1;
    next.Run? && next.entry.Immediate? && exists e :: e in q.delayed && DueBefore(e, tick, next.entry.order)
  }

  /** Fairness reaches only the head of the delayed queue: for every state of the queues a due task
      posted before is overtaken exactly if it is not the head, the head is due as well, and the
      head was posted after the immediate task. */
  lemma OvertakesDueTaskIff(q: Queues, tick: int)
    requires q.Valid()
    ensures OvertakesDueTask(q, tick) <==>
      && !q.quit && q.pending != [] && q.delayed != []
      && q.delayed[0].fireAt <= tick && q.pending[0].order < q.delayed[0].order
      && exists k :: 0 < k < |q.delayed| && DueBefore(q.delayed[k], tick, q.pending[0].order)
  {
    if OvertakesDueTask(q, tick) {
      var order := Pick(q, tick).1.entry.order;
      var e :| e in q.delayed && DueBefore(e, tick, order);
      var k :| 0 <= k < |q.delayed| && q.delayed[k] == e;
      if k > 0 {
        assert Before(q.delayed[0], q.delayed[k]);
        assert DueBefore(q.delayed[k], tick, q.pending[0].order);
      }
    }
  }

  class TaskQueueStdlib {
    var pendingQueue: seq<Entry>
    var delayedQueue: seq<Entry>
    var threadPostingOrder: nat
    var threadShouldQuit: bool

    ghost function View(): Queues
      reads this
    {
      Queues(pendingQueue, delayedQueue, threadPostingOrder, threadShouldQuit)
    }

    constructor ()
      ensures View() == Queues([], [], 0, false)
      ensures View().Valid()
    {
      pendingQueue, delayedQueue, threadPostingOrder, threadShouldQuit := [], [], 0, false;
    }

    // The lock section of Delete.
    method SetQuit()
      modifies this
      ensures View() == old(View()).(quit := true)
    {
      threadShouldQuit := true;
    }

    // The lock section of PostTask.
    method PostTask(task: Task)
      requires View().Valid()
      modifies this
      ensures View() == AfterPost(old(View()), task)
      ensures View().Valid()
    {
      hide Sorted;
      PostKeepsValid(View(), task);
      threadPostingOrder := threadPostingOrder + 1;
      pendingQueue := pendingQueue + [Immediate(threadPostingOrder, task)];
    }

    // The lock section of PostDelayedTask; the caller has read the clock before.
    method PostDelayedTask(task: Task, nextFireAtUs: int)
      requires View().Valid()
      modifies this
      ensures View() == AfterPostDelayed(old(View()), task, nextFireAtUs)
      ensures View().Valid()
    {
      hide Sorted, InsertDelayed;
      PostDelayedKeepsValid(View(), task, nextFireAtUs);
      threadPostingOrder := threadPostingOrder + 1;
      var entry := Delayed(threadPostingOrder, task, nextFireAtUs);
      delayedQueue := InsertDelayed(delayedQueue, entry);
    }

    // The lock section of GetNextTask.
    method GetNextTask(tickUs: int) returns (result: Next)
      requires View().Valid()
      modifies this
      ensures (View(), result) == Pick(old(View()), tickUs)
      ensures View().Valid()
    {
      hide Sorted;
      PickKeepsValid(View(), tickUs);
      if threadShouldQuit {
        return Final;
      }
      var sleepTime: Option<nat> := None;
      if |delayedQueue| > 0 {
        var head := delayedQueue[0];
        if tickUs >= head.fireAt {
          if |pendingQueue| > 0 {
            var entry := pendingQueue[0];
            if entry.order < head.order {
              pendingQueue := pendingQueue[1..];
              return Run(entry);
            }
          }
          delayedQueue := delayedQueue[1..];
          return Run(head);
        }
        sleepTime := Some(DivideRoundUp(head.fireAt - tickUs, 1000));
      }
      if |pendingQueue| > 0 {
        var entry := pendingQueue[0];
        pendingQueue := pendingQueue[1..];
        return Run(entry);
      }
      return Sleep(sleepTime);
    }
  }
}
