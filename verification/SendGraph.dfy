/** The deadlock detector of rtc::ThreadManager: a who-blocks-on-whom graph in which a new
    edge is accepted only if a worklist search finds no way back. The search keeps no visited
    set, so it ends only because the graph is acyclic, and the graph stays acyclic only
    because of the search. */
module SendGraph {

  datatype Thread = Thread(id: nat)

  type Edge = (Thread, Thread)

  // send_graph_: for each thread the set of threads it has sent to.
  type Graph = map<Thread, set<Thread>>

  ghost function Edges(g: Graph): set<Edge> {
    set v, w | v in g && w in g[v] :: (v, w)
  }

  ghost predicate IsPath(es: set<Edge>, p: seq<Thread>) {
    && |p| > 0
    && forall i :: 0 <= i < |p| - 1 ==> (p[i], p[i + 1]) in es
  }

  /** A path of zero or more edges leads from a to b. */
  ghost predicate Reaches(es: set<Edge>, a: Thread, b: Thread) {
    exists p :: IsPath(es, p) && p[0] == a && p[|p| - 1] == b
  }

  ghost predicate Acyclic(es: set<Edge>) {
    forall p :: IsPath(es, p) && |p| > 1 ==> p[0] != p[|p| - 1]
  }

  // ---------------------------------------------------------------------------------------
  // Paths
  // ---------------------------------------------------------------------------------------

  lemma JoinPaths(es: set<Edge>, p: seq<Thread>, q: seq<Thread>)
    requires IsPath(es, p) && IsPath(es, q) && p[|p| - 1] == q[0]
    ensures IsPath(es, p + q[1..])
    ensures (p + q[1..])[|p + q[1..]| - 1] == q[|q| - 1]
  {
    var r := p + q[1..];
    forall i | 0 <= i < |r| - 1
      ensures (r[i], r[i + 1]) in es
    {
      if i < |p| - 1 {
      } else if i == |p| - 1 {
        assert (q[0], q[1]) in es;
      } else {
        var j := i - |p| + 1;
        assert r[i] == q[j] && r[i + 1] == q[j + 1];
      }
    }
  }

  lemma ReachesTrans(es: set<Edge>, a: Thread, b: Thread, c: Thread)
    requires Reaches(es, a, b) && Reaches(es, b, c)
    ensures Reaches(es, a, c)
  {
    var p :| IsPath(es, p) && p[0] == a && p[|p| - 1] == b;
    var q :| IsPath(es, q) && q[0] == b && q[|q| - 1] == c;
    JoinPaths(es, p, q);
    assert (p + q[1..])[0] == a;
  }

  lemma EdgeReaches(es: set<Edge>, v: Thread, w: Thread)
    requires (v, w) in es
    ensures Reaches(es, v, w)
  {
    assert IsPath(es, [v, w]);
  }

  lemma SelfReaches(es: set<Edge>, v: Thread)
    ensures Reaches(es, v, v)
  {
    assert IsPath(es, [v]);
  }

  // A set closed under edges that holds the first thread of a path holds the last one.
  lemma {:induction false} ClosedHoldsPath(es: set<Edge>, closed: set<Thread>, p: seq<Thread>)
    requires IsPath(es, p) && p[0] in closed
    requires forall v, w :: v in closed && (v, w) in es ==> w in closed
    ensures p[|p| - 1] in closed
  {
    if |p| > 1 {
      assert (p[0], p[1]) in es;
      assert IsPath(es, p[1..]) by {
        forall i | 0 <= i < |p[1..]| - 1
          ensures (p[1..][i], p[1..][i + 1]) in es
        {
          assert (p[i + 1], p[i + 2]) in es;
        }
      }
      ClosedHoldsPath(es, closed, p[1..]);
    }
  }

  // ---------------------------------------------------------------------------------------
  // What one more edge does to the paths
  // ---------------------------------------------------------------------------------------

  // A path over es plus the edge s -> t stays in es, or gets from its start to s within es.
  lemma {:induction false} FirstUseOfEdge(es: set<Edge>, s: Thread, t: Thread, p: seq<Thread>)
    requires IsPath(es + {(s, t)}, p)
    ensures IsPath(es, p) || Reaches(es, p[0], s)
  {
    if |p| > 1 {
      var rest := p[1..];
      assert IsPath(es + {(s, t)}, rest) by {
        forall i | 0 <= i < |rest| - 1
          ensures (rest[i], rest[i + 1]) in es + {(s, t)}
        {
          assert (p[i + 1], p[i + 2]) in es + {(s, t)};
        }
      }
      FirstUseOfEdge(es, s, t, rest);
      assert (p[0], p[1]) in es + {(s, t)};
      if (p[0], p[1]) !in es {
        SelfReaches(es, s);
      } else if IsPath(es, rest) {
        forall i | 0 <= i < |p| - 1
          ensures (p[i], p[i + 1]) in es
        {
          if i > 0 {
            assert (rest[i - 1], rest[i]) in es;
          }
        }
      } else {
        EdgeReaches(es, p[0], p[1]);
        ReachesTrans(es, p[0], p[1], s);
      }
    }
  }

  // A path over es plus the edge s -> t stays in es, or its end is reached from t within es.
  lemma {:induction false} LastUseOfEdge(es: set<Edge>, s: Thread, t: Thread, p: seq<Thread>)
    requires IsPath(es + {(s, t)}, p)
    ensures IsPath(es, p) || Reaches(es, t, p[|p| - 1])
  {
    if |p| > 1 {
      var n := |p| - 1;
      var front := p[..n];
      assert IsPath(es + {(s, t)}, front);
      LastUseOfEdge(es, s, t, front);
      assert (p[n - 1], p[n]) in es + {(s, t)};
      if (p[n - 1], p[n]) !in es {
        SelfReaches(es, t);
      } else if IsPath(es, front) {
        forall i | 0 <= i < n
          ensures (p[i], p[i + 1]) in es
        {
          if i < n - 1 {
            assert (front[i], front[i + 1]) in es;
          }
        }
      } else {
        EdgeReaches(es, p[n - 1], p[n]);
        ReachesTrans(es, t, p[n - 1], p[n]);
      }
    }
  }

  /** The check the detector makes is exactly the right one: in an acyclic graph the edge
      s -> t can be added without creating a cycle if and only if t does not reach s. */
  lemma EdgeSafeIffNoWayBack(es: set<Edge>, s: Thread, t: Thread)
    requires Acyclic(es)
    ensures Acyclic(es + {(s, t)}) <==> !Reaches(es, t, s)
  {
    var more := es + {(s, t)};
    if Reaches(es, t, s) {
      var p :| IsPath(es, p) && p[0] == t && p[|p| - 1] == s;
      var cycle := [s] + p;
      forall i | 0 <= i < |cycle| - 1
        ensures (cycle[i], cycle[i + 1]) in more
      {
        if i > 0 {
          assert (p[i - 1], p[i]) in es;
        }
      }
      assert IsPath(more, cycle) && |cycle| > 1;
    } else {
      forall p | IsPath(more, p) && |p| > 1
        ensures p[0] != p[|p| - 1]
      {
        if p[0] == p[|p| - 1] {
          FirstUseOfEdge(es, s, t, p);
          LastUseOfEdge(es, s, t, p);
          if !IsPath(es, p) {
            ReachesTrans(es, t, p[0], s);
          }
        }
      }
    }
  }

  lemma FewerEdgesStayAcyclic(es: set<Edge>, fewer: set<Edge>)
    requires Acyclic(es) && fewer <= es
    ensures Acyclic(fewer)
  {
    forall p | IsPath(fewer, p) && |p| > 1
      ensures p[0] != p[|p| - 1]
    {
      assert IsPath(es, p);
    }
  }

  // ---------------------------------------------------------------------------------------
  // The measure of the worklist search
  // ---------------------------------------------------------------------------------------

  ghost function Heads(es: set<Edge>): set<Thread> {
    set e | e in es :: e.1
  }

  ghost predicate ProperlyReaches(es: set<Edge>, a: Thread, b: Thread) {
    exists p :: IsPath(es, p) && |p| > 1 && p[0] == a && p[|p| - 1] == b
  }

  // The threads strictly below v.
  ghost function Below(es: set<Edge>, v: Thread): set<Thread> {
    set w | w in Heads(es) && ProperlyReaches(es, v, w)
  }

  lemma {:induction false} SubsetSize<T>(a: set<T>, b: set<T>)
    requires a <= b
    ensures |a| <= |b|
    ensures a < b ==> |a| < |b|
  {
    assert b == a + (b - a);
    assert |b| == |a| + |b - a|;
    if a < b {
      var x :| x in b && x !in a;
      assert x in b - a;
    }
  }

  // Along an edge of an acyclic graph fewer threads are left below.
  lemma BelowShrinks(es: set<Edge>, v: Thread, w: Thread)
    requires Acyclic(es) && (v, w) in es
    ensures |Below(es, w)| < |Below(es, v)|
  {
    forall x | x in Below(es, w)
      ensures x in Below(es, v)
    {
      var p :| IsPath(es, p) && |p| > 1 && p[0] == w && p[|p| - 1] == x;
      assert IsPath(es, [v, w]);
      JoinPaths(es, [v, w], p);
      assert ([v, w] + p[1..])[0] == v;
    }
    assert w in Below(es, v) by {
      assert (v, w).1 in Heads(es);
      assert IsPath(es, [v, w]);
    }
    assert w !in Below(es, w);
    SubsetSize(Below(es, w), Below(es, v));
  }

  ghost function Pow(b: nat, n: nat): nat {
    if n == 0 then 1 else b * Pow(b, n - 1)
  }

  lemma {:induction false} PowMonotone(b: nat, m: nat, n: nat)
    requires b >= 1 && m <= n
    ensures 1 <= Pow(b, m) <= Pow(b, n)
    decreases n
  {
    if n == m {
      if m > 0 {
        PowMonotone(b, m - 1, m - 1);
      }
    } else {
      PowMonotone(b, m, n - 1);
    }
  }

  // What searching from v may still cost.
  ghost function Weight(es: set<Edge>, v: Thread): nat {
    Pow(|Heads(es)| + 1, |Below(es, v)|)
  }

  ghost function Measure(es: set<Edge>, todo: seq<Thread>): nat {
    if todo == [] then 0 else Weight(es, todo[0]) + Measure(es, todo[1..])
  }

  lemma {:induction false} MeasureAppend(es: set<Edge>, a: seq<Thread>, b: seq<Thread>)
    ensures Measure(es, a + b) == Measure(es, a) + Measure(es, b)
  {
    if a == [] {
      assert a + b == b;
    } else {
      assert (a + b)[1..] == a[1..] + b;
      MeasureAppend(es, a[1..], b);
    }
  }

  lemma {:induction false} MeasureBound(es: set<Edge>, ts: seq<Thread>, top: nat)
    requires forall t :: t in ts ==> |Below(es, t)| <= top
    ensures Measure(es, ts) <= |ts| * Pow(|Heads(es)| + 1, top)
  {
    if ts != [] {
      assert ts[0] in ts;
      assert forall t :: t in ts[1..] ==> t in ts;
      MeasureBound(es, ts[1..], top);
      PowMonotone(|Heads(es)| + 1, |Below(es, ts[0])|, top);
      OneMore(|ts| - 1, Pow(|Heads(es)| + 1, top));
    }
  }

  lemma OneMore(n: nat, unit: nat)
    ensures (n + 1) * unit == n * unit + unit
  {
  }

  lemma TimesMonotone(m: nat, n: nat, unit: nat)
    requires m <= n
    ensures m * unit <= n * unit
  {
  }

  /** Replacing a thread on the worklist by all its successors makes the measure smaller. */
  lemma SuccessorsWeighLess(es: set<Edge>, v: Thread, ts: seq<Thread>)
    requires Acyclic(es)
    requires forall t :: t in ts ==> (v, t) in es
    requires |ts| <= |Heads(es)|
    ensures Measure(es, ts) < Weight(es, v)
  {
    var b := |Heads(es)| + 1;
    var r := |Below(es, v)|;
    if ts == [] {
      PowMonotone(b, r, r);
    } else {
      forall t | t in ts
        ensures |Below(es, t)| <= r - 1
      {
        BelowShrinks(es, v, t);
      }
      BelowShrinks(es, v, ts[0]);
      MeasureBound(es, ts, r - 1);
      PowMonotone(b, r - 1, r - 1);
      var unit := Pow(b, r - 1);
      TimesMonotone(|ts|, b - 1, unit);
      OneMore(b - 1, unit);
    }
  }

  lemma EdgesOfNewKey(g: Graph, v: Thread)
    requires v !in g
    ensures Edges(g[v := {}]) == Edges(g)
  {
  }

  lemma EdgesAt(g: Graph, v: Thread)
    requires v in g
    ensures forall w :: (v, w) in Edges(g) <==> w in g[v]
  {
  }

  lemma EdgesWithTarget(g: Graph, v: Thread, t: Thread)
    requires v in g
    ensures Edges(g[v := g[v] + {t}]) == Edges(g) + {(v, t)}
  {
  }

  ghost predicate Worklist(es: set<Edge>, target: Thread, all: seq<Thread>, done: nat) {
    && done <= |all|
    && target in all
    && (forall t :: t in all ==> Reaches(es, target, t))
    && (forall j, w :: 0 <= j < done && (all[j], w) in es ==> w in all)
  }

  lemma SearchKeepsReaching(es: set<Edge>, target: Thread, v: Thread, targets: seq<Thread>)
    requires Reaches(es, target, v)
    requires forall w :: w in targets ==> (v, w) in es
    ensures forall w :: w in targets ==> Reaches(es, target, w)
    ensures forall w :: w in targets ==> w in Heads(es)
  {
    forall w | w in targets
      ensures Reaches(es, target, w) && w in Heads(es)
    {
      EdgeReaches(es, v, w);
      ReachesTrans(es, target, v, w);
      assert (v, w).1 == w;
    }
  }

  lemma SearchGetsCheaper(es: set<Edge>, all: seq<Thread>, i: nat, targets: seq<Thread>)
    requires Acyclic(es) && i < |all|
    requires forall w :: w in targets ==> (all[i], w) in es
    requires |targets| <= |Heads(es)|
    ensures Measure(es, (all + targets)[i + 1..]) < Measure(es, all[i..])
  {
    var rest := all[i + 1..];
    assert (all + targets)[i + 1..] == rest + targets;
    assert all[i..] == [all[i]] + rest;
    MeasureAppend(es, rest, targets);
    SuccessorsWeighLess(es, all[i], targets);
  }

  // One round of the search: the successors of the next thread go to the end of the list.
  lemma SearchStep(es: set<Edge>, target: Thread, all: seq<Thread>, i: nat, targets: seq<Thread>)
    requires Acyclic(es) && i < |all| && Worklist(es, target, all, i)
    requires forall w :: (all[i], w) in es <==> w in targets
    requires forall j, k :: 0 <= j < k < |targets| ==> targets[j] != targets[k]
    ensures Worklist(es, target, all + targets, i + 1)
    ensures Measure(es, (all + targets)[i + 1..]) < Measure(es, all[i..])
  {
    assert all[i] in all;
    SearchKeepsReaching(es, target, all[i], targets);
    DistinctFit(targets, Heads(es));
    SearchGetsCheaper(es, all, i, targets);
    var more := all + targets;
    forall j, w | 0 <= j < i + 1 && (more[j], w) in es
      ensures w in more
    {
      assert more[j] == all[j];
    }
  }

  lemma {:induction false} DistinctFit(ts: seq<Thread>, s: set<Thread>)
    requires forall j, k :: 0 <= j < k < |ts| ==> ts[j] != ts[k]
    requires forall t :: t in ts ==> t in s
    ensures |ts| <= |s|
  {
    if ts != [] {
      var last := ts[|ts| - 1];
      DistinctFit(ts[..|ts| - 1], s - {last});
    }
  }

  // When nothing is left to do, the list holds exactly the threads reachable from its start.
  lemma SearchDone(es: set<Edge>, target: Thread, all: seq<Thread>)
    requires Worklist(es, target, all, |all|)
    ensures forall t :: t in all <==> Reaches(es, target, t)
  {
    var found := set x | x in all;
    forall t | Reaches(es, target, t)
      ensures t in all
    {
      var p :| IsPath(es, p) && p[0] == target && p[|p| - 1] == t;
      ClosedHoldsPath(es, found, p);
    }
  }

  // ---------------------------------------------------------------------------------------
  // The detector
  // ---------------------------------------------------------------------------------------

  // The order in which std::set yields its elements does not matter here: any order will do.
  method Enumerate(s: set<Thread>) returns (ts: seq<Thread>)
    ensures forall j, k :: 0 <= j < k < |ts| ==> ts[j] != ts[k]
    ensures forall t :: t in ts <==> t in s
  {
    ts := [];
    var rest := s;
    while rest != {}
      invariant rest <= s
      invariant forall j, k :: 0 <= j < k < |ts| ==> ts[j] != ts[k]
      invariant forall t :: t in ts <==> t in s && t !in rest
      decreases |rest|
    {
      var t :| t in rest;
      ts := ts + [t];
      rest := rest - {t};
    }
  }

  ghost function AfterSend(es: set<Edge>, source: Thread, target: Thread): set<Edge> {
    if Reaches(es, target, source) then es else es + {(source, target)}
  }

  ghost function AfterRemove(es: set<Edge>, thread: Thread): set<Edge> {
    set e | e in es && e.0 != thread && e.1 != thread
  }

  // The map with the thread taken out of the keys and of every set of targets.
  lemma EdgesRemoved(g: Graph, left: Graph, thread: Thread)
    requires forall v :: v in left <==> v in g && v != thread
    requires forall v :: v in left ==> left[v] == g[v] - {thread}
    ensures Edges(left) == AfterRemove(Edges(g), thread)
  {
  }

  class ThreadManager {
    var sendGraph: Graph

    constructor ()
      ensures sendGraph == map[]
      ensures Edges(sendGraph) == {}
    {
      sendGraph := map[];
    }

    /** Returns false where the source's CHECK fails. Looking up a thread that is no key adds
        it with an empty set of targets, as operator[] of std::map does. */
    method RegisterSendAndCheckForCycles(source: Thread, target: Thread) returns (ok: bool)
      requires Acyclic(Edges(sendGraph))
      modifies this
      ensures ok <==> !Reaches(old(Edges(sendGraph)), target, source)
      ensures Edges(sendGraph) == AfterSend(old(Edges(sendGraph)), source, target)
      ensures Acyclic(Edges(sendGraph))
    {
      ghost var es := Edges(sendGraph);
      var allTargets := [target];
      var i := 0;
      SelfReaches(es, target);
      while i < |allTargets|
        invariant 0 <= i <= |allTargets|
        invariant Edges(sendGraph) == es
        invariant Worklist(es, target, allTargets, i)
        decreases Measure(es, allTargets[i..])
      {
        var v := allTargets[i];
        if v !in sendGraph {
          EdgesOfNewKey(sendGraph, v);
          sendGraph := sendGraph[v := {}];
        }
        var targets := Enumerate(sendGraph[v]);
        EdgesAt(sendGraph, v);
        SearchStep(es, target, allTargets, i, targets);
        allTargets := allTargets + targets;
        i := i + 1;
      }
      SearchDone(es, target, allTargets);
      EdgeSafeIffNoWayBack(es, source, target);
      ok := source !in allTargets;
      if ok {
        if source !in sendGraph {
          EdgesOfNewKey(sendGraph, source);
          sendGraph := sendGraph[source := {}];
        }
        EdgesWithTarget(sendGraph, source, target);
        sendGraph := sendGraph[source := sendGraph[source] + {target}];
      }
    }

    method RemoveFromSendGraph(thread: Thread)
      requires Acyclic(Edges(sendGraph))
      modifies this
      ensures Edges(sendGraph) == AfterRemove(old(Edges(sendGraph)), thread)
      ensures thread !in sendGraph
      ensures Acyclic(Edges(sendGraph))
    {
      hide Edges, Acyclic;
      ghost var g := sendGraph;
      var todo := sendGraph.Keys;
      while todo != {}
        invariant todo <= sendGraph.Keys
        invariant forall v :: v in sendGraph <==> v in g && (v == thread ==> v in todo)
        invariant forall v :: v in sendGraph ==>
                                sendGraph[v] == if v in todo then g[v] else g[v] - {thread}
        decreases |todo|
      {
        var v :| v in todo;
        todo := todo - {v};
        if v == thread {
          sendGraph := sendGraph - {v};
        } else {
          sendGraph := sendGraph[v := sendGraph[v] - {thread}];
        }
      }
      EdgesRemoved(g, sendGraph, thread);
      FewerEdgesStayAcyclic(Edges(g), AfterRemove(Edges(g), thread));
    }
  }

  // ---------------------------------------------------------------------------------------
  // Whole runs
  // ---------------------------------------------------------------------------------------

  datatype Op = Send(source: Thread, target: Thread) | Remove(thread: Thread)

  ghost function Apply(es: set<Edge>, op: Op): set<Edge> {
    match op
    case Send(s, t) => AfterSend(es, s, t)
    case Remove(t) => AfterRemove(es, t)
  }

  ghost function Run(ops: seq<Op>): set<Edge> {
    if ops == [] then {} else Apply(Run(ops[..|ops| - 1]), ops[|ops| - 1])
  }

  lemma EmptyIsAcyclic()
    ensures Acyclic({})
  {
    forall p | IsPath({}, p)
      ensures |p| <= 1
    {
      if |p| > 1 {
        var e := FirstEdge({}, p);
      }
    }
  }

  lemma FirstEdge(es: set<Edge>, p: seq<Thread>) returns (e: Edge)
    requires IsPath(es, p) && |p| > 1
    ensures e in es
  {
    e := (p[0], p[1]);
  }

  /** After any run of sends and removals the graph is acyclic: the search of the next send
      ends, and no chain of threads blocked on each other closes. */
  lemma {:induction false} RunStaysAcyclic(ops: seq<Op>)
    ensures Acyclic(Run(ops))
  {
    if ops == [] {
      EmptyIsAcyclic();
    } else {
      var before := Run(ops[..|ops| - 1]);
      RunStaysAcyclic(ops[..|ops| - 1]);
      match ops[|ops| - 1]
      case Send(s, t) => EdgeSafeIffNoWayBack(before, s, t);
      case Remove(t) => FewerEdgesStayAcyclic(before, AfterRemove(before, t));
    }
  }
}
