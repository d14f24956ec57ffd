/** `common/dag/dispatcher.go`: workers take nodes off a queue, run the callback, and report
    completion, which queues the children whose parents are all complete. Each operation under
    the mutex is one atomic step; the steps of different workers interleave freely. */
module Dispatcher {
  import opened Prelude
  import opened Dag

  /** What a completion report answers. */
  datatype Verdict = Running | Finished | Circular

  /** The dispatcher's state, with the history of the nodes workers have taken, in order, and the
      set of those reported complete. */
  datatype State = State(
    dependence: map<Key, int>,
    queueCh: seq<Key>,
    queueCounter: nat,
    completedCounter: nat,
    taken: seq<Key>,
    done: set<Key>)

  function Push(s: State, k: Key): State
  {
    s.(queueCounter := s.queueCounter + 1, queueCh := s.queueCh + [k])
  }

  /** One parent of `k` fewer to wait for; an error if there was none. */
  function UpdateDependence(s: State, k: Key): (State, bool)
  {
    if k !in s.dependence then (s, true)
    else
      var d := s.dependence[k] - 1;
      var s' := s.(dependence := s.dependence[k := d]);
      (if d == 0 then Push(s', k) else s', d >= 0)
  }

  /** The children in order, up to the first error. */
  function UpdateChildren(s: State, cs: seq<Key>): (State, bool)
    decreases |cs|
  {
    if cs == [] then (s, true)
    else
      var (s1, ok) := UpdateChildren(s, cs[..|cs| - 1]);
      if ok then UpdateDependence(s1, cs[|cs| - 1]) else (s1, false)
  }

  /** A worker reports `x` complete. */
  function Complete(g: Nodes, s: State, x: Key): (State, Verdict)
    requires x in g
  {
    var (s1, ok) := UpdateChildren(s, g[x].children);
    if !ok then (s1, Circular)
    else
      var s2 := s1.(completedCounter := s1.completedCounter + 1, done := s1.done + {x});
      (s2, if s2.completedCounter == s2.queueCounter then
             if s2.queueCounter < |g| then Circular else Finished
           else Running)
  }

  /** A worker takes the next node. */
  function Take(s: State): (State, Key)
    requires s.queueCh != []
  {
    (s.(queueCh := s.queueCh[1..], taken := s.taken + [s.queueCh[0]]), s.queueCh[0])
  }

  /** An update fails exactly when it takes a count below zero, and then nothing after it is done. */
  lemma {:induction false} UpdateFails(s: State, cs: seq<Key>, k: nat)
    requires k <= |cs| && !UpdateChildren(s, cs[..k]).1
    ensures UpdateChildren(s, cs) == UpdateChildren(s, cs[..k])
    decreases |cs|
  {
    if k < |cs| {
      assert cs[..|cs| - 1][..k] == cs[..k];
      UpdateFails(s, cs[..|cs| - 1], k);
    } else {
      assert cs[..k] == cs;
    }
  }

  lemma UpdateExact(s: State, k: Key)
    ensures var (s', ok) := UpdateDependence(s, k);
            (ok <==> k !in s.dependence || s.dependence[k] > 0) &&
            (k in s.dependence ==> s'.dependence == s.dependence[k := s.dependence[k] - 1]) &&
            s'.queueCh == s.queueCh + (if k in s.dependence && s.dependence[k] == 1 then [k] else [])
  {
  }

  // --- the invariant ---------------------------------------------------------------

  /** Every node ever queued, in order. */
  function Queued(s: State): seq<Key>
  {
    s.taken + s.queueCh
  }

  /** Each node waits for its parents that are not complete; the nodes queued, once each, are
      those that wait for none. */
  ghost predicate Waiting(g: Nodes, s: State)
  {
    s.dependence.Keys == g.Keys && (forall k :: k in g ==> s.dependence[k] == |Parents(g, k) - s.done|) &&
    Distinct(Queued(s)) && (forall k :: k in Queued(s) <==> k in g && s.dependence[k] == 0)
  }

  /** Every node was taken after all its parents had completed. */
  ghost predicate Ordered(g: Nodes, s: State)
  {
    forall i, p :: 0 <= i < |s.taken| && Edge(g, p, s.taken[i]) ==> p in s.done && p in s.taken[..i]
  }

  ghost predicate Inv(g: Nodes, s: State)
  {
    Sound(g) && Waiting(g, s) && Ordered(g, s) && (forall k :: k in s.done ==> k in s.taken) &&
    s.queueCounter == |Queued(s)| && s.completedCounter == |s.done|
  }

  /** The state `Run` sets up, whatever the order in which it visits the nodes. */
  ghost predicate Started(g: Nodes, s: State)
  {
    s.dependence.Keys == g.Keys && (forall k :: k in g ==> s.dependence[k] == g[k].parentCounter) &&
    Distinct(s.queueCh) && (forall k :: k in s.queueCh <==> k in g && g[k].parentCounter == 0) &&
    s.queueCounter == |s.queueCh| && s.completedCounter == 0 && s.taken == [] && s.done == {}
  }

  lemma StartInv(g: Nodes, s: State)
    requires Sound(g) && Started(g, s)
    ensures Inv(g, s)
  {
    assert Queued(s) == s.queueCh;
    forall k | k in g ensures s.dependence[k] == |Parents(g, k) - s.done| {
      assert Parents(g, k) - {} == Parents(g, k);
    }
  }

  /** The channel never holds more than its capacity, the number of nodes. */
  lemma WithinCapacity(g: Nodes, s: State)
    requires Inv(g, s)
    ensures |Queued(s)| <= |g| && |s.queueCh| <= |g|
  {
    DistinctBound(Queued(s), g.Keys);
  }

  lemma TakeInv(g: Nodes, s: State)
    requires Inv(g, s) && s.queueCh != []
    ensures Inv(g, Take(s).0)
    ensures var x := Take(s).1; x in g && x !in s.taken && forall p :: Edge(g, p, x) ==> p in s.done
  {
    hide Sound, Edge, Parents;
    var (s', x) := Take(s);
    assert Queued(s') == Queued(s);
    NextQueued(s);
    ReadyParents(g, s, x);
    TakeOrdered(g, s, s', x);
  }

  lemma NextQueued(s: State)
    requires s.queueCh != [] && Distinct(Queued(s))
    ensures s.queueCh[0] in Queued(s) && s.queueCh[0] !in s.taken
  {
    var q, n := Queued(s), |s.taken|;
    assert q[n] == s.queueCh[0];
    assert forall i :: 0 <= i < n ==> q[i] == s.taken[i];
  }

  lemma TakeOrdered(g: Nodes, s: State, s': State, x: Key)
    requires s'.taken == s.taken + [x] && s'.done == s.done
    requires Ordered(g, s) && (forall k :: k in s.done ==> k in s.taken) && forall p :: Edge(g, p, x) ==> p in s.done
    ensures Ordered(g, s')
  {
    var t, n := s'.taken, |s.taken|;
    forall i, p | 0 <= i < |t| && Edge(g, p, t[i]) ensures p in s'.done && p in t[..i] {
      if i < n { assert t[..i] == s.taken[..i]; } else { assert t[..i] == s.taken; }
    }
  }

  lemma ReadyParents(g: Nodes, s: State, x: Key)
    requires x in g && |Parents(g, x) - s.done| == 0
    ensures forall p :: Edge(g, p, x) ==> p in s.done
  {
    forall p | Edge(g, p, x) ensures p in s.done {
      assert p in Parents(g, x);
      assert p in s.done || p in Parents(g, x) - s.done;
    }
  }

  // --- completion ------------------------------------------------------------------

  /** While the children of `x` are being updated: those in `cs` already are. */
  ghost predicate Midway(g: Nodes, s0: State, s: State, cs: seq<Key>)
  {
    s.taken == s0.taken && s.done == s0.done && s.completedCounter == s0.completedCounter &&
    s.dependence.Keys == g.Keys && s.queueCounter == |Queued(s)| && Distinct(Queued(s)) &&
    (forall k :: k in g && k in s0.dependence ==> s.dependence[k] == s0.dependence[k] - (if k in cs then 1 else 0)) &&
    forall k :: k in Queued(s) <==> k in g && s.dependence[k] == 0
  }

  lemma MidwayStep(g: Nodes, s0: State, s: State, cs: seq<Key>, k: Key)
    requires Midway(g, s0, s, cs) && k in g && k in s0.dependence && k !in cs && s0.dependence[k] > 0
    ensures UpdateDependence(s, k).1 && Midway(g, s0, UpdateDependence(s, k).0, cs + [k])
  {
    var s' := UpdateDependence(s, k).0;
    assert k !in Queued(s);
    if s'.dependence[k] == 0 {
      assert Queued(s') == Queued(s) + [k];
    }
  }

  lemma {:induction false} UpdateChildrenMidway(g: Nodes, s0: State, cs: seq<Key>)
    requires Midway(g, s0, s0, []) && Distinct(cs)
    requires forall k :: k in cs ==> k in g && k in s0.dependence && s0.dependence[k] > 0
    ensures UpdateChildren(s0, cs).1 && Midway(g, s0, UpdateChildren(s0, cs).0, cs)
    decreases |cs|
  {
    if cs != [] {
      var init, k := cs[..|cs| - 1], cs[|cs| - 1];
      UpdateChildrenMidway(g, s0, init);
      assert cs == init + [k] && k !in init;
      MidwayStep(g, s0, UpdateChildren(s0, init).0, init, k);
    }
  }

  /** A node complete means one parent fewer for each of its children. */
  lemma ParentsLeft(g: Nodes, done: set<Key>, x: Key, k: Key)
    requires x in g && x !in done
    ensures |Parents(g, k) - (done + {x})| == |Parents(g, k) - done| - if Edge(g, x, k) then 1 else 0
    ensures Edge(g, x, k) ==> |Parents(g, k) - done| > 0
  {
    var a, b := Parents(g, k) - done, Parents(g, k) - (done + {x});
    if Edge(g, x, k) {
      assert x in a && a == b + {x};
    } else {
      assert a == b;
    }
  }

  lemma CompleteOk(g: Nodes, s: State, x: Key)
    requires Inv(g, s) && x in s.taken && x !in s.done
    ensures x in g && UpdateChildren(s, g[x].children).1
    ensures Midway(g, s, UpdateChildren(s, g[x].children).0, g[x].children)
  {
    CompleteChildren(g, s, x);
    UpdateChildrenMidway(g, s, g[x].children);
  }

  /** The children of a node that is running all wait for it. */
  lemma CompleteChildren(g: Nodes, s: State, x: Key)
    requires Inv(g, s) && x in s.taken && x !in s.done
    ensures x in g && Distinct(g[x].children) && Midway(g, s, s, [])
    ensures forall k :: k in g[x].children ==> k in g && k in s.dependence && s.dependence[k] > 0
  {
    assert x in Queued(s);
    forall k | k in g[x].children ensures k in g && k in s.dependence && s.dependence[k] > 0 {
      assert Edge(g, x, k);
      ParentsLeft(g, s.done, x, k);
    }
  }

  /** Reporting a node complete never finds a negative count and keeps the invariant. */
  lemma CompleteInv(g: Nodes, s: State, x: Key)
    requires Inv(g, s) && x in s.taken && x !in s.done
    ensures x in g && Inv(g, Complete(g, s, x).0)
    ensures Complete(g, s, x).0.done == s.done + {x} && Complete(g, s, x).0.taken == s.taken
  {
    hide UpdateChildren, Sound, Parents, Midway, Waiting, Ordered;
    CompleteOk(g, s, x);
    var s1 := UpdateChildren(s, g[x].children).0;
    MidwayFrame(g, s, s1, g[x].children);
    CompleteWaiting(g, s, s1, x);
    var s2 := s1.(completedCounter := s1.completedCounter + 1, done := s1.done + {x});
    MoreDone(g, s, s2);
    assert Queued(s2) == Queued(s1);
  }

  lemma MoreDone(g: Nodes, s: State, s': State)
    requires Ordered(g, s) && s'.taken == s.taken && s.done <= s'.done
    ensures Ordered(g, s')
  {
  }

  lemma MidwayFrame(g: Nodes, s0: State, s: State, cs: seq<Key>)
    requires Midway(g, s0, s, cs)
    ensures s.taken == s0.taken && s.done == s0.done && s.completedCounter == s0.completedCounter
    ensures s.queueCounter == |Queued(s)|
  {
  }

  lemma CompleteWaiting(g: Nodes, s: State, s1: State, x: Key)
    requires Waiting(g, s) && x in g && x !in s.done && Midway(g, s, s1, g[x].children)
    ensures Waiting(g, s1.(completedCounter := s1.completedCounter + 1, done := s1.done + {x}))
  {
    hide Parents;
    var s2 := s1.(completedCounter := s1.completedCounter + 1, done := s1.done + {x});
    assert Queued(s2) == Queued(s1);
    forall k | k in g ensures s2.dependence[k] == |Parents(g, k) - s2.done| {
      ParentsLeft(g, s.done, x, k);
    }
  }

  /** Once as many nodes are complete as were ever queued, the verdict is `Circular` exactly when
      the graph has a cycle, and otherwise every node has run. */
  lemma VerdictExact(g: Nodes, s: State, x: Key)
    requires Inv(g, s) && x in s.taken && x !in s.done
    ensures x in g && var (s', v) := Complete(g, s, x);
            (v == Circular ==> HasCycle(g)) &&
            (v == Finished ==> !HasCycle(g) && forall k :: k in g ==> k in s'.done) &&
            (v == Running <==> s'.completedCounter != s'.queueCounter)
  {
    hide Inv, HasCycle, UpdateChildren;
    CompleteInv(g, s, x);
    CompleteOk(g, s, x);
    var (s', v) := Complete(g, s, x);
    if s'.completedCounter == s'.queueCounter {
      Stopped(g, s');
    }
  }

  /** A state in which nothing is queued or running: what was queued is what is done. */
  lemma StoppedDone(g: Nodes, s: State)
    requires Inv(g, s) && s.completedCounter == s.queueCounter
    ensures s.done == ToSet(Queued(s)) && s.done <= g.Keys
  {
    var q := Queued(s);
    DistinctSize(q);
    forall k | k in s.done ensures k in ToSet(q) { assert k in s.taken && k in q; }
    SubsetSize(s.done, ToSet(q));
  }

  lemma StuckNodes(g: Nodes, s: State, k: Key)
    requires Inv(g, s) && s.done == ToSet(Queued(s)) && k in g && k !in s.done
    ensures HasParentIn(g, g.Keys - s.done, k)
  {
    assert k !in Queued(s);
    assert Parents(g, k) - s.done != {};
    var p :| p in Parents(g, k) - s.done;
    assert Edge(g, p, k);
  }

  lemma Stopped(g: Nodes, s: State)
    requires Inv(g, s) && s.completedCounter == s.queueCounter
    ensures s.queueCounter < |g| ==> HasCycle(g)
    ensures s.queueCounter >= |g| ==> !HasCycle(g) && forall k :: k in g ==> k in s.done
  {
    hide HasCycle, Sound, Waiting, Ordered, HasParentIn, Topological;
    StoppedDone(g, s);
    WithinCapacity(g, s);
    if s.queueCounter < |g| {
      var u := g.Keys - s.done;
      assert |g.Keys| == |u| + |s.done|;
      forall k | k in u ensures HasParentIn(g, u, k) { StuckNodes(g, s, k); }
      StuckHasCycle(g, u);
    } else {
      SubsetSize(s.done, g.Keys);
      AllTaken(g, s);
      TopologicalNoCycle(g, s.taken);
    }
  }

  lemma AllTaken(g: Nodes, s: State)
    requires Inv(g, s) && s.done == g.Keys
    ensures Topological(g, s.taken)
  {
    forall i, j | 0 <= i < j < |s.taken| ensures s.taken[i] != s.taken[j] {
      assert Queued(s)[i] == s.taken[i] && Queued(s)[j] == s.taken[j];
    }
  }

  // --- the program -----------------------------------------------------------------

  class Dispatcher {
    const dag: Nodes
    var dependence: map<Key, int>
    var queueCh: seq<Key>
    var queueCounter: nat
    var completedCounter: nat
    ghost var taken: seq<Key>
    ghost var done: set<Key>

    constructor (dag: Nodes)
      requires Sound(dag)
      ensures this.dag == dag && Content() == State(map[], [], 0, 0, [], {})
    {
      this.dag := dag;
      dependence, queueCh, queueCounter, completedCounter, taken, done := map[], [], 0, 0, [], {};
    }

    ghost function Content(): State
      reads this
    {
      State(dependence, queueCh, queueCounter, completedCounter, taken, done)
    }

    /** Send to the queue; the channel must have room or the sender, who holds the mutex, blocks. */
    method PushNode(k: Key)
      requires |queueCh| < |dag|
      modifies this`queueCounter, this`queueCh
      ensures Content() == Push(old(Content()), k)
    {
      queueCounter := queueCounter + 1;
      queueCh := queueCh + [k];
    }

    /** Set every node's count and queue the roots, visiting the nodes in any order. */
    method SetUp()
      requires Content() == State(map[], [], 0, 0, [], {})
      modifies this`dependence, this`queueCounter, this`queueCh
      ensures Started(dag, Content())
    {
      var todo := dag.Keys;
      while todo != {}
        invariant todo <= dag.Keys && dependence.Keys == dag.Keys - todo
        invariant forall k :: k in dependence ==> dependence[k] == dag[k].parentCounter
        invariant Distinct(queueCh) && forall k :: k in queueCh <==> k in dependence && dependence[k] == 0
        invariant queueCounter == |queueCh| && completedCounter == 0 && taken == [] && done == {}
      {
        var k :| k in todo;
        DistinctBound(queueCh, dag.Keys - {k});
        dependence := dependence[k := dag[k].parentCounter];
        if dependence[k] == 0 { PushNode(k); }
        todo := todo - {k};
      }
    }

    /** A graph with nodes but without roots is refused, and it does have a cycle. */
    method Run() returns (circular: bool)
      requires Sound(dag) && Content() == State(map[], [], 0, 0, [], {})
      modifies this`dependence, this`queueCounter, this`queueCh
      ensures Inv(dag, Content()) && Started(dag, Content())
      ensures circular <==> queueCounter == 0 && |dag| > 0
      ensures circular ==> HasCycle(dag)
    {
      hide Sound, Inv, HasCycle;
      SetUp();
      StartInv(dag, Content());
      circular := queueCounter == 0 && |dag| > 0;
      if circular { Stopped(dag, Content()); }
    }

    /** A worker receives from the queue. */
    method TakeNode() returns (k: Key)
      requires Inv(dag, Content()) && queueCh != []
      modifies this`queueCh, this`taken
      ensures Inv(dag, Content()) && (Content(), k) == Take(old(Content()))
      ensures k in dag && k !in old(taken) && forall p :: Edge(dag, p, k) ==> p in done
    {
      hide Inv, Edge;
      TakeInv(dag, Content());
      k := queueCh[0];
      queueCh := queueCh[1..];
      taken := taken + [k];
    }

    method UpdateDependenceTask(k: Key) returns (ok: bool)
      requires k in dependence && dependence[k] == 1 ==> |queueCh| < |dag|
      modifies this`dependence, this`queueCounter, this`queueCh
      ensures (Content(), ok) == UpdateDependence(old(Content()), k)
    {
      if k in dependence {
        dependence := dependence[k := dependence[k] - 1];
        if dependence[k] == 0 { PushNode(k); }
        if dependence[k] < 0 { return false; }
      }
      return true;
    }

    /** A worker reports a node it took complete. The queue always has room for the children that
        become ready, no count ever goes negative, and the verdict is exact. */
    method OnCompleteParentTask(x: Key) returns (v: Verdict)
      requires Inv(dag, Content()) && x in taken && x !in done
      modifies this
      ensures x in dag && Inv(dag, Content()) && (Content(), v) == Complete(dag, old(Content()), x)
      ensures v == Circular ==> HasCycle(dag)
      ensures v == Finished ==> !HasCycle(dag) && forall k :: k in dag ==> k in done
      ensures done == old(done) + {x} && taken == old(taken)
    {
      hide Inv, HasCycle, UpdateDependence, UpdateChildren, Waiting, Midway;
      ghost var s0 := Content();
      CompleteInv(dag, s0, x);
      VerdictExact(dag, s0, x);
      CompleteOk(dag, s0, x);
      var children := dag[x].children;
      UpdateNone(s0, children);
      for i := 0 to |children|
        invariant (Content(), true) == UpdateChildren(s0, children[..i])
      {
        HasRoom(dag, s0, x, i);
        UpdateMore(s0, children, i);
        var ok := UpdateDependenceTask(children[i]);
        if !ok { return Circular; }
      }
      assert children[..|children|] == children;
      completedCounter := completedCounter + 1;
      done := done + {x};
      if completedCounter == queueCounter {
        if queueCounter < |dag| { return Circular; }
        return Finished;
      }
      return Running;
    }
  }

  lemma UpdateNone(s: State, cs: seq<Key>)
    ensures UpdateChildren(s, cs[..0]) == (s, true)
  {
  }

  lemma UpdateMore(s: State, cs: seq<Key>, i: nat)
    requires i < |cs|
    ensures UpdateChildren(s, cs[..i]).1 ==>
              UpdateChildren(s, cs[..i + 1]) == UpdateDependence(UpdateChildren(s, cs[..i]).0, cs[i])
  {
    assert cs[..i + 1][..i] == cs[..i];
  }

  /** Before each child is updated there is room in the queue for it, and no error arises. */
  lemma HasRoom(g: Nodes, s: State, x: Key, i: nat)
    requires Inv(g, s) && x in s.taken && x !in s.done && x in g && i < |g[x].children|
    ensures var s1 := UpdateChildren(s, g[x].children[..i]).0; var k := g[x].children[i];
            (k in s1.dependence && s1.dependence[k] == 1 ==> |s1.queueCh| < |g|) && UpdateDependence(s1, k).1
  {
    hide Inv, Midway, UpdateChildren, UpdateDependence;
    var cs := g[x].children;
    CompleteChildren(g, s, x);
    UpdateChildrenMidway(g, s, cs[..i]);
    var s1 := UpdateChildren(s, cs[..i]).0;
    MidwayStep(g, s, s1, cs[..i], cs[i]);
    MidwayRoom(g, s, s1, cs[..i], cs[i]);
  }

  lemma MidwayRoom(g: Nodes, s0: State, s: State, cs: seq<Key>, k: Key)
    requires Midway(g, s0, s, cs)
    ensures k in s.dependence && s.dependence[k] == 1 ==> |s.queueCh| < |g|
  {
    if k in s.dependence && s.dependence[k] == 1 {
      assert k !in Queued(s);
      DistinctBound(Queued(s), g.Keys - {k});
    }
  }
}
