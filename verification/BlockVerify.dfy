/** Verifying a packed block (`core/block.go`, execute): the dispatcher hands out the block's
    transactions by the dependency graph, workers run them on snapshots and merge. Whatever the
    interleaving, the only step that can fail is the late recording of an account that the
    transaction's footprint does not keep, and the world state comes out as packed. */
module BlockVerify {
  import opened Prelude
  import opened StagingTable
  import opened MvccRun
  import opened Serial
  import G = Dag
  import D = Dispatcher

  /** A block: the world state before it, its transactions in order, and the graph by number. */
  datatype Block = Block(start: World, txs: seq<Tx>, dag: G.Nodes)

  /** What packing guarantees of a block: it runs, its graph numbers its transactions, and any two
      transactions with overlapping footprints are joined by a path, earlier to later. */
  ghost predicate WellPacked(b: Block)
  {
    Runs(b.start, b.txs) && G.Sound(b.dag) && (forall i: nat :: i in b.dag <==> i < |b.txs|) &&
    forall i, j :: 0 <= i < j < |b.txs| && Conflict(b.start, b.txs, i, j) ==> G.Reaches(b.dag, i, j)
  }

  /** How far the callback for a node has come. `snap` is the world at its `Prepare`, `at` the
      number of merges before it. */
  datatype Phase = Taken | Prepared(snap: World, at: nat) | Merged

  /** `order` is the order of the merges. */
  datatype Verifier = Verifier(disp: D.State, sys: Sys, world: World, phase: map<nat, Phase>, order: seq<nat>)

  ghost predicate InitialV(b: Block, v: Verifier)
  {
    D.Started(b.dag, v.disp) && Fresh(v.sys) &&
    (forall i :: 0 <= i < |b.txs| ==> b.txs[i].id != v.sys.root.tid) &&
    v.world == b.start && v.phase == map[] && v.order == []
  }

  // --- the steps of the workers ----------------------------------------------------

  function TakeStep(v: Verifier): Verifier
    requires v.disp.queueCh != []
  {
    var (d, x) := D.Take(v.disp);
    v.(disp := d, phase := v.phase[x := Taken])
  }

  function PrepareStep(b: Block, v: Verifier, x: nat): Verifier
    requires x < |b.txs|
  {
    v.(sys := Prepare(v.sys, b.txs[x].id), phase := v.phase[x := Prepared(v.world, |v.order|)])
  }

  function TouchStep(b: Block, v: Verifier, x: nat, a: Addr): (Verifier, bool)
    requires x < |b.txs| && b.txs[x].id in v.sys.kids
  {
    var (sys, item) := Put(v.sys, map[], b.txs[x].id, a, a);
    (v.(sys := sys), item.Some?)
  }

  function ResetStep(b: Block, v: Verifier, x: nat): Verifier
    requires x < |b.txs| && b.txs[x].id in v.sys.kids
  {
    v.(sys := Reset(v.sys, b.txs[x].id))
  }

  /** Merge the finished execution of `x`; the flag says whether everything went well. */
  function MergeStep(b: Block, v: Verifier, x: nat, o: Outcome): (Verifier, bool)
    requires x < |b.txs| && b.txs[x].id in v.sys.kids
  {
    var (sys, deps) := CheckAndUpdate(v.sys, b.txs[x].id);
    if deps.None? then (v, false)
    else
      (v.(sys := Close(sys, b.txs[x].id), world := Apply(v.world, b.txs[x].id, o),
          phase := v.phase[x := Merged], order := v.order + [x]), true)
  }

  function CompleteStep(b: Block, v: Verifier, x: nat): (Verifier, D.Verdict)
    requires x in b.dag
  {
    var (d, verdict) := D.Complete(b.dag, v.disp, x);
    (v.(disp := d, phase := v.phase - {x}), verdict)
  }

  // --- the invariant ---------------------------------------------------------------

  function Done(order: seq<nat>): set<nat> { set x | x in order }

  /** The merges so far: each once, in the changelog with its whole footprint, and the world is
      one reached by them. */
  ghost predicate MergesOk(b: Block, v: Verifier)
    requires Runs(b.start, b.txs)
  {
    Distinct(v.order) && |v.sys.log| == |v.order| && (forall x :: x in v.order ==> x < |b.txs|) &&
    (forall k :: 0 <= k < |v.order| ==> v.order[k] < |b.txs| && v.sys.log[k].writes == At(b.start, b.txs, v.order[k]).foot) &&
    Reached(b.start, b.txs, v.world, Done(v.order))
  }

  /** Where the nodes are: complete ones have merged, merged ones were taken, and the phases cover
      exactly what is running. */
  ghost predicate PlacesOk(b: Block, v: Verifier)
  {
    (forall x :: x in v.disp.done ==> x in v.order) && (forall x :: x in v.order ==> x in v.disp.taken) &&
    (forall x :: x in v.phase <==> x in v.disp.taken && x !in v.disp.done) &&
    forall x :: x in v.phase ==> (v.phase[x].Merged? <==> x in v.order)
  }

  /** A transaction being executed: ready when its snapshot was taken, and still. */
  ghost predicate RunningOk(b: Block, v: Verifier, x: nat)
    requires Runs(b.start, b.txs) && x in v.phase && v.phase[x].Prepared? && x < |b.txs|
  {
    var ph, id := v.phase[x], b.txs[x].id;
    ph.at <= |v.order| && id in v.sys.kids && v.sys.kids[id].preparing == ph.at &&
    Reached(b.start, b.txs, ph.snap, Done(v.order[..ph.at])) && Ready(b.start, b.txs, Done(v.order[..ph.at]), x) &&
    forall k :: k in v.sys.kids[id].values ==> v.sys.kids[id].values[k].dirty
  }

  /** A prepared table belongs to a transaction being executed. */
  ghost predicate Owned(b: Block, v: Verifier, id: Tid)
  {
    exists x :: x in v.phase && v.phase[x].Prepared? && x < |b.txs| && b.txs[x].id == id
  }

  ghost predicate VInv(b: Block, v: Verifier)
  {
    WellPacked(b) && D.Inv(b.dag, v.disp) && MvccRun.Inv(v.sys) && MergesOk(b, v) && PlacesOk(b, v) &&
    (forall i :: 0 <= i < |b.txs| ==> b.txs[i].id != v.sys.root.tid) &&
    (forall x :: x in v.phase ==> x < |b.txs|) && (forall id :: id in v.sys.kids ==> Owned(b, v, id)) &&
    forall x :: x in v.phase && v.phase[x].Prepared? ==> RunningOk(b, v, x)
  }

  // --- the dispatcher respects conflicts -------------------------------------------

  /** All that reaches a taken node has completed. */
  lemma AncestorsDone(b: Block, v: Verifier, i: nat, x: nat)
    requires VInv(b, v) && x in v.disp.taken && G.Reaches(b.dag, i, x)
    ensures i in v.disp.done
  {
    hide Runs, MergesOk, MvccRun.Inv, RunningOk, G.Sound;
    var p :| |p| >= 2 && p[0] == i && p[|p| - 1] == x && G.Walk(b.dag, p);
    var n := |p| - 2;
    assert G.Edge(b.dag, p[n], p[n + 1]);
    TakenParents(b.dag, v.disp, p[n], x);
    DoneClosed(b.dag, v.disp);
    G.ClosedUnderReach(b.dag, v.disp.done, p, n);
  }

  lemma TakenParents(g: G.Nodes, d: D.State, p: nat, x: nat)
    requires D.Ordered(g, d) && x in d.taken && G.Edge(g, p, x)
    ensures p in d.done
  {
  }

  lemma DoneClosed(g: G.Nodes, d: D.State)
    requires D.Ordered(g, d) && forall k :: k in d.done ==> k in d.taken
    ensures forall a, c :: c in d.done && G.Edge(g, a, c) ==> a in d.done
  {
  }

  /** A taken transaction that has not merged is ready. */
  lemma TakenIsReady(b: Block, v: Verifier, x: nat)
    requires VInv(b, v) && x in v.disp.taken && x !in v.order && x < |b.txs|
    ensures Ready(b.start, b.txs, Done(v.order), x)
  {
    hide Runs, MvccRun.Inv, RunningOk, G.Sound, G.Reaches, D.Inv;
    forall j | 0 <= j < |b.txs| && j != x && Conflict(b.start, b.txs, j, x)
      ensures j in Done(v.order) <==> j < x
    {
      if j < x {
        AncestorsDone(b, v, j, x);
      } else {
        assert Conflict(b.start, b.txs, x, j);
        if j in v.order { AncestorsDone(b, v, x, j); }
      }
    }
  }

  // --- every step keeps the invariant --------------------------------------------------

  lemma InitialInvV(b: Block, v: Verifier)
    requires WellPacked(b) && InitialV(b, v)
    ensures VInv(b, v)
  {
    hide Runs, MvccRun.Inv, G.Sound;
    D.StartInv(b.dag, v.disp);
    hide Reached;
    StartReached(b.start, b.txs);
    assert Done(v.order) == {};
  }

  /** A transaction that is not being executed has no table. */
  lemma NotPreparedYet(b: Block, v: Verifier, x: nat)
    requires Runs(b.start, b.txs) && x < |b.txs| && (forall id :: id in v.sys.kids ==> Owned(b, v, id))
    requires x in v.phase ==> !v.phase[x].Prepared?
    ensures b.txs[x].id !in v.sys.kids
  {
    hide Local, After;
    assert b.txs[x].id in v.sys.kids ==> Owned(b, v, b.txs[x].id);
  }

  /** The merges do not depend on the dispatcher's state or the phases. */
  lemma SameMerges(b: Block, v: Verifier, v': Verifier)
    requires Runs(b.start, b.txs) && MergesOk(b, v) && v'.order == v.order && v'.sys.log == v.sys.log && v'.world == v.world
    ensures MergesOk(b, v')
  {
  }

  lemma KeepsOwned(b: Block, v: Verifier, v': Verifier, id: Tid)
    requires Owned(b, v, id)
    requires forall x :: x in v.phase && v.phase[x].Prepared? && x < |b.txs| && b.txs[x].id == id ==> x in v'.phase && v'.phase[x].Prepared?
    ensures Owned(b, v', id)
  {
  }

  lemma TakeStepInv(b: Block, v: Verifier)
    requires VInv(b, v) && v.disp.queueCh != []
    ensures VInv(b, TakeStep(v))
  {
    hide Runs, MvccRun.Inv, G.Sound, D.Inv, Reached, Ready, G.Edge, MergesOk, Owned;
    D.TakeInv(b.dag, v.disp);
    var x := D.Take(v.disp).1;
    var v' := TakeStep(v);
    SameMerges(b, v, v');
    forall id | id in v'.sys.kids ensures Owned(b, v', id) { KeepsOwned(b, v, v', id); }
    forall y | y in v'.phase && v'.phase[y].Prepared? ensures RunningOk(b, v', y) { assert RunningOk(b, v, y); }
  }

  lemma PrepareStepInv(b: Block, v: Verifier, x: nat)
    requires VInv(b, v) && x in v.phase && v.phase[x].Taken?
    ensures x < |b.txs| && b.txs[x].id !in v.sys.kids && VInv(b, PrepareStep(b, v, x))
  {
    hide Runs, MvccRun.Inv, G.Sound, D.Inv, Reached, Ready, Owned, WellPacked, MergesOk, RunningOk;
    var id := b.txs[x].id;
    Packed(b);
    NotPreparedYet(b, v, x);
    PrepareInv(v.sys, id);
    var v' := PrepareStep(b, v, x);
    RootVersion(v.sys);
    SameMerges(b, v, v');
    forall i | i in v'.sys.kids ensures Owned(b, v', i) {
      if i == id { OwnedBy(b, v', x); } else { KeepsOwned(b, v, v', i); }
    }
    forall y | y in v'.phase && v'.phase[y].Prepared? ensures RunningOk(b, v', y) {
      if y == x { JustPrepared(b, v, x); } else { StillRunning(b, v, v', y); }
    }
  }

  lemma Packed(b: Block)
    requires WellPacked(b)
    ensures Runs(b.start, b.txs)
  {
  }

  lemma JustPrepared(b: Block, v: Verifier, x: nat)
    requires VInv(b, v) && x in v.phase && v.phase[x].Taken? && x < |b.txs| && b.txs[x].id !in v.sys.kids
    ensures RunningOk(b, PrepareStep(b, v, x), x)
  {
    hide Runs, MvccRun.Inv, G.Sound, D.Inv, Reached, Ready, Owned, G.Reaches;
    TakenIsReady(b, v, x);
    RootVersion(v.sys);
    assert v.order[..|v.order|] == v.order;
  }

  /** Another worker's step does not disturb a running transaction. */
  lemma StillRunning(b: Block, v: Verifier, v': Verifier, y: nat)
    requires Runs(b.start, b.txs) && y in v.phase && v.phase[y].Prepared? && y < |b.txs| && RunningOk(b, v, y)
    requires y in v'.phase && v'.phase[y] == v.phase[y] && v.order <= v'.order
    requires b.txs[y].id in v.sys.kids ==> b.txs[y].id in v'.sys.kids && v'.sys.kids[b.txs[y].id] == v.sys.kids[b.txs[y].id]
    ensures RunningOk(b, v', y)
  {
    hide Runs, Reached, Ready;
    assert v'.order[..v.phase[y].at] == v.order[..v.phase[y].at];
  }

  lemma RootVersion(s: Sys)
    requires MvccRun.Inv(s)
    ensures s.root.globalVersion == |s.log|
  {
  }

  lemma OwnedBy(b: Block, v: Verifier, x: nat)
    requires x in v.phase && v.phase[x].Prepared? && x < |b.txs|
    ensures Owned(b, v, b.txs[x].id)
  {
  }

  /** What a running transaction would do is what it did when the block was packed. */
  lemma RunningOutcome(b: Block, v: Verifier, x: nat)
    requires VInv(b, v) && x in v.phase && v.phase[x].Prepared?
    ensures x < |b.txs| && b.txs[x].run(v.phase[x].snap.accounts) == Some(At(b.start, b.txs, x))
  {
    hide Runs, MvccRun.Inv, G.Sound, D.Inv, Reached, Ready, Owned, MergesOk, PlacesOk;
    assert RunningOk(b, v, x);
    SameOutcome(b.start, b.txs, v.phase[x].snap, Done(v.order[..v.phase[x].at]), x);
  }

  /** No account of its footprint has been merged since its `Prepare`. */
  lemma FootprintUntouched(b: Block, v: Verifier, x: nat, a: Addr)
    requires VInv(b, v) && x in v.phase && v.phase[x].Prepared?
    requires x < |b.txs| && a in At(b.start, b.txs, x).foot
    ensures !WrittenSince(v.sys.log, v.phase[x].at, a)
  {
    hide Runs, MvccRun.Inv, G.Sound, D.Inv, Reached, Owned, Conflict, At;
    assert RunningOk(b, v, x);
    TakenIsReady(b, v, x);
    forall k | v.phase[x].at <= k < |v.sys.log| ensures a !in v.sys.log[k].writes {
      NotBetween(b, v, x, k, a);
    }
  }

  lemma NotBetween(b: Block, v: Verifier, x: nat, k: nat, a: Addr)
    requires Runs(b.start, b.txs) && MergesOk(b, v) && x < |b.txs| && a in At(b.start, b.txs, x).foot
    requires x in v.phase && v.phase[x].Prepared? && v.phase[x].at <= k < |v.sys.log|
    requires Ready(b.start, b.txs, Done(v.order[..v.phase[x].at]), x) && Ready(b.start, b.txs, Done(v.order), x)
    ensures a !in v.sys.log[k].writes
  {
    hide Runs, Reached, At;
    var j := v.order[k];
    assert j in v.order;
    NotInPrefix(v.order, v.phase[x].at, k);
    assert Touches(b.start, b.txs, x, a);
    TouchersConflict(b.start, b.txs, x, a);
    WritesTouch(b, v, k, a);
  }

  lemma WritesTouch(b: Block, v: Verifier, k: nat, a: Addr)
    requires Runs(b.start, b.txs) && MergesOk(b, v) && k < |v.sys.log|
    ensures a in v.sys.log[k].writes <==> Touches(b.start, b.txs, v.order[k], a)
  {
  }

  lemma NotInPrefix(s: seq<nat>, n: nat, k: nat)
    requires Distinct(s) && n <= k < |s|
    ensures s[k] !in Done(s[..n])
  {
  }

  /** Recording an account is refused exactly when it was merged since `Prepare` and is not held already; that
      never happens to an account of the final footprint. */
  lemma TouchStepInv(b: Block, v: Verifier, x: nat, a: Addr)
    requires VInv(b, v) && x in v.phase && v.phase[x].Prepared? && x < |b.txs|
    ensures b.txs[x].id in v.sys.kids && VInv(b, TouchStep(b, v, x, a).0)
    ensures TouchStep(b, v, x, a).1 <==> !Refused(b, v, x, a)
  {
    hide Runs, MvccRun.Inv, G.Sound, D.Inv, Reached, Ready, Owned, WellPacked, MergesOk, Put, PutIn, WrittenSince, RunningOk;
    Packed(b);
    RunningKid(b, v, x);
    var id := b.txs[x].id;
    if a in At(b.start, b.txs, x).foot { FootprintUntouched(b, v, x, a); }
    PutExact(v.sys, map[], id, a, a);
    PutFrame(v.sys, map[], id, a, a);
    var (sys, item) := Put(v.sys, map[], id, a, a);
    var v' := v.(sys := sys);
    assert TouchStep(b, v, x, a) == (v', item.Some?);
    SameMerges(b, v, v');
    forall i | i in v'.sys.kids ensures Owned(b, v', i) { KeepsOwned(b, v, v', i); }
    forall y | y in v'.phase && v'.phase[y].Prepared? ensures RunningOk(b, v', y) {
      if y == x { TouchedRunning(b, v, v', x, a); } else { OtherId(b, x, y); StillRunning(b, v, v', y); }
    }
  }

  /** An account outside the footprint the transaction will merge with, merged since its `Prepare`. */
  ghost predicate Refused(b: Block, v: Verifier, x: nat, a: Addr)
    requires Runs(b.start, b.txs) && x < |b.txs| && b.txs[x].id in v.sys.kids
  {
    var kid := v.sys.kids[b.txs[x].id];
    a !in At(b.start, b.txs, x).foot && a !in kid.values && WrittenSince(v.sys.log, kid.preparing, a)
  }

  lemma RunningKid(b: Block, v: Verifier, x: nat)
    requires Runs(b.start, b.txs) && x in v.phase && v.phase[x].Prepared? && x < |b.txs| && RunningOk(b, v, x)
    ensures b.txs[x].id in v.sys.kids && v.sys.kids[b.txs[x].id].preparing == v.phase[x].at
  {
  }

  lemma TouchedRunning(b: Block, v: Verifier, v': Verifier, x: nat, a: Addr)
    requires Runs(b.start, b.txs) && x in v.phase && v.phase[x].Prepared? && x < |b.txs| && RunningOk(b, v, x)
    requires v'.phase == v.phase && v'.order == v.order && b.txs[x].id in v'.sys.kids
    requires var kid, kid' := v.sys.kids[b.txs[x].id], v'.sys.kids[b.txs[x].id];
             kid'.preparing == kid.preparing && kid'.values.Keys <= kid.values.Keys + {a} && (a in kid'.values ==> kid'.values[a].dirty) &&
             forall k :: k in kid.values && k != a ==> k in kid'.values && kid'.values[k] == kid.values[k]
    ensures RunningOk(b, v', x)
  {
    hide Runs, Reached, Ready;
  }

  lemma OtherId(b: Block, x: nat, y: nat)
    requires Runs(b.start, b.txs) && x < |b.txs| && y < |b.txs| && x != y
    ensures b.txs[x].id != b.txs[y].id
  {
  }

  lemma ResetStepInv(b: Block, v: Verifier, x: nat)
    requires VInv(b, v) && x in v.phase && v.phase[x].Prepared?
    ensures x < |b.txs| && b.txs[x].id in v.sys.kids && VInv(b, ResetStep(b, v, x))
  {
    hide Runs, MvccRun.Inv, G.Sound, D.Inv, Reached, Ready, Owned, WellPacked, MergesOk;
    Packed(b);
    assert RunningOk(b, v, x);
    ResetInv(v.sys, b.txs[x].id);
    var v' := ResetStep(b, v, x);
    SameMerges(b, v, v');
    forall i | i in v'.sys.kids ensures Owned(b, v', i) { KeepsOwned(b, v, v', i); }
    forall y | y in v'.phase && v'.phase[y].Prepared? ensures RunningOk(b, v', y) {
      if y != x { OtherId(b, x, y); assert RunningOk(b, v, y); StillRunning(b, v, v', y); }
    }
  }

  /** A reset empties the table and touches nothing else. */
  lemma ResetStepExact(b: Block, v: Verifier, x: nat)
    requires x < |b.txs| && b.txs[x].id in v.sys.kids
    ensures var v', id := ResetStep(b, v, x), b.txs[x].id;
            v' == v.(sys := v'.sys) && v'.sys.log == v.sys.log && id in v'.sys.kids && v'.sys.kids[id].values == map[] &&
            v'.sys.kids[id].preparing == v.sys.kids[id].preparing && v'.sys.kids - {id} == v.sys.kids - {id}
  {
  }

  lemma CompleteStepInv(b: Block, v: Verifier, x: nat)
    requires VInv(b, v) && x in v.phase && v.phase[x].Merged?
    ensures x in b.dag && VInv(b, CompleteStep(b, v, x).0)
  {
    hide Runs, MvccRun.Inv, G.Sound, D.Inv, D.Complete, Reached, Ready, Owned, MergesOk, G.Reaches, RunningOk;
    D.CompleteInv(b.dag, v.disp, x);
    var v' := CompleteStep(b, v, x).0;
    SameMerges(b, v, v');
    forall i | i in v'.sys.kids ensures Owned(b, v', i) { KeepsOwned(b, v, v', i); }
    forall y | y in v'.phase && v'.phase[y].Prepared? ensures RunningOk(b, v', y) { StillRunning(b, v, v', y); }
  }

  /** The changelog of a running transaction holds exactly the accounts its outcome depends on. */
  ghost predicate Executed(b: Block, v: Verifier, x: nat)
  {
    x in v.phase && v.phase[x].Prepared? && x < |b.txs| && b.txs[x].id in v.sys.kids &&
    var o := b.txs[x].run(v.phase[x].snap.accounts);
    o.Some? && v.sys.kids[b.txs[x].id].values.Keys == o.value.foot
  }

  /** A merge never meets a conflict. */
  lemma MergeSucceeds(b: Block, v: Verifier, x: nat)
    requires VInv(b, v) && Executed(b, v, x)
    ensures Mergeable(v.sys.kids[b.txs[x].id], v.sys.root)
    ensures b.txs[x].run(v.phase[x].snap.accounts).value == At(b.start, b.txs, x)
    ensures CommitOf(v.sys.kids[b.txs[x].id]).writes == At(b.start, b.txs, x).foot
  {
    assert RunningOk(b, v, x);
    hide Runs, MvccRun.Inv, G.Sound, D.Inv, Reached, Ready, Owned, MergesOk, PlacesOk, WrittenSince, G.Reaches, Mergeable;
    var id := b.txs[x].id;
    RunningOutcome(b, v, x);
    MergeableExact(v.sys, id);
    forall k | k in v.sys.kids[id].values ensures !WrittenSince(v.sys.log, v.sys.kids[id].preparing, k) {
      FootprintUntouched(b, v, x, k);
    }
  }

  lemma {:induction false} DoneSnoc(order: seq<nat>, x: nat)
    ensures Done(order + [x]) == Done(order) + {x}
  {
  }

  /** The merges after one more. */
  lemma MergesMore(b: Block, v: Verifier, v': Verifier, x: nat, c: Commit)
    requires Runs(b.start, b.txs) && MergesOk(b, v) && x < |b.txs| && Ready(b.start, b.txs, Done(v.order), x)
    requires v'.order == v.order + [x] && v'.sys.log == v.sys.log + [c] && c.writes == At(b.start, b.txs, x).foot
    requires v'.world == Apply(v.world, b.txs[x].id, At(b.start, b.txs, x))
    ensures MergesOk(b, v')
  {
    hide Runs, Reached, At, Apply;
    DoneSnoc(v.order, x);
    assert x !in v.order by { assert x !in Done(v.order); }
    StepReached(b.start, b.txs, v.world, Done(v.order), x);
  }

  /** The changelog after a merge. */
  lemma ClosedAfterMerge(s: Sys, id: Tid)
    requires MvccRun.Inv(s) && id in s.kids && Mergeable(s.kids[id], s.root)
    ensures var (s', deps) := CheckAndUpdate(s, id);
            deps.Some? && s'.log == s.log + [CommitOf(s.kids[id])] && s'.root.tid == s.root.tid &&
            MvccRun.Inv(Close(s', id)) && Close(s', id).kids == s.kids - {id}
  {
    CheckAndUpdateInv(s, id);
    var s' := CheckAndUpdate(s, id).0;
    CloseInv(s', id);
    hide MvccRun.Inv, Mergeable, DirtyItems;
    assert Close(s', id).kids == s.kids - {id};
  }

  /** A merge is reported good exactly when no account in the table was merged since `Prepare`; otherwise nothing changes. */
  lemma MergeStepExact(b: Block, v: Verifier, x: nat, o: Outcome)
    requires x < |b.txs| && b.txs[x].id in v.sys.kids && MvccRun.Inv(v.sys)
    ensures var kid := v.sys.kids[b.txs[x].id]; var (v', ok) := MergeStep(b, v, x, o);
            (ok <==> forall a :: a in kid.values ==> !WrittenSince(v.sys.log, kid.preparing, a)) && (!ok ==> v' == v) &&
            (ok ==> v'.order == v.order + [x] && v'.world == Apply(v.world, b.txs[x].id, o) && b.txs[x].id !in v'.sys.kids)
  {
    hide MvccRun.Inv, WrittenSince, Mergeable, Apply;
    MergeableExact(v.sys, b.txs[x].id);
  }

  /** A merge succeeds and keeps the invariant. */
  lemma MergeStepInv(b: Block, v: Verifier, x: nat)
    requires VInv(b, v) && Executed(b, v, x)
    ensures var o := b.txs[x].run(v.phase[x].snap.accounts).value;
            MergeStep(b, v, x, o).1 && VInv(b, MergeStep(b, v, x, o).0)
  {
    hide Runs, MvccRun.Inv, G.Sound, D.Inv, Reached, Ready, Owned, WellPacked, MergesOk, RunningOk, CheckAndUpdate, CommitOf, Mergeable, Apply;
    Packed(b);
    MergeSucceeds(b, v, x);
    var id, o := b.txs[x].id, b.txs[x].run(v.phase[x].snap.accounts).value;
    ClosedAfterMerge(v.sys, id);
    TakenIsReady(b, v, x);
    var v' := MergeStep(b, v, x, o).0;
    MergesMore(b, v, v', x, CommitOf(v.sys.kids[id]));
    forall i | i in v'.sys.kids ensures Owned(b, v', i) { KeepsOwned(b, v, v', i); }
    forall y | y in v'.phase && v'.phase[y].Prepared? ensures RunningOk(b, v', y) {
      OtherId(b, x, y);
      StillRunning(b, v, v', y);
    }
  }

  // --- every run -------------------------------------------------------------------

  datatype Action =
    | DoTake | DoPrepare(x: nat) | DoTouch(x: nat, a: Addr) | DoReset(x: nat) | DoMerge(x: nat) | DoComplete(x: nat)

  /** A worker can do this next. */
  ghost predicate Enabled(b: Block, v: Verifier, act: Action)
  {
    match act
    case DoTake => v.disp.queueCh != []
    case DoPrepare(x) => x in v.phase && v.phase[x].Taken? && x < |b.txs|
    case DoTouch(x, _) => x in v.phase && v.phase[x].Prepared? && x < |b.txs| && b.txs[x].id in v.sys.kids
    case DoReset(x) => x in v.phase && v.phase[x].Prepared? && x < |b.txs| && b.txs[x].id in v.sys.kids
    case DoMerge(x) => Executed(b, v, x)
    case DoComplete(x) => x in v.phase && v.phase[x].Merged? && x in b.dag
  }

  /** The state after the step and whether it went without an error. */
  ghost function Do(b: Block, v: Verifier, act: Action): (Verifier, bool)
    requires Enabled(b, v, act)
  {
    match act
    case DoTake => (TakeStep(v), true)
    case DoPrepare(x) => (PrepareStep(b, v, x), b.txs[x].id !in v.sys.kids)
    case DoTouch(x, a) => TouchStep(b, v, x, a)
    case DoReset(x) => (ResetStep(b, v, x), true)
    case DoMerge(x) => MergeStep(b, v, x, b.txs[x].run(v.phase[x].snap.accounts).value)
    case DoComplete(x) => var (v', verdict) := CompleteStep(b, v, x); (v', verdict != D.Circular)
  }

  ghost predicate Leads(b: Block, v: Verifier, acts: seq<Action>, e: Verifier)
    decreases |acts|
  {
    if acts == [] then v == e else Enabled(b, v, acts[0]) && Leads(b, Do(b, v, acts[0]).0, acts[1..], e)
  }

  /** The step records an account and is refused. */
  ghost predicate RefusedTouch(b: Block, v: Verifier, act: Action)
    requires Runs(b.start, b.txs) && Enabled(b, v, act)
  {
    act.DoTouch? && Refused(b, v, act.x, act.a)
  }

  /** A step of verifying a well-packed block fails exactly when it is a refused touch, and every step keeps
      the invariant. */
  lemma StepOk(b: Block, v: Verifier, act: Action)
    requires VInv(b, v) && Enabled(b, v, act) && !G.HasCycle(b.dag)
    ensures (Do(b, v, act).1 <==> !RefusedTouch(b, v, act)) && VInv(b, Do(b, v, act).0)
  {
    hide Runs, RunningOk, MergesOk, PlacesOk, MvccRun.Inv, G.Sound, G.HasCycle, D.Inv, D.Complete, TakeStep, PrepareStep, TouchStep, ResetStep, MergeStep;
    match act
    case DoTake => TakeStepInv(b, v);
    case DoPrepare(x) => PrepareStepInv(b, v, x);
    case DoTouch(x, a) => TouchStepInv(b, v, x, a);
    case DoReset(x) => ResetStepInv(b, v, x);
    case DoMerge(x) => MergeStepInv(b, v, x);
    case DoComplete(x) =>
      RunningPlace(b, v, x);
      D.VerdictExact(b.dag, v.disp, x);
      CompleteStepInv(b, v, x);
  }

  lemma RunningPlace(b: Block, v: Verifier, x: nat)
    requires PlacesOk(b, v) && x in v.phase
    ensures x in v.disp.taken && x !in v.disp.done
  {
  }

  /** Every step of the run went without an error. */
  ghost predicate AllOk(b: Block, v: Verifier, acts: seq<Action>)
    decreases |acts|
  {
    acts == [] || (Enabled(b, v, acts[0]) && Do(b, v, acts[0]).1 && AllOk(b, Do(b, v, acts[0]).0, acts[1..]))
  }

  /** Somewhere in the run an account outside its transaction's footprint is recorded too late. */
  ghost predicate SomeRefused(b: Block, v: Verifier, acts: seq<Action>)
    requires Runs(b.start, b.txs)
    decreases |acts|
  {
    acts != [] && Enabled(b, v, acts[0]) && (RefusedTouch(b, v, acts[0]) || SomeRefused(b, Do(b, v, acts[0]).0, acts[1..]))
  }

  lemma {:induction false} RunOk(b: Block, v: Verifier, acts: seq<Action>, e: Verifier)
    requires VInv(b, v) && Leads(b, v, acts, e) && !G.HasCycle(b.dag)
    ensures (AllOk(b, v, acts) <==> !SomeRefused(b, v, acts)) && VInv(b, e)
    decreases |acts|
  {
    hide Do, Enabled, G.HasCycle, MergesOk, PlacesOk, RunningOk, Owned, RefusedTouch, Runs, MvccRun.Inv, D.Inv;
    if acts != [] {
      StepOk(b, v, acts[0]);
      RunOk(b, Do(b, v, acts[0]).0, acts[1..], e);
    }
  }

  /** The workers have nothing left: the queue is empty and no callback is running. */
  predicate Idle(v: Verifier)
  {
    v.disp.queueCh == [] && v.phase == map[]
  }

  /** When the workers have nothing left to do, every transaction has merged and the world state
      is that of packing order. */
  lemma IdleIsFinished(b: Block, v: Verifier)
    requires VInv(b, v) && !G.HasCycle(b.dag) && Idle(v)
    ensures v.world == After(b.start, b.txs, |b.txs|)
  {
    hide Runs, RunningOk, MvccRun.Inv, G.Sound, G.HasCycle, Owned, Reached, Ready;
    AllTakenDone(b.dag, v.disp);
    D.Stopped(b.dag, v.disp);
    D.WithinCapacity(b.dag, v.disp);
    forall i | 0 <= i < |b.txs| ensures i in Done(v.order) { assert i in b.dag; }
    AllReached(b.start, b.txs, v.world, Done(v.order));
  }

  lemma AllTakenDone(g: G.Nodes, d: D.State)
    requires D.Inv(g, d) && d.queueCh == [] && forall k :: k in d.taken ==> k in d.done
    ensures d.completedCounter == d.queueCounter
  {
    hide G.Sound, D.Ordered, G.Parents, Distinct;
    assert D.Queued(d) == d.taken;
    DistinctSize(d.taken);
    assert ToSet(d.taken) == d.done;
  }
}
