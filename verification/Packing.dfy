/** Packing a block (`core/block.go`, CollectTransactions): transactions run on snapshots in
    prepared changelog tables, in parallel, and merge optimistically; each merge appends the
    transaction to the block and records its last-committer dependencies in the graph. */
module Packing {
  import opened Prelude
  import opened StagingTable
  import opened MvccRun
  import opened Serial
  import G = Dag

  /** A transaction being executed: on the accounts as they were at its `Prepare`. */
  datatype Open = Open(tx: Tx, snap: Accounts)

  datatype Packer = Packer(sys: Sys, world: World, open: map<Tid, Open>, txs: seq<Tx>, dag: G.Nodes)

  /** A block just begun: its changelog may hold the coinbase already. */
  function Begin(sys: Sys, w: World): Packer
  {
    Packer(sys, w, map[], [], map[])
  }

  predicate Packed(txs: seq<Tx>, id: Tid)
  {
    exists i :: 0 <= i < |txs| && txs[i].id == id
  }

  /** Step 1: a changelog table and a snapshot of the world state. */
  function PrepareTx(p: Packer, tx: Tx): Packer
    requires tx.id !in p.sys.kids && tx.id != p.sys.root.tid && !Packed(p.txs, tx.id)
  {
    p.(sys := Prepare(p.sys, tx.id), open := p.open[tx.id := Open(tx, p.world.accounts)])
  }

  /** Drop a transaction that failed, conflicted or ran out of time. */
  function Abandon(p: Packer, id: Tid): Packer
  {
    p.(sys := Close(p.sys, id), open := p.open - {id})
  }

  /** Step 2: execution records every account it touches; a version conflict ends it. */
  function Touch(p: Packer, id: Tid, a: Addr): Packer
    requires id in p.open && id in p.sys.kids
  {
    var (sys, item) := Put(p.sys, map[], id, a, a);
    if item.Some? then p.(sys := sys) else Abandon(p.(sys := sys), id)
  }

  /** A failed execution resets the changelog. */
  function ResetTx(p: Packer, id: Tid): Packer
    requires id in p.open && id in p.sys.kids
  {
    p.(sys := Reset(p.sys, id))
  }

  /** The graph with the edges from `deps` to `to`, in any order. */
  ghost function AddEdges(g: G.Nodes, deps: set<Tid>, to: Tid): (h: G.Nodes)
    requires to in g && forall d :: d in deps ==> d in g
    ensures h.Keys == g.Keys
    ensures forall k :: k in h ==> h[k].index == g[k].index
    ensures forall a, b :: G.Edge(h, a, b) <==> G.Edge(g, a, b) || (a in deps && b == to)
    ensures G.Sound(g) && (forall d :: d in deps ==> !G.Edge(g, d, to)) ==> G.Sound(h)
    decreases deps
  {
    if deps == {} then g
    else
      var d :| d in deps;
      G.WithEdgeEdges(g, d, to);
      assert G.Sound(g) && !G.Edge(g, d, to) ==> G.Sound(G.WithEdge(g, d, to)) by {
        if G.Sound(g) && !G.Edge(g, d, to) { G.WithEdgeSound(g, d, to); }
      }
      AddEdges(G.WithEdge(g, d, to), deps - {d}, to)
  }

  /** Execution is over: the changelog holds exactly the accounts the outcome depends on. */
  ghost predicate Executed(p: Packer, id: Tid)
  {
    id in p.open && id in p.sys.kids &&
    var o := p.open[id].tx.run(p.open[id].snap);
    o.Some? && p.sys.kids[id].values.Keys == o.value.foot
  }

  /** Step 3: check, merge, append to the block and link in the graph. */
  ghost function Commit(p: Packer, id: Tid): Packer
    requires Executed(p, id)
    requires forall t :: t in Dependencies(p.sys.kids[id], p.sys.root) ==> t in p.dag
  {
    var (sys, deps) := CheckAndUpdate(p.sys, id);
    var tx := p.open[id].tx;
    var o := tx.run(p.open[id].snap).value;
    if deps.None? then Abandon(p, id)
    else
      var g := p.dag[id := G.NewNode(|p.txs|)];
      Abandon(Packer(sys, Apply(p.world, id, o), p.open, p.txs + [tx], AddEdges(g, deps.value, id)), id)
  }

  // --- the invariant ---------------------------------------------------------------

  /** The log of merges is the block, and every merge wrote the whole footprint. */
  ghost predicate LogOk(w: World, txs: seq<Tx>, log: seq<MvccRun.Commit>)
  {
    Runs(w, txs) && |log| == |txs| &&
    forall i :: 0 <= i < |txs| ==> log[i].tid == txs[i].id && log[i].writes == At(w, txs, i).foot
  }

  /** The open transaction's snapshot is packing order cut off at its `Prepare`. */
  ghost predicate OpenOk(w: World, p: Packer, id: Tid)
    requires id in p.open && id in p.sys.kids && Runs(w, p.txs)
  {
    var kid, op := p.sys.kids[id], p.open[id];
    kid.preparing <= |p.txs| && op.snap == After(w, p.txs, kid.preparing).accounts && op.tx.id == id &&
    !Packed(p.txs, id) && Local(op.tx.run) && forall k :: k in kid.values ==> kid.values[k].dirty
  }

  /** An edge leads from the last transaction before `j` that touched one of its accounts. */
  ghost predicate LastToucher(log: seq<MvccRun.Commit>, i: nat, j: nat)
    requires j < |log|
  {
    exists a :: a in log[j].writes && Last(log[..j], a) == i + 1
  }

  ghost predicate DagOk(txs: seq<Tx>, log: seq<MvccRun.Commit>, g: G.Nodes)
    requires |log| == |txs|
  {
    G.Sound(g) && (forall k :: k in g <==> Packed(txs, k)) &&
    (forall i :: 0 <= i < |txs| ==> txs[i].id in g && g[txs[i].id].index == i) &&
    forall i, j :: 0 <= i < |txs| && 0 <= j < |txs| ==>
      (G.Edge(g, txs[i].id, txs[j].id) <==> LastToucher(log, i, j))
  }

  ghost predicate PInv(w: World, p: Packer)
  {
    MvccRun.Inv(p.sys) && LogOk(w, p.txs, p.sys.log) && p.world == After(w, p.txs, |p.txs|) &&
    p.open.Keys == p.sys.kids.Keys && (forall id :: id in p.open ==> OpenOk(w, p, id)) &&
    DagOk(p.txs, p.sys.log, p.dag)
  }

  // --- a longer block --------------------------------------------------------------

  lemma {:induction false} AfterPrefix(w: World, txs: seq<Tx>, tx: Tx, i: nat)
    requires i <= |txs|
    ensures After(w, txs + [tx], i) == After(w, txs, i)
    decreases i
  {
    if i > 0 { AfterPrefix(w, txs, tx, i - 1); }
  }

  /** A block extended by a transaction that succeeds at its end. */
  lemma RunsMore(w: World, txs: seq<Tx>, tx: Tx)
    requires Runs(w, txs) && Local(tx.run) && tx.run(After(w, txs, |txs|).accounts).Some? && !Packed(txs, tx.id)
    ensures Runs(w, txs + [tx])
    ensures forall i :: 0 <= i < |txs| ==> At(w, txs + [tx], i) == At(w, txs, i)
    ensures At(w, txs + [tx], |txs|) == tx.run(After(w, txs, |txs|).accounts).value
    ensures After(w, txs + [tx], |txs| + 1) == Apply(After(w, txs, |txs|), tx.id, At(w, txs + [tx], |txs|))
  {
    hide After, Local;
    var more := txs + [tx];
    forall i | 0 <= i <= |txs| ensures After(w, more, i) == After(w, txs, i) { AfterPrefix(w, txs, tx, i); }
    assert Runs(w, more);
    AfterStep(w, more, |txs|);
  }

  // --- every step keeps the invariant ----------------------------------------------

  lemma BeginPacking(sys: Sys, w: World)
    requires Fresh(sys)
    ensures PInv(w, Begin(sys, w))
  {
  }

  lemma PrepareTxInv(w: World, p: Packer, tx: Tx)
    requires PInv(w, p) && Local(tx.run)
    requires tx.id !in p.sys.kids && tx.id != p.sys.root.tid && !Packed(p.txs, tx.id)
    ensures PInv(w, PrepareTx(p, tx))
  {
    hide Runs, After, Local, G.Sound;
    PrepareInv(p.sys, tx.id);
    var p' := PrepareTx(p, tx);
    assert MvccRun.Inv(p'.sys);
    SysGlobal(p.sys);
    forall id | id in p'.open ensures OpenOk(w, p', id) {
      if id != tx.id { assert OpenOk(w, p, id); }
    }
  }

  lemma SysGlobal(s: Sys)
    requires MvccRun.Inv(s)
    ensures s.root.globalVersion == |s.log|
  {
  }

  lemma AbandonInv(w: World, p: Packer, id: Tid)
    requires PInv(w, p)
    ensures PInv(w, Abandon(p, id))
  {
    hide Runs, After, Local, G.Sound;
    CloseInv(p.sys, id);
    var p' := Abandon(p, id);
    forall t | t in p'.open ensures OpenOk(w, p', t) { assert OpenOk(w, p, t); }
  }

  lemma ResetTxInv(w: World, p: Packer, id: Tid)
    requires PInv(w, p) && id in p.open
    ensures PInv(w, ResetTx(p, id))
  {
    hide Runs, After, Local, MvccRun.Inv, DagOk;
    ResetInv(p.sys, id);
    var p' := ResetTx(p, id);
    forall t | t in p'.open ensures OpenOk(w, p', t) { assert OpenOk(w, p, t); }
  }

  lemma TouchInv(w: World, p: Packer, id: Tid, a: Addr)
    requires PInv(w, p) && id in p.open
    ensures PInv(w, Touch(p, id, a))
  {
    hide Runs, After, Local, MvccRun.Inv, DagOk, PutIn, Put;
    PutExact(p.sys, map[], id, a, a);
    PutFrame(p.sys, map[], id, a, a);
    var (sys, item) := Put(p.sys, map[], id, a, a);
    var p' := p.(sys := sys);
    assert OpenOk(w, p, id);
    TouchedOpen(w, p, p', id, a);
    assert PInv(w, p');
    if item.None? { AbandonInv(w, p', id); }
  }

  lemma TouchedOpen(w: World, p: Packer, p': Packer, id: Tid, a: Addr)
    requires PInv(w, p) && id in p.open && id in p.sys.kids && p' == p.(sys := Put(p.sys, map[], id, a, a).0)
    ensures p'.open.Keys == p'.sys.kids.Keys && forall t :: t in p'.open ==> OpenOk(w, p', t)
  {
    hide Runs, After, Local, MvccRun.Inv, DagOk, PutIn, Put;
    PutExact(p.sys, map[], id, a, a);
    PutFrame(p.sys, map[], id, a, a);
    assert OpenOk(w, p, id);
    forall t | t in p'.open ensures OpenOk(w, p', t) { assert OpenOk(w, p, t); }
  }

  /** Recording an account that was merged since `Prepare`, and is not held yet, ends the execution; otherwise the account
      is held from now on. Nothing else changes. */
  lemma TouchExact(w: World, p: Packer, id: Tid, a: Addr)
    requires PInv(w, p) && id in p.open && id in p.sys.kids
    ensures var q, kid := Touch(p, id, a), p.sys.kids[id];
            q.world == p.world && q.txs == p.txs && q.dag == p.dag && q.sys.log == p.sys.log &&
            if a !in kid.values && WrittenSince(p.sys.log, kid.preparing, a)
            then q.open == p.open - {id} && q.sys.kids == p.sys.kids - {id}
            else q.open == p.open && id in q.sys.kids && q.sys.kids == p.sys.kids[id := q.sys.kids[id]] &&
                 q.sys.kids[id].values.Keys == kid.values.Keys + {a}
  {
    hide Runs, After, Local, MvccRun.Inv, DagOk, PutIn, Put, LogOk, OpenOk, WrittenSince;
    PutExact(p.sys, map[], id, a, a);
    PutFrame(p.sys, map[], id, a, a);
    var (sys, item) := Put(p.sys, map[], id, a, a);
    if item.None? { assert sys.kids - {id} == p.sys.kids - {id}; }
  }

  // --- commit ----------------------------------------------------------------------

  /** A transaction that merges would have done the same at the end of the block. */
  lemma SameAtEnd(w: World, p: Packer, id: Tid)
    requires PInv(w, p) && Executed(p, id) && Mergeable(p.sys.kids[id], p.sys.root)
    ensures p.open[id].tx.run(p.world.accounts) == p.open[id].tx.run(p.open[id].snap)
  {
    var kid, op := p.sys.kids[id], p.open[id];
    var n := |p.txs|;
    assert OpenOk(w, p, id);
    MergeableExact(p.sys, id);
    hide Runs, After, Local, MvccRun.Inv, DagOk, Last, Apply;
    forall a | a in op.tx.run(op.snap).value.foot ensures SameAccount(op.snap, p.world.accounts, a) {
      assert !WrittenSince(p.sys.log, kid.preparing, a);
      forall k | kid.preparing <= k < n ensures !Touches(w, p.txs, k, a) {
        assert a !in p.sys.log[k].writes;
      }
      Stable(w, p.txs, kid.preparing, n, a);
    }
    LocalAt(op.tx.run, op.snap, p.world.accounts);
  }

  /** Its dependencies are transactions of the block. */
  lemma DependenciesPacked(w: World, p: Packer, id: Tid)
    requires PInv(w, p) && id in p.open
    ensures forall t :: t in Dependencies(p.sys.kids[id], p.sys.root) ==> t in p.dag
  {
    hide LogOk, OpenOk, LastCommitter, MvccRun.Inv, Dependencies, Packed, LastToucher, G.Sound;
    forall t | t in Dependencies(p.sys.kids[id], p.sys.root) ensures t in p.dag {
      DependenciesExact(p.sys, id, t);
      var k :| k in p.sys.kids[id].values && LastCommitter(p.sys.log, k) == Some(t);
      CommitterPacked(w, p.txs, p.sys.log, k, t);
    }
  }

  /** Whoever merged an account last is in the block. */
  lemma CommitterPacked(w: World, txs: seq<Tx>, log: seq<MvccRun.Commit>, k: Key, t: Tid)
    requires LogOk(w, txs, log) && LastCommitter(log, k) == Some(t)
    ensures Packed(txs, t)
  {
    hide Runs;
    assert txs[Last(log, k) - 1].id == t;
  }

  lemma LastBound(log: seq<MvccRun.Commit>, k: Key)
    ensures Last(log, k) <= |log|
  {
  }

  /** Everything a table in this machine holds is dirty. */
  lemma AllDirty(w: World, p: Packer, id: Tid)
    requires PInv(w, p) && id in p.open
    ensures CommitOf(p.sys.kids[id]).writes == p.sys.kids[id].values.Keys && CommitOf(p.sys.kids[id]).tid == id
  {
    hide Runs, After, DagOk;
    assert OpenOk(w, p, id);
    assert KidOk(p.sys, id);
  }

  /** The transactions depended on are the last touchers of the accounts recorded. */
  lemma DepsAreLastTouchers(w: World, p: Packer, id: Tid, i: nat)
    requires PInv(w, p) && id in p.open && i < |p.txs|
    ensures var log := p.sys.log + [CommitOf(p.sys.kids[id])];
            p.txs[i].id in Dependencies(p.sys.kids[id], p.sys.root) <==> LastToucher(log, i, |p.txs|)
  {
    hide Runs, After, MvccRun.Inv, Last, DagOk;
    var n, t := |p.txs|, p.txs[i].id;
    var log := p.sys.log + [CommitOf(p.sys.kids[id])];
    assert log[..n] == p.sys.log;
    AllDirty(w, p, id);
    DependenciesExact(p.sys, id, t);
    if t in Dependencies(p.sys.kids[id], p.sys.root) {
      var k :| k in p.sys.kids[id].values && LastCommitter(p.sys.log, k) == Some(t);
      LastBound(p.sys.log, k);
      SameId(w, p.txs, Last(p.sys.log, k) - 1, i);
      assert k in log[n].writes && Last(log[..n], k) == i + 1;
    }
    if LastToucher(log, i, n) {
      var k :| k in log[n].writes && Last(log[..n], k) == i + 1;
      assert k in p.sys.kids[id].values && LastCommitter(p.sys.log, k) == Some(t);
    }
  }

  lemma SameId(w: World, txs: seq<Tx>, i: nat, j: nat)
    requires Runs(w, txs) && i < |txs| && j < |txs| && txs[i].id == txs[j].id
    ensures i == j
  {
  }

  lemma OldTouchers(log: seq<MvccRun.Commit>, c: MvccRun.Commit, i: nat, j: nat)
    requires j < |log|
    ensures LastToucher(log + [c], i, j) <==> LastToucher(log, i, j)
    ensures LastToucher(log, i, j) ==> i < j
  {
    assert (log + [c])[..j] == log[..j];
    assert forall a :: Last(log[..j], a) <= j;
  }

  /** The graph with a fresh, unconnected node. */
  lemma FreshNode(g: G.Nodes, id: Tid, n: nat)
    requires G.Sound(g) && id !in g
    ensures var h := g[id := G.NewNode(n)];
            G.Sound(h) && (forall a, b :: G.Edge(h, a, b) <==> G.Edge(g, a, b)) && forall a :: !G.Edge(h, a, id) && !G.Edge(h, id, a)
  {
    G.AddNodeSound(g, id, n);
    var h := g[id := G.NewNode(n)];
    assert forall a, b :: G.Edge(h, a, b) <==> G.Edge(g, a, b);
    assert forall a :: G.Edge(g, a, id) ==> id in g;
  }

  /** The graph after a commit. */
  lemma CommitDag(w: World, p: Packer, id: Tid)
    requires PInv(w, p) && id in p.open && (forall t :: t in Dependencies(p.sys.kids[id], p.sys.root) ==> t in p.dag)
    ensures var tx := p.open[id].tx; var log := p.sys.log + [CommitOf(p.sys.kids[id])];
            var g := AddEdges(p.dag[id := G.NewNode(|p.txs|)], Dependencies(p.sys.kids[id], p.sys.root), id);
            DagOk(p.txs + [tx], log, g)
  {
    hide Runs, After, Local, MvccRun.Inv, Last, G.Sound, G.Edge, LastToucher, Dependencies, CommitOf, AddEdges, Packed, OpenOk, LogOk;
    OpenFacts(w, p, id);
    var n, deps, tx := |p.txs|, Dependencies(p.sys.kids[id], p.sys.root), p.open[id].tx;
    var log, txs := p.sys.log + [CommitOf(p.sys.kids[id])], p.txs + [tx];
    FreshNode(p.dag, id, n);
    var g := AddEdges(p.dag[id := G.NewNode(n)], deps, id);
    PackedMore(p.txs, tx);
    forall i | 0 <= i < |txs| ensures txs[i].id in g && g[txs[i].id].index == i {
      if i < n { assert p.txs[i].id in p.dag; }
    }
    forall i, j | 0 <= i < |txs| && 0 <= j < |txs|
      ensures G.Edge(g, txs[i].id, txs[j].id) <==> LastToucher(log, i, j)
    {
      CommitEdge(w, p, id, g, i, j);
    }
  }

  lemma PackedMore(txs: seq<Tx>, tx: Tx)
    ensures forall id :: Packed(txs + [tx], id) <==> Packed(txs, id) || id == tx.id
  {
    var more := txs + [tx];
    assert more[|txs|] == tx;
    forall id | Packed(txs, id) ensures Packed(more, id) {
      var i :| 0 <= i < |txs| && txs[i].id == id;
      assert more[i].id == id;
    }
  }

  lemma CommitEdge(w: World, p: Packer, id: Tid, g: G.Nodes, i: nat, j: nat)
    requires PInv(w, p) && id in p.open && i <= |p.txs| && j <= |p.txs|
    requires forall a, b :: G.Edge(g, a, b) <==>
               G.Edge(p.dag, a, b) || (a in Dependencies(p.sys.kids[id], p.sys.root) && b == id)
    requires forall t :: t in Dependencies(p.sys.kids[id], p.sys.root) ==> t in p.dag
    ensures var txs, log := p.txs + [p.open[id].tx], p.sys.log + [CommitOf(p.sys.kids[id])];
            G.Edge(g, txs[i].id, txs[j].id) <==> LastToucher(log, i, j)
  {
    hide Runs, After, Local, MvccRun.Inv, Last, Dependencies, CommitOf, OpenOk, LogOk, Packed, G.Edge, G.Sound, LastToucher;
    OpenFacts(w, p, id);
    var n, c := |p.txs|, CommitOf(p.sys.kids[id]);
    var txs, log := p.txs + [p.open[id].tx], p.sys.log + [c];
    if j < n {
      assert txs[j] == p.txs[j] && txs[j].id in p.dag;
      OldTouchers(p.sys.log, c, i, j);
      if i == n { NoEdgeInto(p.dag, txs[j].id, id); }
    } else if i < n {
      DepsAreLastTouchers(w, p, id, i);
      NoEdgeInto(p.dag, txs[i].id, id);
    } else {
      LastTouchersEarlier(log, n);
      NoEdgeInto(p.dag, id, id);
    }
  }

  lemma NoEdgeInto(g: G.Nodes, a: Tid, b: Tid)
    requires G.Sound(g) && b !in g
    ensures !G.Edge(g, a, b) && !G.Edge(g, b, a)
  {
  }

  lemma LastTouchersEarlier(log: seq<MvccRun.Commit>, n: nat)
    requires n < |log|
    ensures !LastToucher(log, n, n)
  {
  }

  lemma MergeResult(s: Sys, id: Tid)
    requires MvccRun.Inv(s) && id in s.kids
    ensures var (s', deps) := CheckAndUpdate(s, id);
            if Mergeable(s.kids[id], s.root)
            then deps == Some(Dependencies(s.kids[id], s.root)) && s'.log == s.log + [CommitOf(s.kids[id])] &&
                 MvccRun.Inv(Close(s', id)) && Close(s', id).kids == s.kids - {id}
            else deps == None && s' == s
  {
    CheckAndUpdateInv(s, id);
    var s' := CheckAndUpdate(s, id).0;
    CloseInv(s', id);
    hide MvccRun.Inv, Mergeable, Merged;
    if Mergeable(s.kids[id], s.root) {
      assert Close(s', id).kids == s.kids - {id};
    }
  }

  /** The other open transactions do not notice a commit. */
  lemma OthersOpen(w: World, p: Packer, p': Packer, id: Tid, t: Tid)
    requires PInv(w, p) && id in p.open && t in p.open && t != id && Runs(w, p'.txs)
    requires p'.txs == p.txs + [p.open[id].tx] && p'.open == p.open - {id} && p'.sys.kids == p.sys.kids - {id}
    ensures OpenOk(w, p', t)
  {
    hide After, Local, MvccRun.Inv, DagOk, Runs;
    assert OpenOk(w, p, t) && OpenOk(w, p, id);
    AfterPrefix(w, p.txs, p.open[id].tx, p.sys.kids[t].preparing);
    PackedMore(p.txs, p.open[id].tx);
  }

  lemma LogMore(w: World, p: Packer, id: Tid)
    requires PInv(w, p) && Executed(p, id) && Mergeable(p.sys.kids[id], p.sys.root)
    ensures var tx := p.open[id].tx; var txs := p.txs + [tx]; var o := tx.run(p.open[id].snap).value;
            LogOk(w, txs, p.sys.log + [CommitOf(p.sys.kids[id])]) && Apply(p.world, id, o) == After(w, txs, |txs|)
  {
    hide After, Local, MvccRun.Inv, DagOk, Runs, CommitOf, LogOk, Mergeable, OpenOk;
    SameAtEnd(w, p, id);
    AllDirty(w, p, id);
    OpenFacts(w, p, id);
    var tx := p.open[id].tx;
    RunsMore(w, p.txs, tx);
    LogSnoc(w, p.txs, tx, p.sys.log, CommitOf(p.sys.kids[id]));
  }

  lemma OpenFacts(w: World, p: Packer, id: Tid)
    requires PInv(w, p) && id in p.open
    ensures Runs(w, p.txs) && p.open[id].tx.id == id && Local(p.open[id].tx.run) && !Packed(p.txs, id)
    ensures id !in p.dag && |p.sys.log| == |p.txs| && id in p.sys.kids
  {
    assert OpenOk(w, p, id);
  }

  lemma LogSnoc(w: World, txs: seq<Tx>, tx: Tx, log: seq<MvccRun.Commit>, c: MvccRun.Commit)
    requires LogOk(w, txs, log) && Runs(w, txs + [tx]) && c.tid == tx.id
    requires forall i :: 0 <= i < |txs| ==> At(w, txs + [tx], i) == At(w, txs, i)
    requires c.writes == At(w, txs + [tx], |txs|).foot
    ensures LogOk(w, txs + [tx], log + [c])
  {
    hide At, Runs;
  }

  /** A successful merge appends a transaction that runs at the end of the block, and links it. */
  lemma CommitInv(w: World, p: Packer, id: Tid)
    requires PInv(w, p) && Executed(p, id)
    ensures (forall t :: t in Dependencies(p.sys.kids[id], p.sys.root) ==> t in p.dag) && PInv(w, Commit(p, id))
  {
    hide Runs, After, Local, MvccRun.Inv, DagOk, LogOk, OpenOk, Apply, CheckAndUpdate, AddEdges, Mergeable;
    DependenciesPacked(w, p, id);
    MergeResult(p.sys, id);
    if Mergeable(p.sys.kids[id], p.sys.root) {
      LogMore(w, p, id);
      CommitDag(w, p, id);
      CommitOpen(w, p, Commit(p, id), id);
    } else {
      AbandonInv(w, p, id);
    }
  }

  /** A merge that meets a conflict drops the transaction and leaves the block; one that does not appends it, with its
      outcome merged into the world. */
  lemma CommitOutcome(w: World, p: Packer, id: Tid)
    requires PInv(w, p) && Executed(p, id)
    ensures (forall t :: t in Dependencies(p.sys.kids[id], p.sys.root) ==> t in p.dag)
    ensures var q, kid := Commit(p, id), p.sys.kids[id];
            q.open == p.open - {id} && q.sys.kids == p.sys.kids - {id} &&
            if exists a :: a in kid.values && WrittenSince(p.sys.log, kid.preparing, a)
            then q.world == p.world && q.txs == p.txs && q.dag == p.dag && q.sys.log == p.sys.log
            else q.txs == p.txs + [p.open[id].tx] && |q.sys.log| == |p.sys.log| + 1
  {
    hide Runs, After, Local, MvccRun.Inv, DagOk, LogOk, OpenOk, Apply, CheckAndUpdate, AddEdges, Mergeable, WrittenSince, CommitOf;
    DependenciesPacked(w, p, id);
    MergeResult(p.sys, id);
    MergeableExact(p.sys, id);
  }

  lemma CommitOpen(w: World, p: Packer, p': Packer, id: Tid)
    requires PInv(w, p) && id in p.open && LogOk(w, p'.txs, p'.sys.log)
    requires p'.txs == p.txs + [p.open[id].tx] && p'.open == p.open - {id} && p'.sys.kids == p.sys.kids - {id}
    ensures p'.open.Keys == p'.sys.kids.Keys && Runs(w, p'.txs) && |p'.sys.log| == |p'.txs|
    ensures forall t :: t in p'.open ==> OpenOk(w, p', t)
  {
    hide Runs, OpenOk, MvccRun.Inv, DagOk;
    forall t | t in p'.open ensures OpenOk(w, p', t) { OthersOpen(w, p, p', id, t); }
  }
  // --- every run -------------------------------------------------------------------

  datatype Action =
    | DoOpen(tx: Tx) | DoTouch(id: Tid, a: Addr) | DoResetTx(id: Tid) | DoAbandon(id: Tid) | DoCommit(id: Tid)

  /** The action is possible in this state. */
  ghost predicate Enabled(p: Packer, act: Action)
  {
    match act
    case DoOpen(tx) => Local(tx.run) && tx.id !in p.sys.kids && tx.id != p.sys.root.tid && !Packed(p.txs, tx.id)
    case DoTouch(id, _) => id in p.open && id in p.sys.kids
    case DoResetTx(id) => id in p.open && id in p.sys.kids
    case DoAbandon(_) => true
    case DoCommit(id) =>
      Executed(p, id) && forall t :: t in Dependencies(p.sys.kids[id], p.sys.root) ==> t in p.dag
  }

  ghost function Do(p: Packer, act: Action): Packer
    requires Enabled(p, act)
  {
    match act
    case DoOpen(tx) => PrepareTx(p, tx)
    case DoTouch(id, a) => Touch(p, id, a)
    case DoResetTx(id) => ResetTx(p, id)
    case DoAbandon(id) => Abandon(p, id)
    case DoCommit(id) => Commit(p, id)
  }

  /** `q` is reached from `p` by some sequence of actions of the packing workers. */
  ghost predicate Leads(p: Packer, acts: seq<Action>, q: Packer)
    decreases |acts|
  {
    if acts == [] then p == q else Enabled(p, acts[0]) && Leads(Do(p, acts[0]), acts[1..], q)
  }

  lemma ActionInv(w: World, p: Packer, act: Action)
    requires PInv(w, p) && Enabled(p, act)
    ensures PInv(w, Do(p, act))
  {
    hide PInv, Touch, Commit, PrepareTx, ResetTx, Abandon;
    match act
    case DoOpen(tx) => PrepareTxInv(w, p, tx);
    case DoTouch(id, a) => TouchInv(w, p, id, a);
    case DoResetTx(id) => ResetTxInv(w, p, id);
    case DoAbandon(id) => AbandonInv(w, p, id);
    case DoCommit(id) => CommitInv(w, p, id);
  }

  lemma {:induction false} LeadsInv(w: World, p: Packer, acts: seq<Action>, q: Packer)
    requires PInv(w, p) && Leads(p, acts, q)
    ensures PInv(w, q)
    decreases |acts|
  {
    if acts != [] {
      ActionInv(w, p, acts[0]);
      LeadsInv(w, Do(p, acts[0]), acts[1..], q);
    }
  }

  lemma PackedWorld(w: World, p: Packer)
    requires PInv(w, p)
    ensures Runs(w, p.txs) && p.world == After(w, p.txs, |p.txs|)
  {
  }

  /** However the packing workers interleave, the packed world state is that of running the
      block's transactions one after the other in the order they were appended. */
  lemma PackingIsSerial(sys: Sys, w: World, acts: seq<Action>, q: Packer)
    requires Fresh(sys) && Leads(Begin(sys, w), acts, q)
    ensures Runs(w, q.txs) && q.world == After(w, q.txs, |q.txs|) && Leaves(w, q.txs, |q.txs|, q.world)
  {
    hide PInv, Runs, After, Leaves, Leads;
    BeginPacking(sys, w);
    LeadsInv(w, Begin(sys, w), acts, q);
    PackedWorld(w, q);
    BlockLeaves(w, q.txs, |q.txs|);
  }

  // --- the graph carries all conflicts ---------------------------------------------

  /** The last transaction before `j` that touched `a`, and its edge to `j`. */
  lemma PreviousToucher(w: World, txs: seq<Tx>, log: seq<MvccRun.Commit>, g: G.Nodes, i: nat, j: nat, a: Addr) returns (l: nat)
    requires LogOk(w, txs, log) && DagOk(txs, log, g) && i < j < |txs|
    requires Touches(w, txs, i, a) && Touches(w, txs, j, a)
    ensures i <= l < j && Touches(w, txs, l, a) && G.Edge(g, txs[l].id, txs[j].id)
  {
    hide Runs, DagOk, Last, Touches, LogOk;
    LogTouches(w, txs, log, i, a);
    LogTouches(w, txs, log, j, a);
    LastBetween(log, i, j, a);
    l := Last(log[..j], a) - 1;
    LogTouches(w, txs, log, l, a);
    assert LastToucher(log, l, j);
    DagEdge(txs, log, g, l, j);
  }

  lemma LastBetween(log: seq<MvccRun.Commit>, i: nat, j: nat, a: Addr)
    requires i < j <= |log| && a in log[i].writes
    ensures i < Last(log[..j], a) <= j && a in log[Last(log[..j], a) - 1].writes
  {
  }

  lemma LogTouches(w: World, txs: seq<Tx>, log: seq<MvccRun.Commit>, k: nat, a: Addr)
    requires LogOk(w, txs, log) && k < |txs|
    ensures |log| == |txs| && Runs(w, txs) && (a in log[k].writes <==> Touches(w, txs, k, a))
  {
  }

  lemma DagEdge(txs: seq<Tx>, log: seq<MvccRun.Commit>, g: G.Nodes, i: nat, j: nat)
    requires |log| == |txs| && DagOk(txs, log, g) && i < |txs| && j < |txs|
    ensures G.Edge(g, txs[i].id, txs[j].id) <==> LastToucher(log, i, j)
  {
  }

  /** Two transactions with overlapping footprints are joined by a path in the graph. */
  lemma {:induction false} ConflictsAreLinked(w: World, txs: seq<Tx>, log: seq<MvccRun.Commit>, g: G.Nodes, i: nat, j: nat, a: Addr)
    requires LogOk(w, txs, log) && DagOk(txs, log, g) && i < j < |txs|
    requires Touches(w, txs, i, a) && Touches(w, txs, j, a)
    ensures G.Reaches(g, txs[i].id, txs[j].id)
    decreases j
  {
    hide DagOk, G.Edge, G.Reaches, Touches, Runs;
    var l := PreviousToucher(w, txs, log, g, i, j, a);
    if l == i {
      OneEdge(g, txs[i].id, txs[j].id);
    } else {
      ConflictsAreLinked(w, txs, log, g, i, l, a);
      PathMore(g, txs[i].id, txs[l].id, txs[j].id);
    }
  }

  lemma OneEdge(g: G.Nodes, a: Tid, b: Tid)
    requires G.Edge(g, a, b)
    ensures G.Reaches(g, a, b)
  {
    var p := [a, b];
    assert p[0] == a && p[|p| - 1] == b && G.Walk(g, p);
  }

  lemma PathMore(g: G.Nodes, a: Tid, b: Tid, c: Tid)
    requires G.Reaches(g, a, b) && G.Edge(g, b, c)
    ensures G.Reaches(g, a, c)
  {
    var p :| |p| >= 2 && p[0] == a && p[|p| - 1] == b && G.Walk(g, p);
    var q := p + [c];
    forall i | 0 <= i < |q| - 1 ensures G.Edge(g, q[i], q[i + 1]) {
      if i < |p| - 1 { assert G.Edge(g, p[i], p[i + 1]); }
    }
    assert q[0] == a && q[|q| - 1] == c && G.Walk(g, q);
  }
}
