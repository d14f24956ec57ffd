/** A late recording on a block that packing produced: the packing worker recorded the account, dropped it, and
    merged; a verifying worker that records it again, after another worker has merged it, is refused. */
module Refusal {
  import opened Prelude
  import opened StagingTable
  import opened MvccRun
  import opened Serial
  import G = Dag
  import D = Dispatcher
  import P = Packing
  import V = BlockVerify
  import R = Recording
  import E = EndToEnd

  /** A transaction that does the same on every state. */
  function Steady(id: Tid, o: Outcome): Tx
  {
    Tx(id, s => Some(o))
  }

  predicate Contained(o: Outcome)
  {
    o.writes.Keys <= o.foot && o.gas.Keys <= o.foot
  }

  // --- packing it alone --------------------------------------------------------------

  lemma {:induction false} LeadsOn(p: P.Packer, acts: seq<P.Action>, m: P.Packer, more: seq<P.Action>, q: P.Packer)
    requires P.Leads(p, acts, m) && P.Leads(m, more, q)
    ensures P.Leads(p, acts + more, q)
    decreases |acts|
  {
    hide P.Enabled, P.Do;
    if acts == [] {
      assert acts + more == more;
    } else {
      assert (acts + more)[0] == acts[0] && (acts + more)[1..] == acts[1..] + more;
      LeadsOn(P.Do(p, acts[0]), acts[1..], m, more, q);
    }
  }

  lemma OneStep(p: P.Packer, act: P.Action)
    requires P.Enabled(p, act)
    ensures P.Leads(p, [act], P.Do(p, act))
  {
    hide P.Enabled, P.Do;
    assert [act][1..] == [];
  }

  /** `q` differs from `p` in the table of `id`, which is of the present version. */
  ghost predicate TableOnly(p: P.Packer, q: P.Packer, id: Tid)
  {
    q == p.(sys := q.sys) && q.sys.log == p.sys.log && q.sys.root.tid == p.sys.root.tid && id in p.sys.kids && id in q.sys.kids &&
    q.sys.kids.Keys == p.sys.kids.Keys && q.sys.kids[id].preparing == p.sys.kids[id].preparing
  }

  ghost predicate Current(p: P.Packer, id: Tid)
  {
    id in p.open && id in p.sys.kids && p.sys.kids[id].preparing == |p.sys.log|
  }

  ghost function Held(p: P.Packer, id: Tid): set<Addr>
    requires id in p.sys.kids
  {
    p.sys.kids[id].values.Keys
  }

  /** Nothing has merged since: recording any account succeeds. */
  lemma TouchCurrent(w: World, p: P.Packer, id: Tid, a: Addr)
    requires P.PInv(w, p) && Current(p, id)
    ensures P.Enabled(p, P.DoTouch(id, a))
    ensures var q := P.Do(p, P.DoTouch(id, a));
            P.PInv(w, q) && TableOnly(p, q, id) && Current(q, id) && Held(q, id) == Held(p, id) + {a}
  {
    P.ActionInv(w, p, P.DoTouch(id, a));
    hide Runs, After, Local, MvccRun.Inv, P.DagOk, P.LogOk, P.OpenOk, PutIn, Put;
    PutExact(p.sys, map[], id, a, a);
    PutFrame(p.sys, map[], id, a, a);
    assert !WrittenSince(p.sys.log, |p.sys.log|, a);
  }

  lemma {:induction false} TouchAll(w: World, p: P.Packer, id: Tid, todo: set<Addr>) returns (acts: seq<P.Action>, q: P.Packer)
    requires P.PInv(w, p) && Current(p, id)
    ensures P.Leads(p, acts, q) && P.PInv(w, q) && TableOnly(p, q, id) && Current(q, id)
    ensures Held(q, id) == Held(p, id) + todo
    decreases |todo|
  {
    hide P.PInv, P.Do, P.Enabled, P.Leads, TableOnly, Held;
    if todo == {} {
      acts, q := [], p;
      Same(p, id);
      assert Held(p, id) == Held(p, id) + todo;
    } else {
      var a :| a in todo;
      TouchCurrent(w, p, id, a);
      OneStep(p, P.DoTouch(id, a));
      var m := P.Do(p, P.DoTouch(id, a));
      var more: seq<P.Action>;
      more, q := TouchAll(w, m, id, todo - {a});
      LeadsOn(p, [P.DoTouch(id, a)], m, more, q);
      acts := [P.DoTouch(id, a)] + more;
      Twice(p, m, q, id);
      assert Held(p, id) + {a} + (todo - {a}) == Held(p, id) + todo;
    }
  }

  lemma Same(p: P.Packer, id: Tid)
    requires id in p.sys.kids
    ensures TableOnly(p, p, id) && P.Leads(p, [], p)
  {
  }

  lemma Twice(p: P.Packer, m: P.Packer, q: P.Packer, id: Tid)
    requires TableOnly(p, m, id) && TableOnly(m, q, id)
    ensures TableOnly(p, q, id)
  {
  }

  /** Nothing is open, and the id is new. */
  ghost predicate Free(p: P.Packer, id: Tid)
  {
    p.open == map[] && id != p.sys.root.tid && !P.Packed(p.txs, id)
  }

  lemma Opens(w: World, p: P.Packer, tx: Tx)
    requires P.PInv(w, p) && Free(p, tx.id) && Local(tx.run)
    ensures P.Enabled(p, P.DoOpen(tx))
    ensures var q := P.Do(p, P.DoOpen(tx));
            P.PInv(w, q) && Current(q, tx.id) && q.open == map[tx.id := P.Open(tx, p.world.accounts)] && q.txs == p.txs && q.sys.root.tid == p.sys.root.tid
  {
    hide Runs, After, Local, P.DagOk, P.LogOk, P.OpenOk;
    assert p.sys.kids.Keys == {};
    P.ActionInv(w, p, P.DoOpen(tx));
    P.SysGlobal(p.sys);
  }

  lemma Resets(w: World, p: P.Packer, id: Tid)
    requires P.PInv(w, p) && Current(p, id)
    ensures P.Enabled(p, P.DoResetTx(id))
    ensures var q := P.Do(p, P.DoResetTx(id)); P.PInv(w, q) && TableOnly(p, q, id) && Current(q, id) && Held(q, id) == {}
  {
    hide P.PInv;
    P.ActionInv(w, p, P.DoResetTx(id));
    assert P.ResetTx(p, id).sys.kids.Keys == p.sys.kids.Keys;
  }

  lemma Commits(w: World, p: P.Packer, id: Tid)
    requires P.PInv(w, p) && Current(p, id) && P.Executed(p, id) && p.open.Keys == {id}
    ensures P.Enabled(p, P.DoCommit(id))
    ensures var q := P.Do(p, P.DoCommit(id)); P.PInv(w, q) && q.open == map[] && q.txs == p.txs + [p.open[id].tx] && q.sys.root.tid == p.sys.root.tid
  {
    hide P.PInv, MvccRun.Inv, P.AddEdges, Apply, Mergeable;
    P.CommitInv(w, p, id);
    NothingToConflict(w, p, id);
    assert P.Do(p, P.DoCommit(id)).open == map[];
  }

  lemma NothingToConflict(w: World, p: P.Packer, id: Tid)
    requires P.PInv(w, p) && Current(p, id)
    ensures Mergeable(p.sys.kids[id], p.sys.root)
  {
    hide MvccRun.Inv, P.LogOk, P.OpenOk, P.DagOk;
    MergeableExact(p.sys, id);
  }

  /** A packing worker runs one transaction: it records `stray`, starts over, records what it keeps, and merges. */
  lemma PackOne(w: World, p: P.Packer, id: Tid, o: Outcome, stray: Addr) returns (acts: seq<P.Action>, q: P.Packer)
    requires P.PInv(w, p) && Free(p, id) && Contained(o)
    ensures P.Leads(p, acts, q) && P.PInv(w, q) && q.open == map[] && q.txs == p.txs + [Steady(id, o)] && q.sys.root.tid == p.sys.root.tid
    ensures P.DoTouch(id, stray) in acts
  {
    hide P.PInv, P.Do, P.Enabled, P.Leads;
    var tx := Steady(id, o);
    Opens(w, p, tx);
    OneStep(p, P.DoOpen(tx));
    var p1 := P.Do(p, P.DoOpen(tx));
    TouchCurrent(w, p1, id, stray);
    OneStep(p1, P.DoTouch(id, stray));
    var p2 := P.Do(p1, P.DoTouch(id, stray));
    LeadsOn(p, [P.DoOpen(tx)], p1, [P.DoTouch(id, stray)], p2);
    Resets(w, p2, id);
    OneStep(p2, P.DoResetTx(id));
    var p3 := P.Do(p2, P.DoResetTx(id));
    LeadsOn(p, [P.DoOpen(tx)] + [P.DoTouch(id, stray)], p2, [P.DoResetTx(id)], p3);
    var touches, p4 := TouchAll(w, p3, id, o.foot);
    LeadsOn(p, [P.DoOpen(tx)] + [P.DoTouch(id, stray)] + [P.DoResetTx(id)], p3, touches, p4);
    Commits(w, p4, id);
    OneStep(p4, P.DoCommit(id));
    q := P.Do(p4, P.DoCommit(id));
    var before := [P.DoOpen(tx)] + [P.DoTouch(id, stray)] + [P.DoResetTx(id)] + touches;
    LeadsOn(p, before, p4, [P.DoCommit(id)], q);
    acts := before + [P.DoCommit(id)];
    assert acts[1] == P.DoTouch(id, stray);
  }

  // --- the block of two --------------------------------------------------------------

  /** Two nodes and no edge. */
  function Apart(): G.Nodes
  {
    map[0 := G.NewNode(0), 1 := G.NewNode(1)]
  }

  lemma ApartSound()
    ensures G.Sound(Apart()) && (forall a, b :: !G.Edge(Apart(), a, b)) && forall i: nat :: i in Apart() <==> i < 2
  {
    var g := Apart();
    forall k | k in g ensures g[k].parentCounter == |G.Parents(g, k)| { assert G.Parents(g, k) == {}; }
  }

  lemma NoPath(g: G.Nodes, a: Tid, b: Tid)
    requires forall a, b :: !G.Edge(g, a, b)
    ensures !G.Reaches(g, a, b)
  {
    forall p | |p| >= 2 && p[0] == a && p[|p| - 1] == b ensures !G.Walk(g, p) {
      assert !G.Edge(g, p[0], p[0 + 1]);
    }
  }

  lemma NoEdges(w: World, p: P.Packer, o0: Outcome, o1: Outcome)
    requires P.PInv(w, p) && |p.txs| == 2 && p.txs[0] == Steady(p.txs[0].id, o0) && p.txs[1] == Steady(p.txs[1].id, o1) && o0.foot !! o1.foot
    ensures E.ByNumber(p, Apart()) && Runs(w, p.txs) && At(w, p.txs, 0) == o0 && At(w, p.txs, 1) == o1
  {
    hide Runs, MvccRun.Inv, P.OpenOk, Last, After, G.Sound, G.Edge, P.DagOk, P.LogOk;
    ApartSound();
    E.DagFacts(w, p);
    Outcomes(w, p, o0, 0);
    Outcomes(w, p, o1, 1);
    forall i, j | 0 <= i < |p.txs| && 0 <= j < |p.txs| ensures !G.Edge(p.dag, p.txs[i].id, p.txs[j].id) {
      P.DagEdge(p.txs, p.sys.log, p.dag, i, j);
      SharedAccount(p.sys.log, i, j);
    }
  }

  lemma Outcomes(w: World, p: P.Packer, o: Outcome, i: nat)
    requires P.PInv(w, p) && i < |p.txs| && p.txs[i] == Steady(p.txs[i].id, o)
    ensures Runs(w, p.txs) && At(w, p.txs, i) == o && |p.sys.log| == |p.txs| && p.sys.log[i].writes == o.foot
  {
    hide MvccRun.Inv, P.OpenOk, After, P.DagOk;
  }

  /** An edge comes from an account both have. */
  lemma SharedAccount(log: seq<MvccRun.Commit>, i: nat, j: nat)
    requires j < |log|
    ensures P.LastToucher(log, i, j) ==> i < j && exists a :: a in log[i].writes && a in log[j].writes
  {
    if a :| a in log[j].writes && Last(log[..j], a) == i + 1 {
      assert a in log[..j][i].writes;
    }
  }

  function Setup(sys: Sys, w: World): V.Verifier
  {
    V.Verifier(D.State(map[0 := 0, 1 := 0], [0, 1], 2, 0, [], {}), sys, w, map[], [])
  }

  /** Any two transactions that keep different accounts, the first of which also records, and drops, an account
      the second keeps: packing them one after the other succeeds, and two verifying workers can be refused. */
  lemma PackedThenRefused(sys: Sys, w: World, id0: Tid, o0: Outcome, id1: Tid, o1: Outcome, a: Addr)
      returns (packing: seq<P.Action>, packed: P.Packer, verifying: seq<V.Action>, end: V.Verifier)
    requires Fresh(sys) && id0 != sys.root.tid && id1 != sys.root.tid && id0 != id1
    requires Contained(o0) && Contained(o1) && o0.foot !! o1.foot && a in o1.foot
    ensures P.Leads(P.Begin(sys, w), packing, packed) && packed.txs == [Steady(id0, o0), Steady(id1, o1)] && P.DoTouch(id0, a) in packing
    ensures E.ByNumber(packed, Apart()) && Runs(w, packed.txs)
    ensures var b := V.Block(w, packed.txs, Apart());
            V.InitialV(b, Setup(sys, w)) && V.Leads(b, Setup(sys, w), verifying, end) && V.SomeRefused(b, Setup(sys, w), verifying)
  {
    hide P.PInv, P.Leads, V.Leads, V.SomeRefused, V.InitialV, V.WellPacked, E.ByNumber, R.Goes, V.AllOk, Runs, At, G.HasCycle;
    P.BeginPacking(sys, w);
    var first, m := PackOne(w, P.Begin(sys, w), id0, o0, a);
    assert m.txs == [Steady(id0, o0)];
    var second: seq<P.Action>;
    second, packed := PackOne(w, m, id1, o1, a);
    packing := first + second;
    LeadsOn(P.Begin(sys, w), first, m, second, packed);
    NoEdges(w, packed, o0, o1);
    verifying, end := Refused(sys, w, packed, o0, o1, a);
  }

  lemma Refused(sys: Sys, w: World, p: P.Packer, o0: Outcome, o1: Outcome, a: Addr) returns (verifying: seq<V.Action>, end: V.Verifier)
    requires Fresh(sys) && P.PInv(w, p) && E.ByNumber(p, Apart()) && |p.txs| == 2 && p.txs[0].id != sys.root.tid && p.txs[1].id != sys.root.tid
    requires Runs(w, p.txs) && At(w, p.txs, 0) == o0 && At(w, p.txs, 1) == o1 && a !in o0.foot && a in o1.foot
    ensures var b := V.Block(w, p.txs, Apart());
            V.InitialV(b, Setup(sys, w)) && V.Leads(b, Setup(sys, w), verifying, end) && V.SomeRefused(b, Setup(sys, w), verifying)
  {
    hide P.PInv, V.Leads, V.SomeRefused, V.WellPacked, V.VInv, E.ByNumber, R.Goes, V.AllOk, Runs, At, G.HasCycle;
    var b, start, recs := V.Block(w, p.txs, Apart()), Setup(sys, w), [o0.foot + {a}, o1.foot];
    ApartSound();
    E.PackedIsWellPacked(w, p, Apart());
    assert R.Covers(b, recs);
    NoPath(Apart(), 0, 1);
    NoPath(Apart(), 1, 0);
    assert R.Exposed(b, recs, 0, 1, a);
    verifying, end := R.ExposedFails(b, recs, start, 0, 1, a);
    R.GoesLeads(b, recs, 2, start, verifying, end);
    V.InitialInvV(b, start);
    V.RunOk(b, start, verifying, end);
  }
}
