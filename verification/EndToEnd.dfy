/** Packing and verifying the same block, end to end. */
module EndToEnd {
  import opened StagingTable
  import opened Serial
  import G = Dag
  import P = Packing
  import V = BlockVerify
  import R = Recording
  import opened MvccRun
  import T = TrieTree
  import S = TrieStore

  /** `g` is the packed graph by number, as a header carries it. */
  ghost predicate ByNumber(p: P.Packer, g: G.Nodes)
  {
    G.Sound(g) && (forall i: nat :: i in g <==> i < |p.txs|) &&
    forall i, j :: 0 <= i < |p.txs| && 0 <= j < |p.txs| ==>
      (G.Edge(g, i, j) <==> G.Edge(p.dag, p.txs[i].id, p.txs[j].id))
  }

  /** What a graph sent through a header becomes is the packed graph by number. */
  lemma HeaderGraph(w: World, p: P.Packer, index: nat, indexs: map<nat, Tid>, msg: seq<G.ProtoNode>, g: G.Nodes)
    requires P.PInv(w, p) && G.Numbered(p.dag, index, indexs) && G.Encodes(p.dag, indexs, msg)
    requires G.Sound(g) && (forall k :: k in g <==> G.ProtoNodeOf(msg, k))
    requires forall a, b :: G.Edge(g, a, b) <==> G.ProtoEdge(msg, a, b) && G.ProtoNodeOf(msg, b)
    ensures ByNumber(p, g)
  {
    hide P.PInv, G.Numbered, G.Encodes, G.Sound, G.Edge, G.ProtoEdge, G.ProtoNodeOf;
    NumbersAreTxs(w, p, index, indexs);
    forall i: nat ensures i in g <==> i < |p.txs| { ProtoNodes(p.dag, index, indexs, msg, i); }
    forall i, j | 0 <= i < |p.txs| && 0 <= j < |p.txs|
      ensures G.Edge(g, i, j) <==> G.Edge(p.dag, p.txs[i].id, p.txs[j].id)
    {
      G.ProtoRoundTrip(p.dag, index, indexs, msg, i, j);
    }
  }

  /** A node's number is the place of its transaction in the block. */
  lemma NumbersAreTxs(w: World, p: P.Packer, index: nat, indexs: map<nat, Tid>)
    requires P.PInv(w, p) && G.Numbered(p.dag, index, indexs)
    ensures index == |p.txs| == |p.dag| && G.Sound(p.dag) && forall i :: 0 <= i < |p.txs| ==> i in indexs && indexs[i] == p.txs[i].id && indexs[i] in p.dag
  {
    hide Runs, G.Sound, G.Edge, MvccRun.Inv, P.OpenOk, P.LogOk, P.LastToucher;
    assert |p.sys.log| == |p.txs| && P.DagOk(p.txs, p.sys.log, p.dag) by { DagFacts(w, p); }
    if index < |p.txs| { IndexOfTx(p, index); }
    if index > |p.txs| {
      var id := indexs[|p.txs|];
      IndexOf(p, id);
    }
    forall i: nat | i < |p.txs| ensures i in indexs && indexs[i] == p.txs[i].id && indexs[i] in p.dag { IndexOfTx(p, i); }
  }

  lemma DagFacts(w: World, p: P.Packer)
    requires P.PInv(w, p)
    ensures |p.sys.log| == |p.txs| && P.DagOk(p.txs, p.sys.log, p.dag)
  {
  }

  lemma ProtoNodes(g: G.Nodes, index: nat, indexs: map<nat, Tid>, msg: seq<G.ProtoNode>, i: nat)
    requires G.Numbered(g, index, indexs) && G.Encodes(g, indexs, msg)
    ensures G.ProtoNodeOf(msg, i) <==> i < index
  {
    if i < index { assert msg[i].index == i; }
  }

  /** Edges of the packed graph lead forward, so it has no cycle. */
  lemma EdgesForward(w: World, p: P.Packer, g: G.Nodes, i: nat, j: nat)
    requires P.PInv(w, p) && ByNumber(p, g) && G.Edge(g, i, j)
    ensures i < j < |p.txs|
  {
    hide Runs, MvccRun.Inv, P.OpenOk, MvccRun.Last;
    assert i in g && j in g;
    P.DagEdge(p.txs, p.sys.log, p.dag, i, j);
    P.OldTouchers(p.sys.log, MvccRun.Commit(0, {}), i, j);
  }

  function Numbers(n: nat): (s: seq<nat>)
    ensures |s| == n && forall i :: 0 <= i < n ==> s[i] == i
  {
    if n == 0 then [] else Numbers(n - 1) + [n - 1]
  }

  lemma NoCycle(w: World, p: P.Packer, g: G.Nodes)
    requires P.PInv(w, p) && ByNumber(p, g)
    ensures !G.HasCycle(g)
  {
    hide P.PInv, G.HasCycle;
    var order := Numbers(|p.txs|);
    forall k | k in g ensures k in order { assert order[k] == k; }
    forall i: nat, q: nat | i < |order| && G.Edge(g, q, order[i]) ensures q in order[..i] {
      EdgesForward(w, p, g, q, i);
      assert order[..i][q] == q;
    }
    assert G.Topological(g, order);
    G.TopologicalNoCycle(g, order);
  }

  lemma EdgeByNumber(w: World, p: P.Packer, g: G.Nodes, a: Tid, b: Tid)
    requires P.PInv(w, p) && ByNumber(p, g) && G.Edge(p.dag, a, b)
    ensures a in p.dag && b in p.dag && G.Edge(g, p.dag[a].index, p.dag[b].index)
  {
    hide P.PInv, P.LastToucher, P.Packed;
    DagFacts(w, p);
    IndexOf(p, a);
    IndexOf(p, b);
  }

  /** A path between transactions is a path between their numbers. */
  lemma PathByNumber(w: World, p: P.Packer, g: G.Nodes, i: nat, j: nat)
    requires P.PInv(w, p) && ByNumber(p, g) && i < |p.txs| && j < |p.txs|
    requires G.Reaches(p.dag, p.txs[i].id, p.txs[j].id)
    ensures G.Reaches(g, i, j)
  {
    hide P.PInv, ByNumber, P.DagOk, G.Edge;
    var q :| |q| >= 2 && q[0] == p.txs[i].id && q[|q| - 1] == p.txs[j].id && G.Walk(p.dag, q);
    forall k | 0 <= k < |q| ensures q[k] in p.dag {
      if k == 0 { EdgeByNumber(w, p, g, q[0], q[1]); } else { EdgeByNumber(w, p, g, q[k - 1], q[k - 1 + 1]); }
    }
    var r := seq(|q|, k requires 0 <= k < |q| => p.dag[q[k]].index);
    DagFacts(w, p);
    IndexOfTx(p, i);
    IndexOfTx(p, j);
    forall k | 0 <= k < |r| - 1 ensures G.Edge(g, r[k], r[k + 1]) { EdgeByNumber(w, p, g, q[k], q[k + 1]); }
    assert r[0] == i && r[|r| - 1] == j && G.Walk(g, r);
  }

  lemma IndexOf(p: P.Packer, id: Tid)
    requires |p.sys.log| == |p.txs| && P.DagOk(p.txs, p.sys.log, p.dag) && id in p.dag
    ensures p.dag[id].index < |p.txs| && p.txs[p.dag[id].index].id == id
  {
  }

  lemma IndexOfTx(p: P.Packer, i: nat)
    requires |p.sys.log| == |p.txs| && P.DagOk(p.txs, p.sys.log, p.dag) && i < |p.txs|
    ensures p.txs[i].id in p.dag && p.dag[p.txs[i].id].index == i
  {
  }

  /** What packing guarantees is what verifying needs. */
  lemma PackedIsWellPacked(w: World, p: P.Packer, g: G.Nodes)
    requires P.PInv(w, p) && ByNumber(p, g)
    ensures V.WellPacked(V.Block(w, p.txs, g)) && !G.HasCycle(g)
  {
    hide Runs, MvccRun.Inv, P.OpenOk, P.DagOk, G.HasCycle, G.Sound, G.Reaches, Touches;
    NoCycle(w, p, g);
    forall i, j | 0 <= i < j < |p.txs| && Conflict(w, p.txs, i, j) ensures G.Reaches(g, i, j) {
      var a :| Touches(w, p.txs, i, a) && Touches(w, p.txs, j, a);
      P.ConflictsAreLinked(w, p.txs, p.sys.log, p.dag, i, j, a);
      PathByNumber(w, p, g, i, j);
    }
  }

  /** However the packing workers interleaved, and however the dispatcher and the verifying
      workers interleave on the packed block: a verification step fails only when a transaction
      records, too late, an account its final footprint does not keep; and when the workers have
      nothing left the world state is the packed one. */
  lemma VerifyingReproducesPacking(
      sys: Sys, w: World, packing: seq<P.Action>, packed: P.Packer,
      g: G.Nodes, start: V.Verifier, verifying: seq<V.Action>, end: V.Verifier)
    requires Fresh(sys) && P.Leads(P.Begin(sys, w), packing, packed) && ByNumber(packed, g)
    requires V.InitialV(V.Block(w, packed.txs, g), start)
    requires V.Leads(V.Block(w, packed.txs, g), start, verifying, end)
    ensures Runs(w, packed.txs) &&
            (V.AllOk(V.Block(w, packed.txs, g), start, verifying) <==> !V.SomeRefused(V.Block(w, packed.txs, g), start, verifying))
    ensures V.Idle(end) ==> end.world == packed.world && Leaves(w, packed.txs, |packed.txs|, end.world)
  {
    hide P.PInv, V.VInv, V.WellPacked, G.HasCycle, V.Leads, P.Leads;
    P.BeginPacking(sys, w);
    P.LeadsInv(w, P.Begin(sys, w), packing, packed);
    P.PackingIsSerial(sys, w, packing, packed);
    PackedIsWellPacked(w, packed, g);
    var b := V.Block(w, packed.txs, g);
    V.InitialInvV(b, start);
    V.RunOk(b, start, verifying, end);
    if V.Idle(end) { V.IdleIsFinished(b, end); }
  }

  /** Verifying a packed block with `n` workers, when `recs` bounds what its transactions record on the way: no
      run fails, exactly when there is one worker or the graph orders every transaction with those that keep an
      account it may record and drop. A run that leaves nothing to do ends in the packed world state. */
  lemma WorkersReproducePacking(
      sys: Sys, w: World, packing: seq<P.Action>, packed: P.Packer, g: G.Nodes, recs: seq<set<Addr>>, n: nat, start: V.Verifier)
    requires Fresh(sys) && P.Leads(P.Begin(sys, w), packing, packed) && ByNumber(packed, g) && n >= 1
    requires V.InitialV(V.Block(w, packed.txs, g), start)
    requires Runs(w, packed.txs) && R.Covers(V.Block(w, packed.txs, g), recs)
    ensures var b := V.Block(w, packed.txs, g);
            (forall acts, end :: R.Goes(b, recs, n, start, acts, end) ==> V.AllOk(b, start, acts)) <==> n == 1 || R.Safe(b, recs)
    ensures forall acts, end :: R.Goes(V.Block(w, packed.txs, g), recs, n, start, acts, end) && V.Idle(end) ==>
              end.world == packed.world && Leaves(w, packed.txs, |packed.txs|, end.world)
  {
    hide P.PInv, V.VInv, V.WellPacked, V.InitialV, G.HasCycle, V.Leads, P.Leads, R.Goes, R.Covers, R.Safe, V.AllOk, V.Idle, Runs;
    P.BeginPacking(sys, w);
    P.LeadsInv(w, P.Begin(sys, w), packing, packed);
    PackedIsWellPacked(w, packed, g);
    var b := V.Block(w, packed.txs, g);
    R.WorkersExact(b, recs, start, n);
    forall acts, end | R.Goes(b, recs, n, start, acts, end) && V.Idle(end) ensures end.world == packed.world && Leaves(w, packed.txs, |packed.txs|, end.world) {
      R.GoesLeads(b, recs, n, start, acts, end);
      VerifyingReproducesPacking(sys, w, packing, packed, g, start, acts, end);
    }
  }

  /** Whichever part of the world state a trie holds, laid out as keys and values by `layout`: the trie the
      packer built and the trie a verifier ends with have the same root. */
  lemma VerifyingReproducesRoots(
      sys: Sys, w: World, packing: seq<P.Action>, packed: P.Packer,
      g: G.Nodes, start: V.Verifier, verifying: seq<V.Action>, end: V.Verifier,
      h: S.Hasher, n: nat, layout: World -> S.KeyMap, packedTrie: T.Tree, verifiedTrie: T.Tree)
    requires Fresh(sys) && P.Leads(P.Begin(sys, w), packing, packed) && ByNumber(packed, g)
    requires V.InitialV(V.Block(w, packed.txs, g), start)
    requires V.Leads(V.Block(w, packed.txs, g), start, verifying, end) && V.Idle(end)
    requires S.Represents(packedTrie, n, layout(packed.world)) && S.Represents(verifiedTrie, n, layout(end.world))
    ensures S.HashOf(h, packedTrie) == S.HashOf(h, verifiedTrie)
  {
    hide V.InitialV, V.Leads, P.Leads, ByNumber, V.Idle;
    VerifyingReproducesPacking(sys, w, packing, packed, g, start, verifying, end);
    S.RepresentsUnique(packedTrie, verifiedTrie, n, layout(packed.world), layout(end.world));
  }
}
