/** When verifying a packed block can fail: by the accounts its transactions may record on the way,
    the graph, and the number of workers. */
module Recording {
  import opened Prelude
  import opened StagingTable
  import opened Serial
  import opened BlockVerify
  import G = Dag
  import D = Dispatcher
  import M = MvccRun

  // --- what a block's transactions may record ---------------------------------------------------

  /** `recs[x]` bounds the accounts transaction `x` records at any time, its final footprint among them. */
  ghost predicate Covers(b: Block, recs: seq<set<Addr>>)
    requires Runs(b.start, b.txs)
  {
    |recs| == |b.txs| && forall x :: 0 <= x < |b.txs| ==> At(b.start, b.txs, x).foot <= recs[x]
  }

  /** The graph puts neither of the two before the other. */
  ghost predicate Unordered(g: G.Nodes, x: nat, y: nat)
  {
    x != y && !G.Reaches(g, x, y) && !G.Reaches(g, y, x)
  }

  /** `x` may record an account it does not keep, and `y`, which the graph leaves unordered with it, keeps it. */
  ghost predicate Exposed(b: Block, recs: seq<set<Addr>>, x: nat, y: nat, a: Addr)
    requires Runs(b.start, b.txs)
  {
    x < |b.txs| && x < |recs| && y < |b.txs| && Unordered(b.dag, x, y) &&
    a in recs[x] && a !in At(b.start, b.txs, x).foot && a in At(b.start, b.txs, y).foot
  }

  ghost predicate Safe(b: Block, recs: seq<set<Addr>>)
    requires Runs(b.start, b.txs)
  {
    forall x, y, a :: !Exposed(b, recs, x, y, a)
  }

  // --- runs of a number of workers -----------------------------------------------------------------

  predicate Allowed(recs: seq<set<Addr>>, act: Action)
  {
    act.DoTouch? ==> act.x < |recs| && act.a in recs[act.x]
  }

  /** A run in which at most `n` callbacks are under way at any time and transactions record what they may. */
  ghost predicate Goes(b: Block, recs: seq<set<Addr>>, n: nat, v: Verifier, acts: seq<Action>, e: Verifier)
    decreases |acts|
  {
    |v.phase| <= n &&
    if acts == [] then v == e
    else Enabled(b, v, acts[0]) && Allowed(recs, acts[0]) && Goes(b, recs, n, Do(b, v, acts[0]).0, acts[1..], e)
  }

  lemma {:induction false} GoesLeads(b: Block, recs: seq<set<Addr>>, n: nat, v: Verifier, acts: seq<Action>, e: Verifier)
    requires Goes(b, recs, n, v, acts, e)
    ensures Leads(b, v, acts, e)
    decreases |acts|
  {
    hide Enabled, Do, Allowed;
    if acts != [] { GoesLeads(b, recs, n, Do(b, v, acts[0]).0, acts[1..], e); }
  }

  lemma {:induction false} GoesMore(b: Block, recs: seq<set<Addr>>, m: nat, n: nat, v: Verifier, acts: seq<Action>, e: Verifier)
    requires Goes(b, recs, m, v, acts, e) && m <= n
    ensures Goes(b, recs, n, v, acts, e)
    decreases |acts|
  {
    hide Enabled, Do, Allowed;
    if acts != [] { GoesMore(b, recs, m, n, Do(b, v, acts[0]).0, acts[1..], e); }
  }

  lemma {:induction false} GoesOn(b: Block, recs: seq<set<Addr>>, n: nat, v: Verifier, acts: seq<Action>, m: Verifier, more: seq<Action>, e: Verifier)
    requires Goes(b, recs, n, v, acts, m) && Goes(b, recs, n, m, more, e)
    ensures Goes(b, recs, n, v, acts + more, e)
    decreases |acts|
  {
    hide Enabled, Do, Allowed;
    if acts == [] {
      assert acts + more == more;
    } else {
      assert (acts + more)[0] == acts[0] && (acts + more)[1..] == acts[1..] + more;
      GoesOn(b, recs, n, Do(b, v, acts[0]).0, acts[1..], m, more, e);
    }
  }

  lemma OneAction(b: Block, recs: seq<set<Addr>>, n: nat, v: Verifier, act: Action)
    requires Enabled(b, v, act) && Allowed(recs, act) && |v.phase| <= n && |Do(b, v, act).0.phase| <= n
    ensures Goes(b, recs, n, v, [act], Do(b, v, act).0)
  {
    hide Enabled, Do, Allowed;
    assert [act][1..] == [];
  }

  /** A run that ends in a failing step does not go without an error. */
  lemma {:induction false} FailsAtEnd(b: Block, recs: seq<set<Addr>>, n: nat, v: Verifier, acts: seq<Action>, m: Verifier, act: Action)
    requires Goes(b, recs, n, v, acts, m) && Enabled(b, m, act) && !Do(b, m, act).1
    ensures !AllOk(b, v, acts + [act])
    decreases |acts|
  {
    hide Enabled, Do, Allowed;
    if acts == [] {
      assert acts + [act] == [act];
    } else {
      assert (acts + [act])[0] == acts[0] && (acts + [act])[1..] == acts[1..] + [act];
      FailsAtEnd(b, recs, n, Do(b, v, acts[0]).0, acts[1..], m, act);
    }
  }

  // --- enough: what the graph orders is not refused ----------------------------------------------------

  /** Everything that reaches a transaction being executed had merged before its `Prepare`. */
  ghost predicate AncestorsFirst(b: Block, v: Verifier)
  {
    forall x, y :: x in v.phase && v.phase[x].Prepared? && G.Reaches(b.dag, y, x) ==> v.phase[x].at <= |v.order| && y in v.order[..v.phase[x].at]
  }

  lemma StepAncestors(b: Block, v: Verifier, act: Action)
    requires VInv(b, v) && AncestorsFirst(b, v) && Enabled(b, v, act)
    ensures AncestorsFirst(b, Do(b, v, act).0)
  {
    hide VInv, G.Reaches, D.Complete, M.CheckAndUpdate, M.Put, M.Reset, Apply;
    var v' := Do(b, v, act).0;
    forall x, y | x in v'.phase && v'.phase[x].Prepared? && G.Reaches(b.dag, y, x)
      ensures v'.phase[x].at <= |v'.order| && y in v'.order[..v'.phase[x].at]
    {
      if act == DoPrepare(x) {
        AncestorMerged(b, v, x, y);
        assert v'.order[..|v.order|] == v.order;
      } else {
        OldPhase(b, v, act, x);
        assert v'.order[..v.phase[x].at] == v.order[..v.phase[x].at];
      }
    }
  }

  lemma AncestorMerged(b: Block, v: Verifier, x: nat, y: nat)
    requires VInv(b, v) && x in v.phase && G.Reaches(b.dag, y, x)
    ensures y in v.order
  {
    hide Runs, MergesOk, M.Inv, RunningOk, G.Sound, D.Inv, G.Reaches, Owned;
    AncestorsDone(b, v, y, x);
  }

  /** Only `Prepare` makes a callback a running one, and merges are only appended. */
  lemma OldPhase(b: Block, v: Verifier, act: Action, x: nat)
    requires Enabled(b, v, act) && act != DoPrepare(x)
    requires x in Do(b, v, act).0.phase && Do(b, v, act).0.phase[x].Prepared?
    ensures x in v.phase && v.phase[x] == Do(b, v, act).0.phase[x] && v.order <= Do(b, v, act).0.order
  {
    hide D.Complete, M.CheckAndUpdate, M.Put, M.Reset, Apply, M.Prepare, M.Close;
  }

  /** A late recording is one of an account some transaction merged after `Prepare` keeps; the graph leaves the
      two unordered. */
  lemma RefusedIsExposed(b: Block, recs: seq<set<Addr>>, v: Verifier, x: nat, a: Addr)
    requires VInv(b, v) && AncestorsFirst(b, v) && x in v.phase && v.phase[x].Prepared? && x < |b.txs|
    requires b.txs[x].id in v.sys.kids && Refused(b, v, x, a) && x < |recs| && a in recs[x]
    ensures exists y :: Exposed(b, recs, x, y, a)
  {
    hide M.Inv, G.Sound, D.Inv, Reached, Ready, Owned, G.Reaches, Runs, At, G.HasCycle;
    assert RunningOk(b, v, x);
    var k :| v.phase[x].at <= k < |v.sys.log| && a in v.sys.log[k].writes;
    var y := v.order[k];
    assert y in v.order;
    WritesTouch(b, v, k, a);
    NotInPrefix(v.order, v.phase[x].at, k);
    assert !G.Reaches(b.dag, y, x);
    if G.Reaches(b.dag, x, y) { AncestorsDone(b, v, x, y); }
    assert x !in v.order;
    assert Exposed(b, recs, x, y, a);
  }

  /** With one callback at a time nothing merges while another transaction runs. */
  ghost predicate NothingSince(v: Verifier)
  {
    forall x :: x in v.phase && v.phase[x].Prepared? ==> v.phase[x].at == |v.order|
  }

  lemma StepNothingSince(b: Block, v: Verifier, act: Action)
    requires NothingSince(v) && Enabled(b, v, act) && |v.phase| <= 1
    ensures NothingSince(Do(b, v, act).0)
  {
    hide D.Complete, M.CheckAndUpdate, M.Put, M.Reset, Apply, M.Prepare, M.Close;
    var v' := Do(b, v, act).0;
    forall x | x in v'.phase && v'.phase[x].Prepared? ensures v'.phase[x].at == |v'.order| {
      if act != DoPrepare(x) {
        OldPhase(b, v, act, x);
        if act.DoMerge? { OnlyOne(v.phase, act.x, x); }
      }
    }
  }

  lemma OnlyOne(m: map<nat, Phase>, x: nat, y: nat)
    requires |m| <= 1 && x in m && y in m
    ensures x == y
  {
    assert |m.Keys - {x}| == 0;
    assert y in {x} || y in m.Keys - {x};
  }

  lemma NothingSinceOk(b: Block, v: Verifier, x: nat, a: Addr)
    requires VInv(b, v) && NothingSince(v) && x in v.phase && v.phase[x].Prepared? && x < |b.txs| && b.txs[x].id in v.sys.kids
    ensures !Refused(b, v, x, a)
  {
    hide M.Inv, G.Sound, D.Inv, Reached, Ready, Owned, Runs, At;
    assert RunningOk(b, v, x);
  }

  /** No run fails when the graph orders what may collide, or when there is one worker. */
  lemma {:induction false} SafeRun(b: Block, recs: seq<set<Addr>>, n: nat, v: Verifier, acts: seq<Action>, e: Verifier)
    requires VInv(b, v) && Runs(b.start, b.txs) && !G.HasCycle(b.dag) && Goes(b, recs, n, v, acts, e)
    requires (AncestorsFirst(b, v) && Safe(b, recs)) || (n <= 1 && NothingSince(v))
    ensures AllOk(b, v, acts)
    decreases |acts|
  {
    hide Do, Enabled, Safe, AncestorsFirst, NothingSince, G.HasCycle, MergesOk, PlacesOk, RunningOk, Owned, Refused, M.Inv, D.Inv, WellPacked, Runs;
    if acts != [] {
      var act := acts[0];
      StepOk(b, v, act);
      if act.DoTouch? { TouchNotRefused(b, recs, v, act); }
      if AncestorsFirst(b, v) && Safe(b, recs) { StepAncestors(b, v, act); } else { StepNothingSince(b, v, act); }
      SafeRun(b, recs, n, Do(b, v, act).0, acts[1..], e);
    }
  }

  lemma TouchNotRefused(b: Block, recs: seq<set<Addr>>, v: Verifier, act: Action)
    requires VInv(b, v) && Enabled(b, v, act) && Allowed(recs, act) && act.DoTouch? && Runs(b.start, b.txs)
    requires (AncestorsFirst(b, v) && Safe(b, recs)) || NothingSince(v)
    ensures !RefusedTouch(b, v, act)
  {
    hide VInv, Runs, Refused, AncestorsFirst, NothingSince, Exposed;
    if AncestorsFirst(b, v) && Safe(b, recs) {
      if Refused(b, v, act.x, act.a) { RefusedIsExposed(b, recs, v, act.x, act.a); }
    } else {
      NothingSinceOk(b, v, act.x, act.a);
    }
  }

  // --- and needed: two workers can be driven into a refusal ---------------------------------------------

  /** Only the table of `z` differs. */
  ghost predicate TableOnly(b: Block, v: Verifier, v': Verifier, z: nat)
  {
    z < |b.txs| && v' == v.(sys := v'.sys) && v'.sys.log == v.sys.log && b.txs[z].id in v.sys.kids && b.txs[z].id in v'.sys.kids &&
    v'.sys.kids == v.sys.kids[b.txs[z].id := v'.sys.kids[b.txs[z].id]]
  }

  ghost function Held(b: Block, v: Verifier, z: nat): set<Addr>
    requires z < |b.txs| && b.txs[z].id in v.sys.kids
  {
    v.sys.kids[b.txs[z].id].values.Keys
  }

  /** Recording an account it keeps always succeeds. */
  lemma TouchFoot(b: Block, v: Verifier, z: nat, a: Addr)
    requires VInv(b, v) && z in v.phase && v.phase[z].Prepared? && z < |b.txs| && a in At(b.start, b.txs, z).foot
    ensures Enabled(b, v, DoTouch(z, a)) && VInv(b, Do(b, v, DoTouch(z, a)).0) && TableOnly(b, v, Do(b, v, DoTouch(z, a)).0, z)
    ensures Held(b, Do(b, v, DoTouch(z, a)).0, z) == Held(b, v, z) + {a}
  {
    hide Runs, M.Inv, G.Sound, D.Inv, Reached, Ready, Owned, WellPacked, MergesOk, PlacesOk, M.Put, M.WrittenSince, RunningOk, At;
    TouchStepInv(b, v, z, a);
    M.PutFrame(v.sys, map[], b.txs[z].id, a, a);
  }

  lemma {:induction false} TouchAll(b: Block, recs: seq<set<Addr>>, n: nat, v: Verifier, z: nat, todo: set<Addr>) returns (acts: seq<Action>, e: Verifier)
    requires VInv(b, v) && z in v.phase && v.phase[z].Prepared? && z < |b.txs| && |v.phase| <= n
    requires z < |recs| && todo <= recs[z] && todo <= At(b.start, b.txs, z).foot
    ensures Goes(b, recs, n, v, acts, e) && VInv(b, e) && TableOnly(b, v, e, z)
    ensures Held(b, e, z) == Held(b, v, z) + todo
    decreases |todo|
  {
    hide VInv, Runs, At, Do, Enabled, Goes, TableOnly, Held;
    RunningTable(b, v, z);
    if todo == {} {
      acts, e := [], v;
      Nothing(b, recs, n, v);
      NoChange(b, v, z);
      assert Held(b, v, z) == Held(b, v, z) + todo;
    } else {
      var a :| a in todo;
      TouchFoot(b, v, z, a);
      var act := DoTouch(z, a);
      var v' := Do(b, v, act).0;
      TableSame(b, v, v', z);
      OneAction(b, recs, n, v, act);
      var more: seq<Action>;
      more, e := TouchAll(b, recs, n, v', z, todo - {a});
      GoesOn(b, recs, n, v, [act], v', more, e);
      acts := [act] + more;
      TableTwice(b, v, v', e, z);
      assert Held(b, v, z) + {a} + (todo - {a}) == Held(b, v, z) + todo;
    }
  }

  lemma NoChange(b: Block, v: Verifier, z: nat)
    requires z < |b.txs| && b.txs[z].id in v.sys.kids
    ensures TableOnly(b, v, v, z)
  {
  }

  lemma TableSame(b: Block, v: Verifier, v': Verifier, z: nat)
    requires TableOnly(b, v, v', z)
    ensures v'.phase == v.phase && b.txs[z].id in v.sys.kids && b.txs[z].id in v'.sys.kids
  {
  }

  lemma TableTwice(b: Block, v: Verifier, v': Verifier, e: Verifier, z: nat)
    requires TableOnly(b, v, v', z) && TableOnly(b, v', e, z)
    ensures TableOnly(b, v, e, z)
  {
  }

  lemma RunningTable(b: Block, v: Verifier, z: nat)
    requires VInv(b, v) && z in v.phase && v.phase[z].Prepared? && z < |b.txs|
    ensures b.txs[z].id in v.sys.kids && v.sys.kids[b.txs[z].id].preparing == v.phase[z].at
  {
    hide Runs, M.Inv, G.Sound, D.Inv, Reached, Ready, Owned, MergesOk, PlacesOk;
    assert RunningOk(b, v, z);
  }

  lemma Nothing(b: Block, recs: seq<set<Addr>>, n: nat, v: Verifier)
    requires |v.phase| <= n
    ensures Goes(b, recs, n, v, [], v)
  {
  }

  /** Preparing a taken transaction gives it an empty table of the present version. */
  lemma Prepares(b: Block, recs: seq<set<Addr>>, n: nat, v: Verifier, z: nat)
    requires VInv(b, v) && z in v.phase && v.phase[z].Taken? && |v.phase| <= n && !G.HasCycle(b.dag)
    ensures z < |b.txs| && b.txs[z].id !in v.sys.kids && Enabled(b, v, DoPrepare(z))
    ensures var v' := Do(b, v, DoPrepare(z)).0;
            Goes(b, recs, n, v, [DoPrepare(z)], v') && VInv(b, v') && v'.disp == v.disp && v'.order == v.order && v'.sys.log == v.sys.log &&
            v'.phase == v.phase[z := Prepared(v.world, |v.order|)] && b.txs[z].id in v'.sys.kids && Held(b, v', z) == {} &&
            v'.sys.kids - {b.txs[z].id} == v.sys.kids
  {
    hide Runs, M.Inv, G.Sound, D.Inv, Reached, Ready, Owned, WellPacked, MergesOk, PlacesOk, RunningOk, Goes;
    PrepareStepInv(b, v, z);
    SameSize(v.phase, z, Prepared(v.world, |v.order|));
    OneAction(b, recs, n, v, DoPrepare(z));
  }

  lemma SameSize(m: map<nat, Phase>, z: nat, p: Phase)
    requires z in m
    ensures |m[z := p]| == |m|
  {
    assert m[z := p].Keys == m.Keys;
  }

  lemma WhatRuns(b: Block, v: Verifier)
    requires VInv(b, v)
    ensures Runs(b.start, b.txs)
  {
  }

  /** A worker can take a transaction through its whole execution while the others stand still. */
  lemma ExecuteNode(b: Block, recs: seq<set<Addr>>, n: nat, v: Verifier, z: nat) returns (acts: seq<Action>, e: Verifier)
    requires VInv(b, v) && z in v.phase && v.phase[z].Taken? && |v.phase| <= n && !G.HasCycle(b.dag) && Covers(b, recs)
    ensures Goes(b, recs, n, v, acts, e) && VInv(b, e) && e.disp == v.disp && e.order == v.order + [z]
    ensures e.phase == v.phase[z := Merged] && e.sys.kids == v.sys.kids
  {
    hide VInv, Runs, At, Do, Enabled, Goes, G.HasCycle;
    WhatRuns(b, v);
    Prepares(b, recs, n, v, z);
    var v1 := Do(b, v, DoPrepare(z)).0;
    SameSize(v.phase, z, Prepared(v.world, |v.order|));
    var touches, v2 := TouchAll(b, recs, n, v1, z, At(b.start, b.txs, z).foot);
    GoesOn(b, recs, n, v, [DoPrepare(z)], v1, touches, v2);
    Merges(b, recs, n, v2, z);
    e := Do(b, v2, DoMerge(z)).0;
    GoesOn(b, recs, n, v, [DoPrepare(z)] + touches, v2, [DoMerge(z)], e);
    acts := [DoPrepare(z)] + touches + [DoMerge(z)];
    assert e.sys.kids == v2.sys.kids - {b.txs[z].id} == v1.sys.kids - {b.txs[z].id};
  }

  lemma Merges(b: Block, recs: seq<set<Addr>>, n: nat, v: Verifier, z: nat)
    requires VInv(b, v) && z in v.phase && v.phase[z].Prepared? && |v.phase| <= n && !G.HasCycle(b.dag)
    requires z < |b.txs| && b.txs[z].id in v.sys.kids && Held(b, v, z) == At(b.start, b.txs, z).foot
    ensures Enabled(b, v, DoMerge(z))
    ensures var e := Do(b, v, DoMerge(z)).0;
            Goes(b, recs, n, v, [DoMerge(z)], e) && VInv(b, e) && e.disp == v.disp && e.order == v.order + [z] &&
            e.phase == v.phase[z := Merged] && e.sys.kids == v.sys.kids - {b.txs[z].id}
  {
    hide Runs, M.Inv, G.Sound, D.Inv, Reached, Ready, Owned, WellPacked, MergesOk, PlacesOk, RunningOk, Goes, At, M.CheckAndUpdate, Apply, Mergeable;
    RunningOutcome(b, v, z);
    MergeStepInv(b, v, z);
    MergeSucceeds(b, v, z);
    ClosedAfterMerge(v.sys, b.txs[z].id);
    SameSize(v.phase, z, Merged);
    OneAction(b, recs, n, v, DoMerge(z));
  }

  /** The same, and reported complete. */
  lemma Finish(b: Block, recs: seq<set<Addr>>, n: nat, v: Verifier, z: nat) returns (acts: seq<Action>, e: Verifier)
    requires VInv(b, v) && z in v.phase && v.phase[z].Taken? && |v.phase| <= n && !G.HasCycle(b.dag) && Covers(b, recs)
    ensures Goes(b, recs, n, v, acts, e) && VInv(b, e) && e.disp.taken == v.disp.taken && e.disp.done == v.disp.done + {z}
    ensures e.phase == v.phase - {z}
  {
    hide VInv, Runs, At, Do, Enabled, Goes, G.HasCycle;
    var run, v1 := ExecuteNode(b, recs, n, v, z);
    SameSize(v.phase, z, Merged);
    Completes(b, recs, n, v1, z);
    e := Do(b, v1, DoComplete(z)).0;
    GoesOn(b, recs, n, v, run, v1, [DoComplete(z)], e);
    acts := run + [DoComplete(z)];
  }

  lemma Completes(b: Block, recs: seq<set<Addr>>, n: nat, v: Verifier, z: nat)
    requires VInv(b, v) && z in v.phase && v.phase[z].Merged? && |v.phase| <= n && !G.HasCycle(b.dag)
    ensures Enabled(b, v, DoComplete(z))
    ensures var e := Do(b, v, DoComplete(z)).0;
            Goes(b, recs, n, v, [DoComplete(z)], e) && VInv(b, e) && e.disp.taken == v.disp.taken && e.disp.done == v.disp.done + {z} &&
            e.phase == v.phase - {z}
  {
    hide Runs, M.Inv, G.Sound, D.Inv, Reached, Ready, Owned, WellPacked, MergesOk, RunningOk, Goes, D.Complete;
    CompleteStepInv(b, v, z);
    D.CompleteInv(b.dag, v.disp, z);
    Fewer(v.phase, z);
    OneAction(b, recs, n, v, DoComplete(z));
  }

  lemma Fewer(m: map<nat, Phase>, z: nat)
    ensures |m - {z}| <= |m|
  {
    assert (m - {z}).Keys == m.Keys - {z};
  }

  /** The dispatcher cannot run dry while only the two unordered transactions are held back. */
  lemma NotStuck(b: Block, v: Verifier, x: nat, y: nat)
    requires VInv(b, v) && !G.HasCycle(b.dag) && Unordered(b.dag, x, y)
    requires x < |b.txs| && x !in v.disp.done && x !in v.phase && v.phase.Keys <= {y}
    ensures v.disp.queueCh != []
  {
    hide VInv, D.Inv, PlacesOk, G.HasCycle, G.Reaches, G.HasParentIn;
    Places(b, v);
    if v.disp.queueCh == [] {
      var u := set k | k in b.dag && k !in v.disp.done && (k == x || G.Reaches(b.dag, k, x));
      assert x in u;
      forall k | k in u ensures G.HasParentIn(b.dag, u, k) { WaitsFor(b, v, x, y, u, k); }
      G.StuckHasCycle(b.dag, u);
    }
  }

  lemma Places(b: Block, v: Verifier)
    requires VInv(b, v)
    ensures D.Inv(b.dag, v.disp) && PlacesOk(b, v) && forall i: nat :: i in b.dag <==> i < |b.txs|
  {
  }

  lemma WaitsFor(b: Block, v: Verifier, x: nat, y: nat, u: set<nat>, k: nat)
    requires D.Inv(b.dag, v.disp) && PlacesOk(b, v) && Unordered(b.dag, x, y) && x !in v.phase && v.phase.Keys <= {y} && v.disp.queueCh == []
    requires u == set k | k in b.dag && k !in v.disp.done && (k == x || G.Reaches(b.dag, k, x))
    requires k in u
    ensures G.HasParentIn(b.dag, u, k)
  {
    hide D.Inv, G.Reaches, G.HasParentIn;
    assert k != y;
    var p := NotReady(b.dag, v.disp, k);
    ReachesBefore(b.dag, p, k, x);
    ParentWitness(b.dag, u, p, k);
  }

  lemma NotReady(g: G.Nodes, s: D.State, k: nat) returns (p: nat)
    requires D.Inv(g, s) && s.queueCh == [] && k in g && k !in s.taken
    ensures G.Edge(g, p, k) && p !in s.done
  {
    hide D.Inv;
    QueuedExactly(g, s, k);
    var left := G.Parents(g, k) - s.done;
    assert left != {};
    p :| p in left;
  }

  lemma QueuedExactly(g: G.Nodes, s: D.State, k: nat)
    requires D.Inv(g, s) && s.queueCh == [] && k in g
    ensures k in s.taken <==> |G.Parents(g, k) - s.done| == 0
  {
    hide G.Sound, D.Ordered, Distinct, G.Parents;
    assert D.Queued(s) == s.taken;
  }

  lemma ParentWitness(g: G.Nodes, u: set<nat>, p: nat, k: nat)
    requires p in u && G.Edge(g, p, k)
    ensures G.HasParentIn(g, u, k)
  {
  }

  lemma ReachesBefore(g: G.Nodes, p: nat, k: nat, x: nat)
    requires G.Edge(g, p, k) && (k == x || G.Reaches(g, k, x))
    ensures G.Reaches(g, p, x)
  {
    if k == x {
      assert G.Walk(g, [p, x]);
      assert [p, x][|[p, x]| - 1] == x;
    } else {
      var w :| |w| >= 2 && w[0] == k && w[|w| - 1] == x && G.Walk(g, w);
      G.WalkFrom(g, p, w);
      assert ([p] + w)[|[p] + w| - 1] == x;
    }
  }

  /** Both are still to come or just taken, and nothing else is running. */
  ghost predicate Waits(b: Block, v: Verifier, x: nat, y: nat)
  {
    x < |b.txs| && y < |b.txs| && x !in v.disp.done && y !in v.disp.done && v.phase.Keys <= {x, y} && forall k :: k in v.phase ==> v.phase[k].Taken?
  }

  /** Two workers can bring two unordered transactions to the same moment: both taken, neither prepared. */
  lemma {:induction false} Approach(b: Block, recs: seq<set<Addr>>, v: Verifier, x: nat, y: nat) returns (acts: seq<Action>, e: Verifier)
    requires VInv(b, v) && !G.HasCycle(b.dag) && Covers(b, recs) && Unordered(b.dag, x, y) && Waits(b, v, x, y)
    ensures Goes(b, recs, 2, v, acts, e) && VInv(b, e) && Waits(b, e, x, y) && x in e.phase && y in e.phase
    decreases |b.dag| - |v.disp.taken|
  {
    hide VInv, Runs, At, Do, Enabled, Goes, G.HasCycle, Unordered, Covers;
    TwoAtMost(v.phase, x, y);
    if x in v.phase && y in v.phase {
      acts, e := [], v;
      Nothing(b, recs, 2, v);
    } else {
      var step, v1 := OneMore(b, recs, v, x, y);
      var more: seq<Action>;
      more, e := Approach(b, recs, v1, x, y);
      GoesOn(b, recs, 2, v, step, v1, more, e);
      acts := step + more;
    }
  }

  /** One more transaction is taken; if it is neither of the two it runs to the end. */
  lemma OneMore(b: Block, recs: seq<set<Addr>>, v: Verifier, x: nat, y: nat) returns (acts: seq<Action>, e: Verifier)
    requires VInv(b, v) && !G.HasCycle(b.dag) && Covers(b, recs) && Unordered(b.dag, x, y) && Waits(b, v, x, y)
    requires x !in v.phase || y !in v.phase
    ensures Goes(b, recs, 2, v, acts, e) && VInv(b, e) && Waits(b, e, x, y) && |v.disp.taken| < |e.disp.taken| <= |b.dag|
  {
    hide VInv, Runs, At, Do, Enabled, Goes, G.HasCycle, Unordered, Covers;
    if x !in v.phase { NotStuck(b, v, x, y); } else { Swapped(b.dag, x, y); NotStuck(b, v, y, x); }
    Takes(b, recs, v, x, y);
    var z, v1 := v.disp.queueCh[0], Do(b, v, DoTake).0;
    if z == x || z == y {
      acts, e := [DoTake], v1;
    } else {
      var run: seq<Action>;
      run, e := Finish(b, recs, 2, v1, z);
      GoesOn(b, recs, 2, v, [DoTake], v1, run, e);
      acts := [DoTake] + run;
      assert e.phase == v.phase;
    }
  }

  lemma Swapped(g: G.Nodes, x: nat, y: nat)
    requires Unordered(g, x, y)
    ensures Unordered(g, y, x)
  {
  }

  lemma Takes(b: Block, recs: seq<set<Addr>>, v: Verifier, x: nat, y: nat)
    requires VInv(b, v) && !G.HasCycle(b.dag) && Waits(b, v, x, y) && (x !in v.phase || y !in v.phase) && v.disp.queueCh != []
    ensures Enabled(b, v, DoTake)
    ensures var v1, z := Do(b, v, DoTake).0, v.disp.queueCh[0];
            Goes(b, recs, 2, v, [DoTake], v1) && VInv(b, v1) && v1.phase == v.phase[z := Taken] && |v1.phase| <= 2 &&
            v1.disp.taken == v.disp.taken + [z] && v1.disp.done == v.disp.done && z !in v.phase && |v1.disp.taken| <= |b.dag|
  {
    hide Runs, M.Inv, G.Sound, D.Inv, Reached, Ready, Owned, WellPacked, MergesOk, RunningOk, Goes, G.Edge;
    TakeStepInv(b, v);
    D.TakeInv(b.dag, v.disp);
    var v1 := TakeStep(v);
    D.WithinCapacity(b.dag, v1.disp);
    TwoAtMost(v.phase, x, y);
    Larger(v.phase, v.disp.queueCh[0]);
    OneAction(b, recs, 2, v, DoTake);
  }

  lemma TwoAtMost(m: map<nat, Phase>, x: nat, y: nat)
    requires m.Keys <= {x, y}
    ensures |m| <= 2 && (x !in m || y !in m ==> |m| <= 1)
  {
    SubsetSize(m.Keys, {x, y});
    if x !in m { SubsetSize(m.Keys, {y}); } else if y !in m { SubsetSize(m.Keys, {x}); }
  }

  lemma Larger(m: map<nat, Phase>, z: nat)
    ensures |m[z := Taken]| <= |m| + 1
  {
    assert m[z := Taken].Keys == m.Keys + {z};
  }

  /** Where the graph leaves two transactions unordered and one may record an account only the other keeps,
      two workers can run into the error. */
  lemma ExposedFails(b: Block, recs: seq<set<Addr>>, start: Verifier, x: nat, y: nat, a: Addr) returns (acts: seq<Action>, e: Verifier)
    requires WellPacked(b) && !G.HasCycle(b.dag) && InitialV(b, start) && Covers(b, recs) && Exposed(b, recs, x, y, a)
    ensures Goes(b, recs, 2, start, acts, e) && !AllOk(b, start, acts)
  {
    hide VInv, Runs, At, Do, Enabled, Goes, G.HasCycle, Covers, InitialV, WellPacked;
    InitialInvV(b, start);
    InitialWaits(b, start, x, y);
    var first, v := Approach(b, recs, start, x, y);
    TwoAtMost(v.phase, x, y);
    Prepares(b, recs, 2, v, x);
    SameSize(v.phase, x, Prepared(v.world, |v.order|));
    var v1 := Do(b, v, DoPrepare(x)).0;
    GoesOn(b, recs, 2, start, first, v, [DoPrepare(x)], v1);
    var run, v2 := ExecuteNode(b, recs, 2, v1, y);
    GoesOn(b, recs, 2, start, first + [DoPrepare(x)], v1, run, v2);
    SameSize(v1.phase, y, Merged);
    TooLate(b, v1, v2, x, y, a);
    var act := DoTouch(x, a);
    StepOk(b, v2, act);
    var before := first + [DoPrepare(x)] + run;
    FailsAtEnd(b, recs, 2, start, before, v2, act);
    e := Do(b, v2, act).0;
    TouchKeepsPhase(b, v2, x, a);
    OneAction(b, recs, 2, v2, act);
    GoesOn(b, recs, 2, start, before, v2, [act], e);
    acts := before + [act];
  }

  lemma InitialWaits(b: Block, v: Verifier, x: nat, y: nat)
    requires InitialV(b, v) && x < |b.txs| && y < |b.txs|
    ensures Waits(b, v, x, y)
  {
  }

  lemma TouchKeepsPhase(b: Block, v: Verifier, x: nat, a: Addr)
    requires Enabled(b, v, DoTouch(x, a))
    ensures Do(b, v, DoTouch(x, a)).0.phase == v.phase
  {
  }

  lemma TooLate(b: Block, v: Verifier, v': Verifier, x: nat, y: nat, a: Addr)
    requires VInv(b, v) && VInv(b, v') && x < |b.txs| && y < |b.txs| && x != y && b.txs[x].id in v.sys.kids
    requires x in v.phase && v.phase[x].Prepared? && v.phase[x].at == |v.order| && Held(b, v, x) == {}
    requires v'.phase == v.phase[y := Merged] && v'.order == v.order + [y] && v'.sys.kids == v.sys.kids
    requires a !in At(b.start, b.txs, x).foot && a in At(b.start, b.txs, y).foot
    ensures Enabled(b, v', DoTouch(x, a)) && RefusedTouch(b, v', DoTouch(x, a))
  {
    hide Runs, At, M.Inv, G.Sound, D.Inv, Reached, Ready, Owned, PlacesOk, RunningOk;
    RunningTable(b, v, x);
    assert v'.order[|v.order|] == y;
    WritesTouch(b, v', |v.order|, a);
  }

  /** Verifying a packed block with `n` workers cannot fail exactly when there is one worker or the graph
      orders every transaction with those that keep an account it may record and drop. */
  lemma WorkersExact(b: Block, recs: seq<set<Addr>>, start: Verifier, n: nat)
    requires WellPacked(b) && !G.HasCycle(b.dag) && InitialV(b, start) && Covers(b, recs) && n >= 1
    ensures (forall acts, e :: Goes(b, recs, n, start, acts, e) ==> AllOk(b, start, acts)) <==> n == 1 || Safe(b, recs)
  {
    hide Runs, VInv, Goes, AllOk, G.HasCycle, Exposed;
    InitialInvV(b, start);
    if n == 1 || Safe(b, recs) {
      forall acts, e | Goes(b, recs, n, start, acts, e) ensures AllOk(b, start, acts) { SafeRun(b, recs, n, start, acts, e); }
    } else {
      var x, y, a :| Exposed(b, recs, x, y, a);
      var acts, e := ExposedFails(b, recs, start, x, y, a);
      GoesMore(b, recs, 2, n, start, acts, e);
    }
  }
}
