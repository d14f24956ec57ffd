/** What the multi-version tables hold and return, value by value: every run refines a plain store in which a
    transaction writes into a buffer, reads its buffer over the state at its `Prepare`, and a merge that
    succeeds applies the buffer. */
module MvccStore {
  import opened Prelude
  import opened StagingTable
  import opened MvccRun

  /** The plain store. `committed` is what merges, and direct writes to the root, have left. `base` is what the
      keys seen so far were before that. Each prepared transaction has the committed values of the time of its
      `Prepare`, and its own writes. */
  datatype Store = Store(
    committed: map<Key, Val>, base: map<Key, Option<Val>>, snapshot: map<Tid, map<Key, Val>>, pending: map<Tid, map<Key, Val>>)

  function Lookup(stored: map<Key, Val>, key: Key): Option<Val>
  {
    if key in stored then Some(stored[key]) else None
  }

  /** A key's first lookup fixes what it was before any write: the stored value when it is read, nothing when it is
      written blindly. */
  function Seen(base: map<Key, Option<Val>>, key: Key, val: Option<Val>): map<Key, Option<Val>>
  {
    if key in base then base else base[key := val]
  }

  function With(buffer: map<Key, Val>, key: Key, val: Val): map<Key, Val>
  {
    buffer[key := val]
  }

  /** One step of the plain store. Whether a write or a merge goes through is the tables' decision. */
  function After(m: Store, s: Sys, stored: map<Key, Val>, step: Step): Store
  {
    match step
    case DoPrepare(tid) =>
      if tid == s.root.tid || tid in m.pending then m
      else m.(snapshot := m.snapshot[tid := m.committed], pending := m.pending[tid := map[]])
    case DoRootPut(key, val) =>
      if m.pending != map[] then m else m.(committed := m.committed[key := val], base := Seen(m.base, key, None))
    case DoClose(tid) => m.(snapshot := m.snapshot - {tid}, pending := m.pending - {tid})
    case DoGet(tid, key) => if tid in m.pending then m.(base := Seen(m.base, key, Lookup(stored, key))) else m
    case DoPut(tid, key, val) =>
      if tid !in m.pending || tid !in s.kids then m
      else if Put(s, stored, tid, key, val).1.None? then m.(base := Seen(m.base, key, None))
      else m.(base := Seen(m.base, key, None), pending := m.pending[tid := With(m.pending[tid], key, val)])
    case DoReset(tid) => if tid in m.pending then m.(pending := m.pending[tid := map[]]) else m
    case DoMerge(tid) =>
      if tid in m.pending && tid in s.kids && Mergeable(s.kids[tid], s.root)
      then m.(committed := m.committed + m.pending[tid], pending := m.pending[tid := map[]]) else m
  }

  // --- the refinement ------------------------------------------------------------------------

  type Values = map<Key, Val>
  type Before = map<Key, Option<Val>>

  /** A key's value: what was written over what it was before. */
  function Over(written: Values, base: Before, k: Key): Option<Val>
    requires k in base
  {
    if k in written then Some(written[k]) else base[k]
  }

  ghost predicate RootRefines(root: Table, committed: Values, base: Before)
  {
    root.values.Keys == base.Keys && committed.Keys <= base.Keys &&
    forall k :: k in root.values ==> root.values[k].val == Over(committed, base, k) && !root.values[k].deleted
  }

  /** Keys nobody has merged since are committed as they were. */
  ghost predicate SnapshotOk(log: seq<Commit>, preparing: nat, committed: Values, snap: Values)
  {
    forall k :: !WrittenSince(log, preparing, k) ==> (k in snap <==> k in committed) && (k in committed && k in snap ==> snap[k] == committed[k])
  }

  /** What a prepared table holds of a key: the transaction's own write, or the value at its `Prepare`. */
  ghost predicate ItemRefines(i: Item, k: Key, base: Before, snap: Values, pend: Values)
    requires k in base
  {
    !i.deleted && (i.dirty <==> k in pend) && i.val == if k in pend then Some(pend[k]) else Over(snap, base, k)
  }

  ghost predicate KidRefines(kid: Table, base: Before, snap: Values, pend: Values)
  {
    pend.Keys <= kid.values.Keys <= base.Keys && forall k :: k in kid.values ==> ItemRefines(kid.values[k], k, base, snap, pend)
  }

  ghost predicate TableRefines(s: Sys, m: Store, tid: Tid)
    requires tid in s.kids && tid in m.snapshot && tid in m.pending
  {
    KidRefines(s.kids[tid], m.base, m.snapshot[tid], m.pending[tid]) && SnapshotOk(s.log, s.kids[tid].preparing, m.committed, m.snapshot[tid])
  }

  ghost predicate Refines(s: Sys, m: Store)
  {
    Inv(s) && RootRefines(s.root, m.committed, m.base) && s.kids.Keys == m.pending.Keys == m.snapshot.Keys &&
    forall tid :: tid in s.kids ==> TableRefines(s, m, tid)
  }

  function Empty(): Store
  {
    Store(map[], map[], map[], map[])
  }

  lemma InitialRefines(rootTid: Tid)
    ensures Refines(Initial(rootTid), Empty())
  {
  }

  // --- lookups -----------------------------------------------------------------------------------

  lemma KidSeen(kid: Table, base: Before, snap: Values, pend: Values, key: Key, val: Option<Val>)
    requires KidRefines(kid, base, snap, pend)
    ensures KidRefines(kid, Seen(base, key, val), snap, pend)
  {
    var more := Seen(base, key, val);
    forall k | k in kid.values ensures ItemRefines(kid.values[k], k, more, snap, pend) { assert ItemRefines(kid.values[k], k, base, snap, pend); }
  }

  function Found(stored: map<Key, Val>, key: Key, load: bool): Option<Val>
  {
    if load then Lookup(stored, key) else None
  }

  lemma CachedRefines(s: Sys, m: Store, stored: map<Key, Val>, key: Key, load: bool)
    requires Refines(s, m)
    ensures Refines(s.(root := Cached(s.root, stored, key, load)), m.(base := Seen(m.base, key, Found(stored, key, load))))
  {
    hide Inv, KidRefines, SnapshotOk;
    CachedInv(s, stored, key, load);
    var s', m' := s.(root := Cached(s.root, stored, key, load)), m.(base := Seen(m.base, key, Found(stored, key, load)));
    forall tid | tid in s'.kids ensures TableRefines(s', m', tid) {
      assert TableRefines(s, m, tid);
      KidSeen(s.kids[tid], m.base, m.snapshot[tid], m.pending[tid], key, Found(stored, key, load));
    }
  }

  /** A table that is asked for a key it does not hold and gets an answer. */
  lemma KidAnswered(s: Sys, m: Store, tid: Tid, key: Key)
    requires Refines(s, m) && tid in s.kids && key in s.root.values && key !in s.kids[tid].values && !WrittenSince(s.log, s.kids[tid].preparing, key)
    ensures var i := CloneItem(tid, s.root.values[key]);
            KidRefines(s.kids[tid].(values := s.kids[tid].values[key := i]), m.base, m.snapshot[tid], m.pending[tid]) &&
            i.val == Over(m.snapshot[tid], m.base, key) && key !in m.pending[tid]
  {
    hide Inv;
    assert TableRefines(s, m, tid);
    var kid := s.kids[tid].(values := s.kids[tid].values[key := CloneItem(tid, s.root.values[key])]);
    forall k | k in kid.values ensures ItemRefines(kid.values[k], k, m.base, m.snapshot[tid], m.pending[tid]) {
      if k != key { assert ItemRefines(s.kids[tid].values[k], k, m.base, m.snapshot[tid], m.pending[tid]); }
    }
  }

  lemma AnswerRefines(s: Sys, m: Store, tid: Tid, key: Key)
    requires Refines(s, m) && tid in s.kids && key in s.root.values && key !in s.kids[tid].values
    ensures var f := Answered(s.kids[tid], s.root, key);
            Refines(WithChain(s, tid, f.chain), m) &&
            (f.item.Some? ==> key !in m.pending[tid] && f.item.value.val == Over(m.snapshot[tid], m.base, key))
  {
    hide Inv, KidRefines, SnapshotOk, RootRefines, WrittenSince;
    AnsweredExact(s, tid, key);
    KidStrict(s, tid);
    var f := Answered(s.kids[tid], s.root, key);
    var s' := WithChain(s, tid, f.chain);
    if f.item.Some? { KidAnswered(s, m, tid, key); }
    forall t | t in s'.kids ensures TableRefines(s', m, t) { assert TableRefines(s, m, t); }
  }

  /** What a lookup does to the two tables, and the value it returns: the transaction's own write, or the value at
      its `Prepare`. */
  lemma LookedUp(s: Sys, m: Store, stored: map<Key, Val>, tid: Tid, key: Key, load: bool)
    requires Refines(s, m) && tid in s.kids
    ensures var f := Fetch([s.kids[tid], s.root], stored, key, load); var m' := m.(base := Seen(m.base, key, Found(stored, key, load)));
            Refines(WithChain(s, tid, f.chain), m') &&
            (f.item.Some? ==> f.item.value.val == if key in m.pending[tid] then Some(m.pending[tid][key]) else Over(m.snapshot[tid], m'.base, key))
  {
    hide Inv, Fetch, SnapshotOk, RootRefines, Answered, Cached;
    KidStrict(s, tid);
    FetchTwo(s.kids[tid], s.root, stored, key, load);
    assert TableRefines(s, m, tid);
    if key in s.kids[tid].values {
      assert ItemRefines(s.kids[tid].values[key], key, m.base, m.snapshot[tid], m.pending[tid]);
      assert WithChain(s, tid, [s.kids[tid], s.root]) == s;
    } else {
      CachedRefines(s, m, stored, key, load);
      var s1 := s.(root := Cached(s.root, stored, key, load));
      AnswerRefines(s1, m.(base := Seen(m.base, key, Found(stored, key, load))), tid, key);
      var f := Answered(s.kids[tid], s1.root, key);
      assert WithChain(s, tid, f.chain) == WithChain(s1, tid, f.chain);
    }
  }

  // --- every step -----------------------------------------------------------------------------------

  lemma KidWrites(kid: Table, base: Before, snap: Values, pend: Values, key: Key, item: Item, val: Val)
    requires KidRefines(kid, base, snap, pend) && key in kid.values && item == kid.values[key].(dirty := true, val := Some(val))
    ensures KidRefines(kid.(values := kid.values[key := item]), base, snap, With(pend, key, val))
  {
    var kid', pend' := kid.(values := kid.values[key := item]), With(pend, key, val);
    forall k | k in kid'.values ensures ItemRefines(kid'.values[k], k, base, snap, pend') { assert ItemRefines(kid.values[k], k, base, snap, pend); }
  }

  lemma PutRefines(s: Sys, m: Store, stored: map<Key, Val>, tid: Tid, key: Key, val: Val)
    requires Refines(s, m) && tid in s.kids
    ensures Refines(Put(s, stored, tid, key, val).0, After(m, s, stored, DoPut(tid, key, val)))
  {
    hide Inv, Fetch, Put, RootRefines, SnapshotOk, KidRefines;
    LookedUp(s, m, stored, tid, key, false);
    PutIsFetch(s, stored, tid, key, val);
    PutExact(s, stored, tid, key, val);
    var f, m1 := Fetch([s.kids[tid], s.root], stored, key, false), m.(base := Seen(m.base, key, None));
    var s1, s' := WithChain(s, tid, f.chain), Put(s, stored, tid, key, val).0;
    if f.item.Some? {
      assert TableRefines(s1, m1, tid);
      KidWrites(s1.kids[tid], m1.base, m1.snapshot[tid], m1.pending[tid], key, f.item.value.(dirty := true, val := Some(val)), val);
      var m' := After(m, s, stored, DoPut(tid, key, val));
      forall t | t in s'.kids ensures TableRefines(s', m', t) { assert TableRefines(s1, m1, t); }
    }
  }

  lemma PrepareRefines(s: Sys, m: Store, stored: map<Key, Val>, tid: Tid)
    requires Refines(s, m)
    ensures Refines(Do(s, stored, DoPrepare(tid)), After(m, s, stored, DoPrepare(tid)))
  {
    hide Inv, RootRefines, KidRefines, SnapshotOk;
    if tid != s.root.tid && tid !in s.kids {
      PrepareInv(s, tid);
      var s', m' := Prepare(s, tid), After(m, s, stored, DoPrepare(tid));
      JustPrepared(s, m, tid);
      forall t | t in s'.kids ensures TableRefines(s', m', t) { if t != tid { assert TableRefines(s, m, t); } }
    }
  }

  lemma JustPrepared(s: Sys, m: Store, tid: Tid)
    requires tid !in s.kids
    ensures KidRefines(Prepare(s, tid).kids[tid], m.base, m.committed, map[])
    ensures SnapshotOk(s.log, Prepare(s, tid).kids[tid].preparing, m.committed, m.committed)
  {
  }

  lemma CloseRefines(s: Sys, m: Store, stored: map<Key, Val>, tid: Tid)
    requires Refines(s, m)
    ensures Refines(Close(s, tid), After(m, s, stored, DoClose(tid)))
  {
    hide Inv, RootRefines, KidRefines, SnapshotOk;
    CloseInv(s, tid);
    var s', m' := Close(s, tid), After(m, s, stored, DoClose(tid));
    forall t | t in s'.kids ensures TableRefines(s', m', t) { assert TableRefines(s, m, t); }
  }

  lemma ResetRefines(s: Sys, m: Store, tid: Tid)
    requires Refines(s, m) && tid in s.kids
    ensures Refines(Reset(s, tid), m.(pending := m.pending[tid := map[]]))
  {
    hide Inv, RootRefines, KidRefines, SnapshotOk;
    ResetInv(s, tid);
    var s', m' := Reset(s, tid), m.(pending := m.pending[tid := map[]]);
    EmptyRefines(s'.kids[tid], m.base, m.snapshot[tid]);
    forall t | t in s'.kids ensures TableRefines(s', m', t) { assert TableRefines(s, m, t); }
  }

  lemma EmptyRefines(kid: Table, base: Before, snap: Values)
    requires kid.values == map[]
    ensures KidRefines(kid, base, snap, map[])
  {
  }

  lemma RootPutRefines(s: Sys, m: Store, stored: map<Key, Val>, key: Key, val: Val)
    requires Refines(s, m) && s.kids == map[]
    ensures Refines(RootPut(s, stored, key, val), After(m, s, stored, DoRootPut(key, val)))
  {
    hide Inv, Fetch;
    RootPutInv(s, stored, key, val);
    CachedRefines(s, m, stored, key, false);
    FetchOne(s.root, stored, key, false);
    assert m.pending == map[];
  }

  /** A merge puts exactly what its table wrote into the parent, value and deletion mark, one version up, and leaves
      every other key of the parent alone. */
  lemma MergedContents(child: Table, parent: Table, k: Key)
    ensures k in Merged(child, parent).values <==> k in parent.values || (k in child.values && child.values[k].dirty)
    ensures k in child.values && child.values[k].dirty ==>
              var i := Merged(child, parent).values[k];
              i.val == child.values[k].val && i.deleted == child.values[k].deleted && i.tid == child.values[k].tid && i.dirty &&
              i.version == child.values[k].version + 1 && i.globalVersion == parent.globalVersion + 1
    ensures k in parent.values && !(k in child.values && child.values[k].dirty) ==> Merged(child, parent).values[k] == parent.values[k]
    ensures Merged(child, parent) == parent.(globalVersion := parent.globalVersion + 1, values := Merged(child, parent).values)
  {
  }

  lemma RootMerges(kid: Table, root: Table, committed: Values, base: Before, snap: Values, pend: Values)
    requires RootRefines(root, committed, base) && KidRefines(kid, base, snap, pend)
    ensures RootRefines(Merged(kid, root), committed + pend, base)
  {
    hide Merged;
    var root' := Merged(kid, root);
    forall k ensures k in root'.values <==> k in root.values { MergedContents(kid, root, k); }
    forall k | k in root'.values ensures root'.values[k].val == Over(committed + pend, base, k) && !root'.values[k].deleted {
      MergedContents(kid, root, k);
      assert k in kid.values ==> ItemRefines(kid.values[k], k, base, snap, pend);
    }
  }

  lemma SnapshotMerges(log: seq<Commit>, c: Commit, preparing: nat, committed: Values, snap: Values, pend: Values)
    requires SnapshotOk(log, preparing, committed, snap) && preparing <= |log| && pend.Keys <= c.writes
    ensures SnapshotOk(log + [c], preparing, committed + pend, snap)
  {
    var log' := log + [c];
    forall k ensures (k in pend ==> WrittenSince(log', preparing, k)) && (WrittenSince(log, preparing, k) ==> WrittenSince(log', preparing, k)) {
      assert log'[|log|] == c;
      if i :| preparing <= i < |log| && k in log[i].writes { assert k in log'[i].writes; }
    }
  }

  lemma MergeRefines(s: Sys, m: Store, stored: map<Key, Val>, tid: Tid)
    requires Refines(s, m) && tid in s.kids && Mergeable(s.kids[tid], s.root)
    ensures Refines(CheckAndUpdate(s, tid).0, After(m, s, stored, DoMerge(tid)))
  {
    hide Inv, Mergeable, Merged, SnapshotOk, RootRefines, KidRefines, CommitOf;
    CheckAndUpdateInv(s, tid);
    assert TableRefines(s, m, tid);
    var s', m' := CheckAndUpdate(s, tid).0, After(m, s, stored, DoMerge(tid));
    RootMerges(s.kids[tid], s.root, m.committed, m.base, m.snapshot[tid], m.pending[tid]);
    EmptyRefines(s'.kids[tid], m.base, m.snapshot[tid]);
    PendingWritten(s.kids[tid], m.base, m.snapshot[tid], m.pending[tid]);
    forall t | t in s'.kids ensures TableRefines(s', m', t) {
      assert TableRefines(s, m, t);
      KidStrict(s, t);
      SnapshotMerges(s.log, CommitOf(s.kids[tid]), s.kids[t].preparing, m.committed, m.snapshot[t], m.pending[tid]);
    }
  }

  lemma PendingWritten(kid: Table, base: Before, snap: Values, pend: Values)
    requires KidRefines(kid, base, snap, pend)
    ensures pend.Keys <= CommitOf(kid).writes
  {
    forall k | k in pend ensures k in CommitOf(kid).writes { assert ItemRefines(kid.values[k], k, base, snap, pend); }
  }

  lemma MergeOrNot(s: Sys, m: Store, stored: map<Key, Val>, tid: Tid)
    requires Refines(s, m) && tid in s.kids
    ensures Refines(CheckAndUpdate(s, tid).0, After(m, s, stored, DoMerge(tid)))
  {
    hide Refines, Mergeable;
    if Mergeable(s.kids[tid], s.root) { MergeRefines(s, m, stored, tid); }
  }

  /** Every step of the tables is the step of the plain store. */
  lemma StepRefines(s: Sys, m: Store, stored: map<Key, Val>, step: Step)
    requires Refines(s, m)
    ensures Refines(Do(s, stored, step), After(m, s, stored, step))
  {
    hide Inv, RootRefines, TableRefines, Fetch, Put, RootPut, CheckAndUpdate, Mergeable;
    match step
    case DoPrepare(tid) => PrepareRefines(s, m, stored, tid);
    case DoRootPut(key, val) => if s.kids == map[] { RootPutRefines(s, m, stored, key, val); }
    case DoClose(tid) => CloseRefines(s, m, stored, tid);
    case DoGet(tid, key) => if tid in s.kids { LookedUp(s, m, stored, tid, key, true); }
    case DoPut(tid, key, val) => if tid in s.kids { PutRefines(s, m, stored, tid, key, val); }
    case DoReset(tid) => if tid in s.kids { ResetRefines(s, m, tid); }
    case DoMerge(tid) => if tid in s.kids { MergeOrNot(s, m, stored, tid); }
  }

  /** The plain store's run beside the tables'. */
  function RunStore(m: Store, s: Sys, stored: map<Key, Val>, steps: seq<Step>): Store
    decreases |steps|
  {
    if steps == [] then m else RunStore(After(m, s, stored, steps[0]), Do(s, stored, steps[0]), stored, steps[1..])
  }

  lemma {:induction false} RunRefines(s: Sys, m: Store, stored: map<Key, Val>, steps: seq<Step>)
    requires Refines(s, m)
    ensures Refines(RunAll(s, stored, steps), RunStore(m, s, stored, steps))
    decreases |steps|
  {
    hide Refines, Do, After;
    if steps != [] {
      StepRefines(s, m, stored, steps[0]);
      RunRefines(Do(s, stored, steps[0]), After(m, s, stored, steps[0]), stored, steps[1..]);
    }
  }

  /** In every run the root holds, of every key, what the last merge or direct write that wrote it left. */
  lemma EveryRunValues(rootTid: Tid, stored: map<Key, Val>, steps: seq<Step>, k: Key)
    ensures var e, m := RunAll(Initial(rootTid), stored, steps), RunStore(Empty(), Initial(rootTid), stored, steps);
            (k in m.committed ==> k in e.root.values && e.root.values[k].val == Some(m.committed[k])) &&
            (k !in m.committed && k in e.root.values ==> k in m.base && e.root.values[k].val == m.base[k])
  {
    hide Inv, TableRefines, RunAll, RunStore;
    InitialRefines(rootTid);
    RunRefines(Initial(rootTid), Empty(), stored, steps);
  }

  /** What a transaction reads: its own write, or the value committed at its `Prepare`, or what the key was before. */
  lemma GetReads(s: Sys, m: Store, stored: map<Key, Val>, tid: Tid, key: Key)
    requires Refines(s, m) && tid in s.kids
    ensures var item := Get(s, stored, tid, key).1;
            item.Some? ==> item.value.val == if key in m.pending[tid] then Some(m.pending[tid][key])
                                             else Over(m.snapshot[tid], Seen(m.base, key, Lookup(stored, key)), key)
  {
    hide Refines, Fetch;
    LookedUp(s, m, stored, tid, key, true);
  }

  /** The first read of a key no table holds returns the stored value, exactly when there is one. */
  lemma FirstRead(s: Sys, stored: map<Key, Val>, tid: Tid, key: Key)
    requires Inv(s) && tid in s.kids && key !in s.root.values
    ensures var item := Get(s, stored, tid, key).1;
            item.Some? && item.value.val == if key in stored then Some(stored[key]) else None
  {
    KidStrict(s, tid);
    assert KidOk(s, tid);
    assert key !in s.kids[tid].values;
    FetchTwo(s.kids[tid], s.root, stored, key, true);
    hide Fetch, Inv;
  }

  /** A value put and merged is what a transaction prepared afterwards reads. */
  lemma PutMergeGet(s: Sys, stored: map<Key, Val>, t: Tid, u: Tid, key: Key, val: Val)
    requires Inv(s) && t in s.kids && Put(s, stored, t, key, val).1.Some?
    ensures var s1 := Put(s, stored, t, key, val).0;
            t in s1.kids && (Mergeable(s1.kids[t], s1.root) ==>
              var s2 := CheckAndUpdate(s1, t).0;
              u !in s2.kids && u != s2.root.tid ==>
                var item := Get(Prepare(s2, u), stored, u, key).1; item.Some? && item.value.val == Some(val))
  {
    hide Inv, Put, Mergeable, Merged, Fetch, CommitOf;
    PutExact(s, stored, t, key, val);
    PutFrame(s, stored, t, key, val);
    PutValue(s, stored, t, key, val);
    var s1 := Put(s, stored, t, key, val).0;
    if Mergeable(s1.kids[t], s1.root) {
      CheckAndUpdateInv(s1, t);
      MergedContents(s1.kids[t], s1.root, key);
      var s2 := CheckAndUpdate(s1, t).0;
      if u !in s2.kids && u != s2.root.tid { ReadsRoot(s2, stored, u, key); }
    }
  }

  lemma PutValue(s: Sys, stored: map<Key, Val>, tid: Tid, key: Key, val: Val)
    requires Inv(s) && tid in s.kids && Put(s, stored, tid, key, val).1.Some?
    ensures var s' := Put(s, stored, tid, key, val).0;
            tid in s'.kids && key in s'.kids[tid].values && s'.kids[tid].values[key].val == Some(val) && s'.kids[tid].values[key].dirty
  {
    hide Inv, Fetch, Put;
    PutIsFetch(s, stored, tid, key, val);
  }

  /** A table prepared now reads the root's value. */
  lemma ReadsRoot(s: Sys, stored: map<Key, Val>, tid: Tid, key: Key)
    requires Inv(s) && tid !in s.kids && tid != s.root.tid && key in s.root.values
    ensures var item := Get(Prepare(s, tid), stored, tid, key).1; item.Some? && item.value.val == s.root.values[key].val
  {
    PrepareInv(s, tid);
    var s' := Prepare(s, tid);
    assert RootItemOk(s, key);
    KidStrict(s', tid);
    FetchTwo(s'.kids[tid], s'.root, stored, key, true);
    hide Fetch, Inv;
  }
}
