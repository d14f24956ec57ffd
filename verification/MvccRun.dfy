/** A root table and the tables prepared under it, as a state machine over every interleaving of
    their operations, in the mode of the world state's changelog: versions checked strictly, no
    same-key compatibility. The log of successful merges is the history the theorems speak of. */
module MvccRun {
  import opened Prelude
  import opened StagingTable

  /** A successful merge: who, and which keys it wrote. */
  datatype Commit = Commit(tid: Tid, writes: set<Key>)

  datatype Sys = Sys(root: Table, kids: map<Tid, Table>, log: seq<Commit>)

  // --- the operations --------------------------------------------------------------

  function Initial(rootTid: Tid): Sys
  {
    Sys(Table(rootTid, 0, 0, map[], false, true), map[], [])
  }

  function Prepare(s: Sys, tid: Tid): Sys
  {
    if tid in s.kids then s
    else s.(kids := s.kids[tid := Table(tid, 0, s.root.globalVersion, map[], s.root.compat, s.root.strict)])
  }

  function WithChain(s: Sys, tid: Tid, chain: seq<Table>): Sys
    requires |chain| == 2
  {
    s.(root := chain[1], kids := s.kids[tid := chain[0]])
  }

  function Get(s: Sys, stored: map<Key, Val>, tid: Tid, key: Key): (Sys, Option<Item>)
    requires tid in s.kids
  {
    var f := Fetch([s.kids[tid], s.root], stored, key, true);
    (WithChain(s, tid, f.chain), f.item)
  }

  function Put(s: Sys, stored: map<Key, Val>, tid: Tid, key: Key, val: Val): (Sys, Option<Item>)
    requires tid in s.kids
  {
    var f := PutIn([s.kids[tid], s.root], stored, key, val);
    (WithChain(s, tid, f.chain), f.item)
  }

  /** Throw away what a prepared table holds. */
  function Reset(s: Sys, tid: Tid): Sys
    requires tid in s.kids
  {
    s.(kids := s.kids[tid := s.kids[tid].(values := map[])])
  }

  function Close(s: Sys, tid: Tid): Sys
  {
    s.(kids := s.kids - {tid})
  }

  /** Merge and, on success, purge the child's table. */
  function CheckAndUpdate(s: Sys, tid: Tid): (Sys, Option<set<Tid>>)
    requires tid in s.kids
  {
    var kid := s.kids[tid];
    if !Mergeable(kid, s.root) then (s, None)
    else
      var s' := s.(root := Merged(kid, s.root), log := s.log + [CommitOf(kid)]);
      (Reset(s', tid), Some(Dependencies(kid, s.root)))
  }

  function CommitOf(kid: Table): Commit
  {
    Commit(kid.tid, set k | k in kid.values && kid.values[k].dirty)
  }

  /** A write to the root itself; only made while nothing is prepared. */
  function RootPut(s: Sys, stored: map<Key, Val>, key: Key, val: Val): Sys
    requires s.kids == map[]
  {
    s.(root := PutIn([s.root], stored, key, val).chain[0])
  }

  // --- history ---------------------------------------------------------------------

  /** How many merges in the log wrote `k`. */
  function Count(log: seq<Commit>, k: Key): nat
  {
    if log == [] then 0 else Count(log[..|log| - 1], k) + if k in log[|log| - 1].writes then 1 else 0
  }

  /** One past the position of the last merge that wrote `k`; zero if none did. */
  function Last(log: seq<Commit>, k: Key): (i: nat)
    ensures i <= |log| && (i > 0 ==> k in log[i - 1].writes)
    ensures forall j :: i <= j < |log| ==> k !in log[j].writes
  {
    if log == [] then 0
    else if k in log[|log| - 1].writes then |log|
    else Last(log[..|log| - 1], k)
  }

  /** The transaction whose merge wrote `k` last. */
  function LastCommitter(log: seq<Commit>, k: Key): Option<Tid>
  {
    if Last(log, k) > 0 then Some(log[Last(log, k) - 1].tid) else None
  }

  /** Some merge after the first `from` wrote `k`. */
  ghost predicate WrittenSince(log: seq<Commit>, from: nat, k: Key)
  {
    exists i :: from <= i < |log| && k in log[i].writes
  }

  lemma {:induction false} CountSince(log: seq<Commit>, from: nat, k: Key)
    requires from <= |log|
    ensures Count(log[..from], k) <= Count(log, k)
    ensures Count(log[..from], k) == Count(log, k) <==> !WrittenSince(log, from, k)
    decreases |log|
  {
    if from < |log| {
      var init := log[..|log| - 1];
      CountSince(init, from, k);
      assert init[..from] == log[..from];
      if WrittenSince(init, from, k) { var i :| from <= i < |init| && k in init[i].writes; assert k in log[i].writes; }
      if k in log[|log| - 1].writes { assert WrittenSince(log, from, k); }
      if WrittenSince(log, from, k) && k !in log[|log| - 1].writes {
        var i :| from <= i < |log| && k in log[i].writes;
        assert k in init[i].writes;
      }
    } else {
      assert log[..from] == log;
    }
  }

  lemma LastSince(log: seq<Commit>, from: nat, k: Key)
    requires from <= |log|
    ensures Last(log, k) > from <==> WrittenSince(log, from, k)
    ensures Last(log, k) == 0 <==> Count(log, k) == 0
  {
    var i := Last(log, k);
    if i > from { assert k in log[i - 1].writes; }
    CountSince(log, 0, k);
    if i > 0 { assert WrittenSince(log, 0, k); }
  }

  lemma CountSnoc(log: seq<Commit>, c: Commit, k: Key)
    ensures Count(log + [c], k) == Count(log, k) + if k in c.writes then 1 else 0
    ensures Last(log + [c], k) == if k in c.writes then |log| + 1 else Last(log, k)
  {
  }

  // --- the invariant ---------------------------------------------------------------

  /** The root's item for `k` carries the number and the author of the merges that wrote it. */
  ghost predicate RootItemOk(s: Sys, k: Key)
    requires k in s.root.values
  {
    var i, l := s.root.values[k], Last(s.log, k);
    i.version == Count(s.log, k) && i.globalVersion == l &&
    (l > 0 ==> i.tid == s.log[l - 1].tid && i.dirty) && (l == 0 ==> i.tid == s.root.tid)
  }

  ghost predicate RootOk(s: Sys)
  {
    s.root.globalVersion == |s.log| && !s.root.compat && s.root.strict &&
    (forall k :: k in s.root.values ==> RootItemOk(s, k)) &&
    (forall k :: k !in s.root.values ==> Count(s.log, k) == 0) &&
    forall i :: 0 <= i < |s.log| ==> s.log[i].tid != s.root.tid
  }

  /** A child's item has the version of the time of `Prepare`, and its value while unwritten. */
  ghost predicate KidItemOk(s: Sys, kid: Table, k: Key)
    requires k in kid.values && kid.preparing <= |s.log|
  {
    var i := kid.values[k];
    k in s.root.values && i.version == Count(s.log[..kid.preparing], k) && i.tid == kid.tid &&
    (!i.dirty && i.version == s.root.values[k].version ==>
       i.val == s.root.values[k].val && i.deleted == s.root.values[k].deleted)
  }

  ghost predicate KidOk(s: Sys, tid: Tid)
    requires tid in s.kids
  {
    var kid := s.kids[tid];
    kid.tid == tid && tid != s.root.tid && kid.preparing <= |s.log| && !kid.compat && kid.strict &&
    forall k :: k in kid.values ==> KidItemOk(s, kid, k)
  }

  ghost predicate Inv(s: Sys)
  {
    RootOk(s) && forall t :: t in s.kids ==> KidOk(s, t)
  }

  /** What the invariant says of one key of a prepared table. */
  lemma KeyFacts(s: Sys, tid: Tid, k: Key)
    requires Inv(s) && tid in s.kids && k in s.kids[tid].values
    ensures k in s.root.values
    ensures ConflictAt(s.kids[tid], s.root, k) <==> WrittenSince(s.log, s.kids[tid].preparing, k)
    ensures IsDefault(s.root.values[k]) || s.root.values[k].tid == s.root.tid <==> Last(s.log, k) == 0
    ensures Last(s.log, k) > 0 ==> s.root.values[k].tid == s.log[Last(s.log, k) - 1].tid
  {
    var kid := s.kids[tid];
    assert KidOk(s, tid);
    assert KidItemOk(s, kid, k) && RootItemOk(s, k);
    CountSince(s.log, kid.preparing, k);
    LastSince(s.log, kid.preparing, k);
  }

  /** In a reachable state a merge succeeds exactly when no key its table holds was merged since
      its `Prepare`. */
  lemma MergeableExact(s: Sys, tid: Tid)
    requires Inv(s) && tid in s.kids
    ensures Mergeable(s.kids[tid], s.root) <==>
            forall k :: k in s.kids[tid].values ==> !WrittenSince(s.log, s.kids[tid].preparing, k)
  {
    hide Inv, WrittenSince;
    var kid := s.kids[tid];
    forall k | k in kid.values
      ensures ConflictAt(kid, s.root, k) <==> WrittenSince(s.log, kid.preparing, k)
    {
      KeyFacts(s, tid, k);
    }
    assert Mergeable(kid, s.root) <==> forall k :: k in kid.values ==> !ConflictAt(kid, s.root, k);
  }

  /** A merge that succeeds read only what is still current. */
  lemma ReadsAreCurrent(s: Sys, tid: Tid, k: Key)
    requires Inv(s) && tid in s.kids && Mergeable(s.kids[tid], s.root)
    requires k in s.kids[tid].values && !s.kids[tid].values[k].dirty
    ensures k in s.root.values && s.kids[tid].values[k].val == s.root.values[k].val
    ensures s.kids[tid].values[k].deleted == s.root.values[k].deleted
  {
    assert KidOk(s, tid) && KidItemOk(s, s.kids[tid], k);
    assert !IsConflict(s.kids[tid].values[k], s.root.values[k], s.kids[tid].compat);
  }

  /** The dependencies a merge reports are exactly the last committers of the keys it holds. */
  lemma DependenciesExact(s: Sys, tid: Tid, t: Tid)
    requires Inv(s) && tid in s.kids
    ensures t in Dependencies(s.kids[tid], s.root) <==>
            exists k :: k in s.kids[tid].values && LastCommitter(s.log, k) == Some(t)
  {
    var kid := s.kids[tid];
    assert KidOk(s, tid);
    hide Inv, Last;
    if t in Dependencies(kid, s.root) {
      var k :| k in kid.values && k in s.root.values && !IsDefault(s.root.values[k]) &&
               s.root.values[k].tid != s.root.tid && s.root.values[k].tid == t;
      KeyFacts(s, tid, k);
      assert LastCommitter(s.log, k) == Some(t);
    }
    if k :| k in kid.values && LastCommitter(s.log, k) == Some(t) {
      KeyFacts(s, tid, k);
    }
  }

  // --- every operation keeps the invariant -----------------------------------------

  lemma InitialInv(rootTid: Tid)
    ensures Inv(Initial(rootTid))
  {
  }

  /** A table nothing has been merged into and nothing is prepared under; its owner may have written to it. */
  ghost predicate Fresh(s: Sys)
  {
    Inv(s) && s.kids == map[] && s.log == []
  }

  /** Rewarding the coinbase before any transaction is prepared leaves the root fresh. */
  lemma RootPutFresh(s: Sys, stored: map<Key, Val>, key: Key, val: Val)
    requires Fresh(s)
    ensures Fresh(RootPut(s, stored, key, val)) && key in RootPut(s, stored, key, val).root.values
  {
    RootPutInv(s, stored, key, val);
  }

  lemma PrepareInv(s: Sys, tid: Tid)
    requires Inv(s) && tid != s.root.tid
    ensures Inv(Prepare(s, tid))
  {
    hide Count, Last;
    var s' := Prepare(s, tid);
    forall t | t in s'.kids ensures KidOk(s', t) { assert t in s.kids ==> KidOk(s, t); }
    forall k | k in s'.root.values ensures RootItemOk(s', k) { assert RootItemOk(s, k); }
  }

  lemma CloseInv(s: Sys, tid: Tid)
    requires Inv(s)
    ensures Inv(Close(s, tid))
  {
    hide Count, Last;
    var s' := Close(s, tid);
    forall t | t in s'.kids ensures KidOk(s', t) { assert KidOk(s, t); }
    forall k | k in s'.root.values ensures RootItemOk(s', k) { assert RootItemOk(s, k); }
  }

  lemma ResetInv(s: Sys, tid: Tid)
    requires Inv(s) && tid in s.kids
    ensures Inv(Reset(s, tid))
  {
    hide Count, Last;
    var s' := Reset(s, tid);
    assert KidOk(s, tid);
    forall t | t in s'.kids ensures KidOk(s', t) { assert KidOk(s, t); }
    forall k | k in s'.root.values ensures RootItemOk(s', k) { assert RootItemOk(s, k); }
  }

  /** The root once `key` has been looked up in it. */
  function Cached(root: Table, stored: map<Key, Val>, key: Key, load: bool): (r: Table)
    ensures key in r.values
  {
    if key in root.values then root
    else root.(values := root.values[key := DefaultItem(if load && key in stored then Some(stored[key]) else None, root.tid)])
  }

  lemma CachedInv(s: Sys, stored: map<Key, Val>, key: Key, load: bool)
    requires Inv(s)
    ensures Inv(s.(root := Cached(s.root, stored, key, load)))
  {
    var s' := s.(root := Cached(s.root, stored, key, load));
    LastSince(s.log, 0, key);
    hide Count, Last;
    forall k | k in s'.root.values ensures RootItemOk(s', k) { if k in s.root.values { assert RootItemOk(s, k); } }
    forall t | t in s'.kids ensures KidOk(s', t) {
      assert KidOk(s, t);
      forall k | k in s.kids[t].values ensures KidItemOk(s', s.kids[t], k) { assert KidItemOk(s, s.kids[t], k); }
    }
  }

  lemma FetchOne(root: Table, stored: map<Key, Val>, key: Key, load: bool)
    ensures var r := Cached(root, stored, key, load);
            Fetch([root], stored, key, load) == Fetched([r], Some(r.values[key]))
  {
  }

  /** What the child does with the root's answer. */
  function Answered(kid: Table, r: Table, key: Key): Fetched
    requires key in r.values
  {
    if key in kid.values then Fetched([kid, r], Some(kid.values[key]))
    else if r.values[key].globalVersion > kid.preparing then Fetched([kid, r], None)
    else var item := CloneItem(kid.tid, r.values[key]);
      Fetched([kid.(values := kid.values[key := item]), r], Some(item))
  }

  /** A lookup from a child, spelled out. */
  lemma FetchTwo(kid: Table, root: Table, stored: map<Key, Val>, key: Key, load: bool)
    requires kid.strict
    ensures key in kid.values ==> Fetch([kid, root], stored, key, load) == Fetched([kid, root], Some(kid.values[key]))
    ensures key !in kid.values ==>
              Fetch([kid, root], stored, key, load) == Answered(kid, Cached(root, stored, key, load), key)
  {
    var chain, r := [kid, root], Cached(root, stored, key, load);
    assert chain[0] == kid && chain[1..] == [root];
    FetchOne(root, stored, key, load);
    hide Cached;
    var up := Fetch([root], stored, key, load);
    assert [kid] + up.chain == [kid, r];
    if key !in kid.values {
      var kid' := kid.(values := kid.values[key := CloneItem(kid.tid, r.values[key])]);
      assert [kid'] + up.chain == [kid', r];
    }
  }

  /** A child that holds one more key, at the version of its `Prepare`. */
  lemma KidSetInv(s: Sys, tid: Tid, key: Key, item: Item)
    requires Inv(s) && tid in s.kids
    requires KidItemOk(s, s.kids[tid].(values := s.kids[tid].values[key := item]), key)
    ensures Inv(s.(kids := s.kids[tid := s.kids[tid].(values := s.kids[tid].values[key := item])]))
  {
    hide Count, Last, RootOk, KidItemOk;
    var kid := s.kids[tid].(values := s.kids[tid].values[key := item]);
    var s' := s.(kids := s.kids[tid := kid]);
    RootSame(s, s');
    forall t | t in s'.kids ensures KidOk(s', t) {
      assert KidOk(s, t);
      forall k | k in s'.kids[t].values ensures KidItemOk(s', s'.kids[t], k) {
        if t == tid && k == key { KidItemSame(s, s', kid, kid, k); } else { KidItemSame(s, s', s.kids[t], s'.kids[t], k); }
      }
    }
  }

  lemma RootSame(s: Sys, s': Sys)
    requires RootOk(s) && s'.root == s.root && s'.log == s.log
    ensures RootOk(s')
  {
    hide Count, Last;
    forall k | k in s'.root.values ensures RootItemOk(s', k) { assert RootItemOk(s, k); }
  }

  lemma KidItemSame(s: Sys, s': Sys, kid: Table, kid': Table, k: Key)
    requires s'.root == s.root && s'.log == s.log && kid.preparing == kid'.preparing <= |s.log| && kid.tid == kid'.tid
    requires k in kid.values && k in kid'.values && kid.values[k] == kid'.values[k] && KidItemOk(s, kid, k)
    ensures KidItemOk(s', kid', k)
  {
    hide Count, Last;
  }

  lemma KidStrict(s: Sys, tid: Tid)
    requires Inv(s) && tid in s.kids
    ensures s.kids[tid].strict && s.kids[tid].tid == tid && s.kids[tid].preparing <= |s.log|
  {
    assert KidOk(s, tid);
  }

  lemma AnsweredExact(s: Sys, tid: Tid, key: Key)
    requires Inv(s) && tid in s.kids && key in s.root.values && key !in s.kids[tid].values
    ensures var f := Answered(s.kids[tid], s.root, key);
            (f.item.None? <==> WrittenSince(s.log, s.kids[tid].preparing, key)) &&
            Inv(WithChain(s, tid, f.chain)) &&
            f.chain[0].values.Keys == s.kids[tid].values.Keys + if f.item.Some? then {key} else {}
  {
    var kid := s.kids[tid];
    assert KidOk(s, tid) && RootItemOk(s, key);
    LastSince(s.log, kid.preparing, key);
    CountSince(s.log, kid.preparing, key);
    if s.root.values[key].globalVersion > kid.preparing {
      assert WithChain(s, tid, [kid, s.root]) == s;
    } else {
      var item := CloneItem(tid, s.root.values[key]);
      assert KidItemOk(s, kid.(values := kid.values[key := item]), key);
      KidSetInv(s, tid, key, item);
    }
  }

  /** Looking a key up from a child fails exactly when the child does not hold it yet and it was
      merged since the child's `Prepare`. Otherwise the child now holds it. */
  lemma FetchExact(s: Sys, stored: map<Key, Val>, tid: Tid, key: Key, load: bool)
    requires Inv(s) && tid in s.kids
    ensures var f := Fetch([s.kids[tid], s.root], stored, key, load);
            (f.item.None? <==> key !in s.kids[tid].values && WrittenSince(s.log, s.kids[tid].preparing, key)) &&
            Inv(WithChain(s, tid, f.chain)) &&
            f.chain[0].values.Keys == s.kids[tid].values.Keys + if f.item.Some? then {key} else {}
  {
    var kid := s.kids[tid];
    KidStrict(s, tid);
    hide Fetch, Cached, Inv, Answered, WrittenSince;
    FetchTwo(kid, s.root, stored, key, load);
    if key in kid.values {
      assert WithChain(s, tid, [kid, s.root]) == s;
    } else {
      CachedInv(s, stored, key, load);
      var s' := s.(root := Cached(s.root, stored, key, load));
      AnsweredExact(s', tid, key);
      var f := Answered(kid, s'.root, key);
      assert WithChain(s, tid, f.chain) == WithChain(s', tid, f.chain);
    }
  }

  /** A write is a lookup whose item is then made dirty. */
  lemma PutIsFetch(s: Sys, stored: map<Key, Val>, tid: Tid, key: Key, val: Val)
    requires tid in s.kids
    ensures var f := Fetch([s.kids[tid], s.root], stored, key, false); var s1 := WithChain(s, tid, f.chain);
            var (s', item) := Put(s, stored, tid, key, val);
            if f.item.None? then s' == s1 && item == None
            else key in s1.kids[tid].values && s1.kids[tid].values[key] == f.item.value && item.Some? &&
                 var it := f.item.value.(dirty := true, val := Some(val));
                 s' == s1.(kids := s1.kids[tid := s1.kids[tid].(values := s1.kids[tid].values[key := it])])
  {
    hide Fetch;
    var f := Fetch([s.kids[tid], s.root], stored, key, false);
    if f.item.Some? {
      var it := f.item.value.(dirty := true, val := Some(val));
      var kid := f.chain[0].(values := f.chain[0].values[key := it]);
      assert [kid] + f.chain[1..] == [kid, f.chain[1]];
    }
  }

  /** So does writing it. */
  lemma PutExact(s: Sys, stored: map<Key, Val>, tid: Tid, key: Key, val: Val)
    requires Inv(s) && tid in s.kids
    ensures var (s', item) := Put(s, stored, tid, key, val);
            (item.None? <==> key !in s.kids[tid].values && WrittenSince(s.log, s.kids[tid].preparing, key)) &&
            Inv(s')
  {
    FetchExact(s, stored, tid, key, false);
    PutIsFetch(s, stored, tid, key, val);
    hide Fetch, WrittenSince, PutIn, Count, Last;
    var f := Fetch([s.kids[tid], s.root], stored, key, false);
    var s1 := WithChain(s, tid, f.chain);
    if f.item.Some? {
      var it := f.item.value.(dirty := true, val := Some(val));
      assert KidOk(s1, tid) && KidItemOk(s1, s1.kids[tid], key);
      assert KidItemOk(s1, s1.kids[tid].(values := s1.kids[tid].values[key := it]), key);
      hide Inv;
      KidSetInv(s1, tid, key, it);
    }
  }

  /** What a write changes: the child holds the key, dirty; nothing else of note. */
  lemma PutFrame(s: Sys, stored: map<Key, Val>, tid: Tid, key: Key, val: Val)
    requires Inv(s) && tid in s.kids
    ensures var (s', item) := Put(s, stored, tid, key, val);
            s'.log == s.log && s'.root.tid == s.root.tid && tid in s'.kids && s'.kids == s.kids[tid := s'.kids[tid]] &&
            s'.kids[tid] == s.kids[tid].(values := s'.kids[tid].values) &&
            (item.Some? ==> s'.kids[tid].values.Keys == s.kids[tid].values.Keys + {key} && s'.kids[tid].values[key].dirty) &&
            (item.None? ==> s'.kids[tid].values.Keys == s.kids[tid].values.Keys) &&
            forall k :: k in s.kids[tid].values && k != key ==> k in s'.kids[tid].values && s'.kids[tid].values[k] == s.kids[tid].values[k]
  {
    FetchExact(s, stored, tid, key, false);
    FetchFrame(s, stored, tid, key, false);
    PutIsFetch(s, stored, tid, key, val);
    hide Fetch, WrittenSince, PutIn, Inv;
  }

  /** A lookup changes nothing but the key looked up. */
  lemma FetchFrame(s: Sys, stored: map<Key, Val>, tid: Tid, key: Key, load: bool)
    requires Inv(s) && tid in s.kids
    ensures var f := Fetch([s.kids[tid], s.root], stored, key, load);
            f.chain[0] == s.kids[tid].(values := f.chain[0].values) && f.chain[1] == s.root.(values := f.chain[1].values) &&
            forall k :: k in s.kids[tid].values ==> k in f.chain[0].values && f.chain[0].values[k] == s.kids[tid].values[k]
  {
    assert KidOk(s, tid);
    FetchTwo(s.kids[tid], s.root, stored, key, load);
    hide Fetch;
  }

  /** A successful merge extends the log by one and keeps the invariant. */
  lemma CheckAndUpdateInv(s: Sys, tid: Tid)
    requires Inv(s) && tid in s.kids
    ensures Inv(CheckAndUpdate(s, tid).0)
  {
    var kid := s.kids[tid];
    if Mergeable(kid, s.root) {
      MergedRootOk(s, tid);
      var s' := s.(root := Merged(kid, s.root), log := s.log + [CommitOf(kid)]);
      forall t | t in s'.kids ensures KidOk(s', t) { MergedKidOk(s, tid, t); }
      ResetInv(s', tid);
    }
  }

  /** Every key of a merged root, before and after. */
  lemma MergedRootOk(s: Sys, tid: Tid)
    requires Inv(s) && tid in s.kids && Mergeable(s.kids[tid], s.root)
    ensures RootOk(s.(root := Merged(s.kids[tid], s.root), log := s.log + [CommitOf(s.kids[tid])]))
  {
    var kid := s.kids[tid];
    var c := CommitOf(kid);
    var s' := s.(root := Merged(kid, s.root), log := s.log + [c]);
    assert KidOk(s, tid);
    hide Count, Last;
    forall k | k in s'.root.values ensures RootItemOk(s', k) { MergedItemOk(s, tid, k); }
    forall k | k !in s'.root.values ensures Count(s'.log, k) == 0 { CountSnoc(s.log, c, k); }
  }

  lemma MergedItemOk(s: Sys, tid: Tid, k: Key)
    requires Inv(s) && tid in s.kids && Mergeable(s.kids[tid], s.root) && k in Merged(s.kids[tid], s.root).values
    ensures RootItemOk(s.(root := Merged(s.kids[tid], s.root), log := s.log + [CommitOf(s.kids[tid])]), k)
  {
    var kid := s.kids[tid];
    assert KidOk(s, tid);
    hide Count, Last;
    CountSnoc(s.log, CommitOf(kid), k);
    if k in kid.values && kid.values[k].dirty {
      assert KidItemOk(s, kid, k) && !IsConflict(kid.values[k], s.root.values[k], kid.compat);
    }
    assert RootItemOk(s, k);
  }

  lemma MergedKidOk(s: Sys, tid: Tid, t: Tid)
    requires Inv(s) && tid in s.kids && Mergeable(s.kids[tid], s.root) && t in s.kids
    ensures KidOk(s.(root := Merged(s.kids[tid], s.root), log := s.log + [CommitOf(s.kids[tid])]), t)
  {
    var c := CommitOf(s.kids[tid]);
    var s' := s.(root := Merged(s.kids[tid], s.root), log := s.log + [c]);
    assert KidOk(s, t) && KidOk(s, tid);
    var kid := s.kids[t];
    assert s'.log[..kid.preparing] == s.log[..kid.preparing];
    hide Count, Last;
    forall k | k in kid.values ensures KidItemOk(s', kid, k) {
      assert KidItemOk(s, kid, k);
      CountSince(s.log, kid.preparing, k);
      if k in c.writes {
        assert KidItemOk(s, s.kids[tid], k) && RootItemOk(s, k);
      }
    }
  }

  lemma RootPutInv(s: Sys, stored: map<Key, Val>, key: Key, val: Val)
    requires Inv(s) && s.kids == map[]
    ensures Inv(RootPut(s, stored, key, val))
  {
    CachedInv(s, stored, key, false);
    FetchOne(s.root, stored, key, false);
    hide Count, Last, Fetch, Cached;
    var r := Cached(s.root, stored, key, false);
    var s1 := s.(root := r);
    var s' := RootPut(s, stored, key, val);
    assert s'.root == r.(values := r.values[key := r.values[key].(dirty := true, val := Some(val))]);
    forall k | k in s'.root.values ensures RootItemOk(s', k) { assert RootItemOk(s1, k); }
    forall k | k !in s'.root.values ensures Count(s'.log, k) == 0 { assert k !in s1.root.values; }
  }

  // --- every run -------------------------------------------------------------------

  datatype Step =
    | DoPrepare(tid: Tid) | DoGet(tid: Tid, key: Key) | DoPut(tid: Tid, key: Key, val: Val)
    | DoReset(tid: Tid) | DoClose(tid: Tid) | DoMerge(tid: Tid) | DoRootPut(key: Key, val: Val)

  /** A step; on a transaction that is not prepared it is refused and nothing happens. */
  function Do(s: Sys, stored: map<Key, Val>, step: Step): Sys
  {
    match step
    case DoPrepare(tid) => if tid == s.root.tid then s else Prepare(s, tid)
    case DoRootPut(key, val) => if s.kids == map[] then RootPut(s, stored, key, val) else s
    case DoClose(tid) => Close(s, tid)
    case DoGet(tid, key) => if tid in s.kids then Get(s, stored, tid, key).0 else s
    case DoPut(tid, key, val) => if tid in s.kids then Put(s, stored, tid, key, val).0 else s
    case DoReset(tid) => if tid in s.kids then Reset(s, tid) else s
    case DoMerge(tid) => if tid in s.kids then CheckAndUpdate(s, tid).0 else s
  }

  function RunAll(s: Sys, stored: map<Key, Val>, steps: seq<Step>): Sys
    decreases |steps|
  {
    if steps == [] then s else RunAll(Do(s, stored, steps[0]), stored, steps[1..])
  }

  lemma StepInv(s: Sys, stored: map<Key, Val>, step: Step)
    requires Inv(s)
    ensures Inv(Do(s, stored, step))
  {
    hide Inv, Fetch, PutIn, Merged, Mergeable;
    match step
    case DoPrepare(tid) => if tid != s.root.tid { PrepareInv(s, tid); }
    case DoRootPut(key, val) => if s.kids == map[] { RootPutInv(s, stored, key, val); }
    case DoClose(tid) => CloseInv(s, tid);
    case DoGet(tid, key) => if tid in s.kids { FetchExact(s, stored, tid, key, true); }
    case DoPut(tid, key, val) => if tid in s.kids { PutExact(s, stored, tid, key, val); }
    case DoReset(tid) => if tid in s.kids { ResetInv(s, tid); }
    case DoMerge(tid) => if tid in s.kids { CheckAndUpdateInv(s, tid); }
  }

  /** In every run, every key's version is the number of successful merges that wrote it. */
  lemma {:induction false} EveryRun(s: Sys, stored: map<Key, Val>, steps: seq<Step>)
    requires Inv(s)
    ensures var e := RunAll(s, stored, steps);
            Inv(e) && forall k :: (k in e.root.values ==> e.root.values[k].version == Count(e.log, k)) &&
                                  (k !in e.root.values ==> Count(e.log, k) == 0)
    decreases |steps|
  {
    if steps != [] {
      StepInv(s, stored, steps[0]);
      EveryRun(Do(s, stored, steps[0]), stored, steps[1..]);
    } else {
      assert forall k :: k in s.root.values ==> RootItemOk(s, k);
    }
  }

  /** A transaction that records an account late: another one has merged it since both were prepared. */
  lemma LateTouch(root: Tid, stored: map<Key, Val>, t: Tid, u: Tid, k: Key)
    requires t != u && t != root && u != root
    ensures var s := RunAll(Initial(root), stored, [DoPrepare(t), DoPrepare(u), DoPut(t, k, k), DoMerge(t)]);
            u in s.kids && Put(s, stored, u, k, k).1 == None
  {
    hide Inv, Put, Mergeable, Merged, RunAll;
    InitialInv(root);
    PrepareInv(Initial(root), t);
    PrepareInv(Prepare(Initial(root), t), u);
    var a := Prepare(Prepare(Initial(root), t), u);
    PutExact(a, stored, t, k, k);
    PutFrame(a, stored, t, k, k);
    var b := Put(a, stored, t, k, k).0;
    MergeableExact(b, t);
    CheckAndUpdateInv(b, t);
    var c := CheckAndUpdate(b, t).0;
    assert c.log == [CommitOf(b.kids[t])] && k in c.log[0].writes;
    PutExact(c, stored, u, k, k);
    FourSteps(Initial(root), stored, DoPrepare(t), DoPrepare(u), DoPut(t, k, k), DoMerge(t));
  }

  lemma FourSteps(s: Sys, stored: map<Key, Val>, a: Step, b: Step, c: Step, d: Step)
    ensures RunAll(s, stored, [a, b, c, d]) == Do(Do(Do(Do(s, stored, a), stored, b), stored, c), stored, d)
  {
    hide Do;
    assert [a, b, c, d][1..] == [b, c, d] && [b, c, d][1..] == [c, d] && [c, d][1..] == [d] && [d][1..] == [];
    var s1 := Do(s, stored, a);
    var s2 := Do(s1, stored, b);
    var s3 := Do(s2, stored, c);
    assert RunAll(s3, stored, [d]) == RunAll(Do(s3, stored, d), stored, []);
    assert RunAll(s2, stored, [c, d]) == RunAll(s3, stored, [d]);
    assert RunAll(s1, stored, [b, c, d]) == RunAll(s2, stored, [c, d]);
  }
}
