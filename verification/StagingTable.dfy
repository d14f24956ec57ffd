/** `common/mvccdb/staging_table.go`: staging tables of versioned values, a child table per
    prepared transaction, and the optimistic merge of a child into its parent. */
module StagingTable {
  import opened Prelude

  /** Keys, values and transaction ids are opaque; only equality matters. */
  type Key = nat
  type Val = nat
  type Tid = nat

  datatype Error = KeyConfliction | ParentIsNil | TidIsExist

  /** A versioned value. `val` is `None` for a key that is not in storage. */
  datatype Item = Item(tid: Tid, val: Option<Val>, version: nat, deleted: bool, dirty: bool, globalVersion: nat)

  predicate IsDefault(i: Item) { i.version == 0 && !i.dirty }

  function DefaultItem(val: Option<Val>, tid: Tid): Item
  {
    Item(tid, val, 0, false, false, 0)
  }

  function CloneItem(tid: Tid, i: Item): Item
  {
    Item(tid, i.val, i.version, i.deleted, false, i.globalVersion)
  }

  function CloneForMerge(i: Item, globalVersion: nat): Item
  {
    Item(i.tid, i.val, i.version + 1, i.deleted, true, globalVersion)
  }

  /** Whether merging `i` over the parent's `b` is refused. */
  predicate IsConflict(i: Item, b: Item, trieSameKeyCompatibility: bool)
  {
    i.version != b.version &&
    (trieSameKeyCompatibility ==> i.deleted != b.deleted || (!i.deleted && i.val != b.val))
  }

  /** The content of one table. */
  datatype Table = Table(
    tid: Tid,
    globalVersion: nat,
    preparing: nat,
    values: map<Key, Item>,
    compat: bool,
    strict: bool)

  /** The outcome of a lookup that may cache items in every table of the chain. */
  datatype Fetched = Fetched(chain: seq<Table>, item: Option<Item>)

  /** Look `key` up in a chain of tables, the table first and its root last, caching a copy in
      every table that lacks it. No item means a version conflict. */
  function Fetch(chain: seq<Table>, stored: map<Key, Val>, key: Key, load: bool): (f: Fetched)
    requires chain != []
    ensures |f.chain| == |chain|
    ensures f.item.Some? ==> key in f.chain[0].values && f.chain[0].values[key] == f.item.value
    decreases |chain|
  {
    var t := chain[0];
    if key in t.values then Fetched(chain, Some(t.values[key]))
    else if |chain| == 1 then
      var item := DefaultItem(if load && key in stored then Some(stored[key]) else None, t.tid);
      Fetched([t.(values := t.values[key := item])], Some(item))
    else
      var up := Fetch(chain[1..], stored, key, load);
      if up.item.None? || (t.strict && up.item.value.globalVersion > t.preparing) then
        Fetched([t] + up.chain, None)
      else
        var item := CloneItem(t.tid, up.item.value);
        Fetched([t.(values := t.values[key := item])] + up.chain, Some(item))
  }

  /** Record a write: fetch without storage, then mark dirty. */
  function PutIn(chain: seq<Table>, stored: map<Key, Val>, key: Key, val: Val): (f: Fetched)
    requires chain != []
    ensures |f.chain| == |chain|
  {
    var f := Fetch(chain, stored, key, false);
    if f.item.None? then f else
      var item := f.item.value.(dirty := true, val := Some(val));
      Fetched([f.chain[0].(values := f.chain[0].values[key := item])] + f.chain[1..], Some(item))
  }

  function DelIn(chain: seq<Table>, stored: map<Key, Val>, key: Key): (f: Fetched)
    requires chain != []
    ensures |f.chain| == |chain|
  {
    var f := Fetch(chain, stored, key, false);
    if f.item.None? then f else
      var item := f.item.value.(dirty := true, deleted := true);
      Fetched([f.chain[0].(values := f.chain[0].values[key := item])] + f.chain[1..], Some(item))
  }

  // --- what lookups and writes come to, on chains of any length --------------------------------

  /** The first table of the chain that holds the key, or none. */
  function Holder(chain: seq<Table>, key: Key): (h: nat)
    ensures h <= |chain| && (h < |chain| ==> key in chain[h].values) && forall j :: 0 <= j < h ==> key !in chain[j].values
  {
    if chain == [] || key in chain[0].values then 0 else 1 + Holder(chain[1..], key)
  }

  /** A lookup answers with the value of the nearest table that holds the key, else with the stored one. */
  lemma {:induction false} FetchReads(chain: seq<Table>, stored: map<Key, Val>, key: Key, load: bool)
    requires chain != []
    ensures var f, h := Fetch(chain, stored, key, load), Holder(chain, key);
            f.item.Some? ==> var i := f.item.value;
              if h < |chain| then
                var held := chain[h].values[key];
                i.val == held.val && i.deleted == held.deleted && i.version == held.version && i.globalVersion == held.globalVersion &&
                (h > 0 ==> i.tid == chain[0].tid && !i.dirty) && (h == 0 ==> i == held)
              else i == Item(chain[0].tid, if load && key in stored then Some(stored[key]) else None, 0, false, false, 0)
    decreases |chain|
  {
    if key !in chain[0].values && |chain| > 1 { FetchReads(chain[1..], stored, key, load); }
  }

  /** It is refused exactly when a strict table on the way was prepared before that value was merged. */
  lemma {:induction false} FetchRefused(chain: seq<Table>, stored: map<Key, Val>, key: Key, load: bool)
    requires chain != []
    ensures var h := Holder(chain, key);
            Fetch(chain, stored, key, load).item.None? <==>
              h < |chain| && exists j :: 0 <= j < h && chain[j].strict && chain[h].values[key].globalVersion > chain[j].preparing
    decreases |chain|
  {
    if key !in chain[0].values && |chain| > 1 {
      var rest, h := chain[1..], Holder(chain, key);
      FetchRefused(rest, stored, key, load);
      FetchReads(rest, stored, key, load);
      if h < |chain| {
        if j :| 0 <= j < h - 1 && rest[j].strict && rest[h - 1].values[key].globalVersion > rest[j].preparing { assert chain[j + 1].strict; }
        if j :| 0 < j < h && chain[j].strict && chain[h].values[key].globalVersion > chain[j].preparing { assert rest[j - 1].strict; }
      }
    }
  }

  /** It disturbs no other key of any table, and none of the items already there. */
  lemma {:induction false} FetchKeeps(chain: seq<Table>, stored: map<Key, Val>, key: Key, load: bool, j: nat)
    requires chain != [] && j < |chain|
    ensures var now := Fetch(chain, stored, key, load).chain[j];
            now == chain[j].(values := now.values) && now.values - {key} == chain[j].values - {key} &&
            (key in chain[j].values ==> key in now.values && now.values[key] == chain[j].values[key])
    decreases |chain|
  {
    if key !in chain[0].values && |chain| > 1 && j > 0 { FetchKeeps(chain[1..], stored, key, load, j - 1); }
  }

  /** A write that goes through sets the value, and a delete the mark; both make the item dirty and leave its version. */
  lemma WriteReads(chain: seq<Table>, stored: map<Key, Val>, key: Key, val: Val)
    requires chain != [] && Fetch(chain, stored, key, false).item.Some?
    ensures var was, put, del := Fetch(chain, stored, key, false).item.value, PutIn(chain, stored, key, val), DelIn(chain, stored, key);
            put.item == Some(Item(was.tid, Some(val), was.version, was.deleted, true, was.globalVersion)) && put.chain[0].values[key] == put.item.value &&
            del.item == Some(Item(was.tid, was.val, was.version, true, true, was.globalVersion)) && del.chain[0].values[key] == del.item.value
  {
  }

  /** No key of the child conflicts with the parent. */
  predicate Mergeable(child: Table, parent: Table)
  {
    forall k :: k in child.values && k in parent.values ==>
      !IsConflict(child.values[k], parent.values[k], child.compat)
  }

  /** A merge goes through exactly when every key both tables hold has the version it was looked up with; in the
      compatible mode it is enough that both say the same of the key. */
  lemma MergeableBy(child: Table, parent: Table)
    ensures Mergeable(child, parent) <==> forall k :: k in child.values && k in parent.values ==>
              child.values[k].version == parent.values[k].version ||
              (child.compat && ((child.values[k].deleted && parent.values[k].deleted) ||
                                (!child.values[k].deleted && !parent.values[k].deleted && child.values[k].val == parent.values[k].val)))
  {
  }

  /** The transactions a merge depends on. */
  function Dependencies(child: Table, parent: Table): set<Tid>
  {
    if child.compat then {}
    else set k | k in child.values && k in parent.values && !IsDefault(parent.values[k]) &&
                 parent.values[k].tid != parent.tid :: parent.values[k].tid
  }

  /** A merge depends on a transaction exactly when that one, and not the parent's owner, wrote an item of a key both tables
      hold; an item that was only looked up has no author. In the compatible mode there are no dependencies. */
  lemma DependsOn(child: Table, parent: Table, t: Tid)
    ensures t in Dependencies(child, parent) <==>
            !child.compat && t != parent.tid &&
            exists k :: k in child.values && k in parent.values && parent.values[k].tid == t && (parent.values[k].version > 0 || parent.values[k].dirty)
  {
  }

  /** The parent after a merge: the dirty items of the child replace the parent's. */
  function Merged(child: Table, parent: Table): Table
  {
    var v := parent.globalVersion + 1;
    parent.(globalVersion := v, values := parent.values + DirtyItems(child, v, {}))
  }

  predicate ConflictAt(child: Table, parent: Table, k: Key)
  {
    k in child.values && k in parent.values && IsConflict(child.values[k], parent.values[k], child.compat)
  }

  /** What key `k` adds to the dependencies. */
  function DepsAt(child: Table, parent: Table, k: Key): set<Tid>
  {
    if !child.compat && k in child.values && k in parent.values && !IsDefault(parent.values[k]) &&
       parent.values[k].tid != parent.tid
    then {parent.values[k].tid} else {}
  }

  /** The first pass of a merge, over the keys in any order: conflicts and dependencies. */
  method CheckVersions(child: Table, parent: Table) returns (conflicts: set<Key>, dependent: set<Tid>)
    ensures conflicts == {} <==> Mergeable(child, parent)
    ensures conflicts == {} ==> dependent == Dependencies(child, parent)
  {
    conflicts, dependent := {}, {};
    var todo := child.values.Keys;
    while todo != {}
      invariant todo <= child.values.Keys
      invariant forall k :: k in conflicts <==> k in child.values && k !in todo && ConflictAt(child, parent, k)
      invariant conflicts == {} ==> forall k :: k in child.values && k !in todo ==> DepsAt(child, parent, k) <= dependent
      invariant forall t :: t in dependent ==> t in Dependencies(child, parent)
      decreases |todo|
    {
      var key :| key in todo;
      var conflict, deps := CheckKey(child, parent, key);
      if conflict { conflicts := conflicts + {key}; }
      dependent := dependent + deps;
      todo := todo - {key};
    }
    CheckedAll(child, parent, conflicts, dependent);
  }

  lemma CheckedAll(child: Table, parent: Table, conflicts: set<Key>, dependent: set<Tid>)
    requires forall k :: k in conflicts <==> k in child.values && ConflictAt(child, parent, k)
    requires conflicts == {} ==> forall k :: k in child.values ==> DepsAt(child, parent, k) <= dependent
    requires forall t :: t in dependent ==> t in Dependencies(child, parent)
    ensures conflicts == {} <==> Mergeable(child, parent)
    ensures conflicts == {} ==> dependent == Dependencies(child, parent)
  {
  }

  /** One key of the first pass: whether it conflicts, and if not what it depends on. */
  method CheckKey(child: Table, parent: Table, key: Key) returns (conflict: bool, deps: set<Tid>)
    requires key in child.values
    ensures conflict <==> ConflictAt(child, parent, key)
    ensures deps == if conflict then {} else DepsAt(child, parent, key)
    ensures deps <= Dependencies(child, parent)
  {
    if key !in parent.values { return false, {}; }
    var target := parent.values[key];
    if IsConflict(child.values[key], target, child.compat) { return true, {}; }
    if IsDefault(target) { return false, {}; }
    if target.tid == parent.tid { return false, {}; }
    if child.compat { return false, {}; }
    return false, {target.tid};
  }

  /** The dirty items of a child, as they are merged. */
  function DirtyItems(child: Table, v: nat, skip: set<Key>): map<Key, Item>
  {
    map k | k in child.values && k !in skip && child.values[k].dirty :: CloneForMerge(child.values[k], v)
  }

  lemma DirtyStep(child: Table, v: nat, todo: set<Key>, key: Key)
    requires key in todo && key in child.values
    ensures DirtyItems(child, v, todo - {key}) ==
            if child.values[key].dirty then DirtyItems(child, v, todo)[key := CloneForMerge(child.values[key], v)]
            else DirtyItems(child, v, todo)
  {
  }

  /** The second pass: copy the dirty items over the parent's, in any order. */
  method CopyDirty(child: Table, was: map<Key, Item>, v: nat) returns (r: map<Key, Item>)
    ensures r == was + DirtyItems(child, v, {})
  {
    r := was;
    var todo := child.values.Keys;
    hide DirtyItems;
    assert DirtyItems(child, v, todo) == map[] by { DirtyNone(child, v); }
    while todo != {}
      invariant todo <= child.values.Keys
      invariant r == was + DirtyItems(child, v, todo)
      decreases |todo|
    {
      var key :| key in todo;
      DirtyStep(child, v, todo, key);
      todo := todo - {key};
      if IsDefault(child.values[key]) { continue; }
      if !child.values[key].dirty { continue; }
      r := r[key := CloneForMerge(child.values[key], v)];
    }
  }

  lemma DirtyNone(child: Table, v: nat)
    ensures DirtyItems(child, v, child.values.Keys) == map[]
  {
  }

  class StagingTable {
    const storage: map<Key, Val>
    const tid: Tid
    const compat: bool
    const strict: bool
    const preparing: nat
    var globalVersion: nat
    var values: map<Key, Item>
    var parent: StagingTable?
    var prepared: map<Tid, StagingTable>

    /** This table and its ancestors. */
    ghost const Repr: set<object>

    ghost predicate Valid()
      reads this, Repr
      decreases Repr
    {
      this in Repr &&
      (parent != null ==> parent in Repr && parent.Repr < Repr && this !in parent.Repr && parent.storage == storage &&
                          parent.Valid())
    }

    /** The content of this table. */
    function Content(): Table
      reads this
    {
      Table(tid, globalVersion, preparing, values, compat, strict)
    }

    /** The contents of this table and its ancestors, root last. */
    ghost function Chain(): (c: seq<Table>)
      requires Valid()
      reads this, Repr
      ensures c != [] && c[0] == Content()
      decreases Repr
    {
      if parent == null then [Content()] else [Content()] + parent.Chain()
    }

    constructor (storage: map<Key, Val>, tid: Tid, compat: bool, strict: bool)
      ensures Valid() && parent == null && prepared == map[] && Repr == {this}
      ensures Content() == Table(tid, 0, 0, map[], compat, strict) && this.storage == storage
    {
      this.storage, this.tid, this.compat, this.strict := storage, tid, compat, strict;
      globalVersion, preparing, values, parent, prepared := 0, 0, map[], null, map[];
      Repr := {this};
    }

    constructor Child(p: StagingTable, tid: Tid)
      requires p.Valid()
      ensures Valid() && parent == p && prepared == map[] && Repr == {this} + p.Repr
      ensures Content() == Table(tid, 0, p.globalVersion, map[], p.compat, p.strict)
    {
      storage, this.tid, compat, strict := p.storage, tid, p.compat, p.strict;
      globalVersion, preparing, values, parent, prepared := 0, p.globalVersion, map[], p, map[];
      Repr := {this} + p.Repr;
    }

    /** A child table at the parent's current version; one per transaction id. */
    method Prepare(tid: Tid) returns (child: StagingTable?)
      requires Valid()
      modifies this`prepared
      ensures Valid() && Content() == old(Content()) && Chain() == old(Chain())
      ensures child == null <==> tid in old(prepared)
      ensures child == null ==> prepared == old(prepared)
      ensures child != null ==> fresh(child) && child.Valid() && child.parent == this && prepared == old(prepared)[tid := child]
      ensures child != null ==> child.Content() == Table(tid, 0, globalVersion, map[], compat, strict)
    {
      if tid in prepared { return null; }
      child := new StagingTable.Child(this, tid);
      prepared := prepared[tid := child];
    }

    method GetByKey(key: Key, load: bool) returns (item: Option<Item>)
      requires Valid()
      modifies set o: StagingTable | o in Repr :: o`values
      ensures Valid() && Fetched(Chain(), item) == Fetch(old(Chain()), storage, key, load)
      decreases Repr
    {
      if key in values { return Some(values[key]); }
      if parent != null {
        item := parent.GetByKey(key, load);
        if item.None? { return; }
        if strict && item.value.globalVersion > preparing { return None; }
        item := Some(CloneItem(tid, item.value));
      } else {
        item := Some(DefaultItem(if load && key in storage then Some(storage[key]) else None, tid));
      }
      values := values[key := item.value];
    }

    method Put(key: Key, val: Val) returns (item: Option<Item>)
      requires Valid()
      modifies set o: StagingTable | o in Repr :: o`values
      ensures Valid() && Fetched(Chain(), item) == PutIn(old(Chain()), storage, key, val)
    {
      item := GetByKey(key, false);
      if item.None? { return; }
      item := Some(item.value.(dirty := true, val := Some(val)));
      values := values[key := item.value];
    }

    method Del(key: Key) returns (item: Option<Item>)
      requires Valid()
      modifies set o: StagingTable | o in Repr :: o`values
      ensures Valid() && Fetched(Chain(), item) == DelIn(old(Chain()), storage, key)
    {
      item := GetByKey(key, false);
      if item.None? { return; }
      item := Some(item.value.(dirty := true, deleted := true));
      values := values[key := item.value];
    }

    /** Merge into the parent: refused without effect on a conflict; otherwise the dirty items
        become the parent's, one version up, and the transactions depended on are returned. */
    method MergeToParent() returns (tids: set<Tid>, error: Option<Error>)
      requires Valid()
      modifies parent
      ensures Valid() && values == old(values) && parent == old(parent)
      ensures parent == null ==> error == Some(ParentIsNil)
      ensures parent != null && !Mergeable(Content(), old(parent.Content())) ==>
                error == Some(KeyConfliction) && parent.Content() == old(parent.Content())
      ensures parent != null && Mergeable(Content(), old(parent.Content())) ==>
                error == None && parent.Content() == Merged(Content(), old(parent.Content())) &&
                tids == Dependencies(Content(), old(parent.Content()))
      ensures parent != null ==> parent.prepared == old(parent.prepared)
    {
      if parent == null { return {}, Some(ParentIsNil); }
      var conflicts, dependent := CheckVersions(Content(), parent.Content());
      if |conflicts| > 0 { return {}, Some(KeyConfliction); }
      parent.globalVersion := parent.globalVersion + 1;
      parent.values := CopyDirty(Content(), parent.values, parent.globalVersion);
      return dependent, None;
    }
  }
}
