/** The account state over the trie: a map of dirty accounts laid over the state trie, and the
    flush that writes the dirty accounts down in whatever order the map yields them. Accounts
    are their serialised bytes. */
module AccountState {
  import opened TrieTree
  import opened TrieCanonical
  import opened TrieStore
  import opened Trie

  /** The account at route `r` is dirty. */
  ghost predicate Covers(dirty: map<Bytes, Bytes>, r: Route)
  {
    exists k :: k in dirty && KeyToRoute(k) == r
  }

  /** `f` is `m` overwritten with the accounts of `dirty`. */
  ghost predicate Merged(m: KeyMap, dirty: map<Bytes, Bytes>, f: KeyMap)
  {
    (forall r :: r in f <==> r in m || Covers(dirty, r)) &&
    (forall k :: k in dirty ==> KeyToRoute(k) in f && f[KeyToRoute(k)] == dirty[k]) &&
    forall r :: r in m && r in f && !Covers(dirty, r) ==> f[r] == m[r]
  }

  lemma MergedUnique(m: KeyMap, dirty: map<Bytes, Bytes>, f: KeyMap, g: KeyMap)
    requires Merged(m, dirty, f) && Merged(m, dirty, g)
    ensures f == g
  {
  }

  /** What a map says of an address, under a layer of dirty accounts. */
  ghost function Overlay(m: KeyMap, dirty: map<Bytes, Bytes>, addr: Bytes): Result<Bytes>
  {
    if addr in dirty then Ok(dirty[addr])
    else if KeyToRoute(addr) in m then Ok(m[KeyToRoute(addr)])
    else Err(NotFound)
  }

  lemma OverlayMerged(m: KeyMap, dirty: map<Bytes, Bytes>, f: KeyMap)
    requires Merged(m, dirty, f)
    ensures forall a :: Overlay(f, map[], a) == Overlay(m, dirty, a)
  {
    forall a ensures Overlay(f, map[], a) == Overlay(m, dirty, a) {
      if a !in dirty && Covers(dirty, KeyToRoute(a)) {
        var k :| k in dirty && KeyToRoute(k) == KeyToRoute(a);
        KeyToRouteInjective(k, a);
      }
    }
  }

  /** The dirty accounts already written. */
  function Written(dirty: map<Bytes, Bytes>, todo: set<Bytes>): map<Bytes, Bytes>
  {
    map k | k in dirty && k !in todo :: dirty[k]
  }

  lemma MergedNone(m: KeyMap)
    ensures Merged(m, map[], m)
  {
  }

  /** One more account written. */
  lemma MergedStep(m: KeyMap, done: map<Bytes, Bytes>, f: KeyMap, k: Bytes, val: Bytes)
    requires Merged(m, done, f) && k !in done
    ensures Merged(m, done[k := val], f[KeyToRoute(k) := val])
  {
    var done', r0 := done[k := val], KeyToRoute(k);
    var g := f[r0 := val];
    forall r ensures Covers(done', r) <==> Covers(done, r) || r == r0 {
      CoversStep(done, k, val, r);
    }
    assert forall r :: r in g <==> r in m || Covers(done', r);
    forall l | l in done' ensures KeyToRoute(l) in g && g[KeyToRoute(l)] == done'[l] {
      if KeyToRoute(l) == r0 { KeyToRouteInjective(l, k); }
    }
  }

  lemma CoversStep(done: map<Bytes, Bytes>, k: Bytes, val: Bytes, r: Route)
    ensures Covers(done[k := val], r) <==> Covers(done, r) || r == KeyToRoute(k)
  {
  }

  class AccountState {
    const stateTrie: Trie
    var dirtyAccount: map<Bytes, Bytes>

    /** The map from account routes to accounts that the state trie holds. */
    ghost var stored: KeyMap
    ghost const width: nat

    ghost predicate Valid()
      reads this, stateTrie, stateTrie.storage
    {
      stateTrie.Valid() && Represents(stateTrie.tree, 2 * width, stored) &&
      forall k :: k in dirtyAccount ==> |k| == width
    }

    constructor (stateTrie: Trie, ghost width: nat, ghost stored: KeyMap)
      requires stateTrie.Valid() && Represents(stateTrie.tree, 2 * width, stored)
      ensures Valid() && this.stateTrie == stateTrie && dirtyAccount == map[] && this.stored == stored && this.width == width
    {
      this.stateTrie, this.width, this.stored, dirtyAccount := stateTrie, width, stored, map[];
    }

    /** What the state says of an address: the dirty account if there is one, else the stored. */
    ghost function View(addr: Bytes): Result<Bytes>
      reads this
    {
      Overlay(stored, dirtyAccount, addr)
    }

    /** Look an account up, keeping a dirty copy of what was found in the trie. */
    method GetAccount(addr: Bytes) returns (r: Result<Bytes>)
      requires Valid() && |addr| == width
      modifies this`dirtyAccount
      ensures Valid() && r == old(View(addr))
      ensures forall a :: View(a) == old(View(a))
      ensures r.Ok? ==> addr in dirtyAccount
    {
      if addr in dirtyAccount { return Ok(dirtyAccount[addr]); }
      r := stateTrie.Get(addr);
      if r.Ok? { dirtyAccount := dirtyAccount[addr := r.value]; }
    }

    /** Write every dirty account to the trie. The order is arbitrary, the root is not: it is
        the root of the one canonical tree of the merged map. No account's value changes. */
    method Flush()
      requires Valid()
      modifies this, stateTrie, stateTrie.storage
      ensures Valid() && dirtyAccount == map[]
      ensures Merged(old(stored), old(dirtyAccount), stored)
      ensures forall f, u :: Merged(old(stored), old(dirtyAccount), f) && Represents(u, 2 * width, f) ==>
                stateTrie.rootHash == HashOf(stateTrie.h, u)
      ensures forall a :: View(a) == old(View(a))
      ensures Grows(old(stateTrie.storage.data), stateTrie.storage.data)
    {
      hide Represents, Merged, Overlay, Stored, Sound, Addressed;
      ghost var m, all := stored, dirtyAccount;
      WriteAll();
      dirtyAccount := map[];
      FlushFacts(m, all);
      OverlayMerged(m, all, stored);
    }

    method WriteAll()
      requires Valid()
      modifies this`stored, stateTrie, stateTrie.storage
      ensures Valid() && Merged(old(stored), dirtyAccount, stored)
      ensures Grows(old(stateTrie.storage.data), stateTrie.storage.data)
    {
      hide Represents, Merged, Stored, Sound, Addressed;
      var todo := dirtyAccount.Keys;
      MergedNone(stored);
      assert Written(dirtyAccount, todo) == map[];
      while todo != {}
        invariant todo <= dirtyAccount.Keys && Valid()
        invariant Merged(old(stored), Written(dirtyAccount, todo), stored)
        invariant Grows(old(stateTrie.storage.data), stateTrie.storage.data)
      {
        var addr :| addr in todo;
        MergedStep(old(stored), Written(dirtyAccount, todo), stored, addr, dirtyAccount[addr]);
        assert Written(dirtyAccount, todo)[addr := dirtyAccount[addr]] == Written(dirtyAccount, todo - {addr});
        WriteAccount(addr, dirtyAccount[addr]);
        todo := todo - {addr};
      }
      assert Written(dirtyAccount, todo) == dirtyAccount;
    }

    method WriteAccount(addr: Bytes, bytes: Bytes)
      requires stateTrie.Valid() && Represents(stateTrie.tree, 2 * width, stored) && |addr| == width
      modifies this`stored, stateTrie, stateTrie.storage
      ensures stateTrie.Valid() && Represents(stateTrie.tree, 2 * width, stored)
      ensures stored == old(stored)[KeyToRoute(addr) := bytes]
      ensures Grows(old(stateTrie.storage.data), stateTrie.storage.data)
    {
      UpdateRepresents(stateTrie.tree, 2 * width, stored, KeyToRoute(addr), bytes);
      var r := stateTrie.Put(addr, bytes);
      stored := stored[KeyToRoute(addr) := bytes];
    }

    /** The root after a flush is that of any tree of the merged map. */
    lemma FlushFacts(m: KeyMap, all: map<Bytes, Bytes>)
      requires stateTrie.Valid() && Represents(stateTrie.tree, 2 * width, stored) && Merged(m, all, stored)
      ensures forall f, u :: Merged(m, all, f) && Represents(u, 2 * width, f) ==>
                stateTrie.rootHash == HashOf(stateTrie.h, u)
    {
      forall f, u | Merged(m, all, f) && Represents(u, 2 * width, f)
        ensures stateTrie.rootHash == HashOf(stateTrie.h, u)
      {
        MergedUnique(m, all, f, stored);
        RepresentsUnique(u, stateTrie.tree, 2 * width, f, stored);
      }
    }

    /** Take over the dirty accounts of a finished transaction. */
    method Replay(done: AccountState)
      requires Valid() && done.Valid() && done.width == width
      modifies this`dirtyAccount
      ensures Valid()
      ensures forall a :: View(a) == if a in old(done.dirtyAccount) then Ok(old(done.dirtyAccount[a])) else old(View(a))
    {
      dirtyAccount := dirtyAccount + done.dirtyAccount;
    }
  }
}
