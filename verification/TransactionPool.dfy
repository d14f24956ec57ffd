/** The pool of pending transactions: one nonce-sorted bucket per sender, and the heads of the
    buckets as candidates sorted by gas price. */
module TransactionPool {
  import opened Prelude
  import opened SortedSlice

  type Addr = nat
  type Hash = nat

  datatype Tx = Tx(hash: Hash, from: Addr, to: Addr, nonce: nat, gasPrice: nat, gasLimit: nat)
  datatype Error = DuplicatedTransaction | BelowGasPrice | GasLimitLessOrEqualToZero | OutOfGasLimit | IntegrityFailure

  type Buckets = map<Addr, seq<Tx>>

  const TX_LIFETIME := 90 * 60

  function Compare(a: int, b: int): int
  {
    if a < b then -1 else if a > b then 1 else 0
  }

  function NonceCmp(a: Tx, b: Tx): int
  {
    if a.nonce < b.nonce then -1 else if a.nonce > b.nonce then 1 else Compare(b.gasPrice, a.gasPrice)
  }

  function GasCmp(a: Tx, b: Tx): int
  {
    Compare(b.gasPrice, a.gasPrice)
  }

  lemma Orderings()
    ensures Ordering(NonceCmp) && Ordering(GasCmp)
  {
  }

  // --- what every operation keeps ---------------------------------------------------------------

  ghost predicate BucketOk(a: Addr, b: seq<Tx>)
  {
    b != [] && Sorted(NonceCmp, b) && Distinct(b) && forall t :: t in b ==> t.from == a
  }

  ghost predicate BucketsOk(buckets: Buckets)
  {
    forall a :: a in buckets ==> BucketOk(a, buckets[a])
  }

  /** `all` is the disjoint union of the buckets, by hash. */
  ghost predicate AllOk(all: map<Hash, Tx>, buckets: Buckets)
  {
    (forall h :: h in all ==> all[h].hash == h && all[h].from in buckets && all[h] in buckets[all[h].from]) &&
    forall a, t :: a in buckets && t in buckets[a] ==> t.from == a && t.hash in all && all[t.hash] == t
  }

  ghost function Heads(buckets: Buckets): set<Tx>
    requires BucketsOk(buckets)
  {
    set a | a in buckets :: buckets[a][0]
  }

  /** The candidates are the heads of the buckets, each once, by falling gas price. */
  ghost predicate CandidatesOk(candidates: seq<Tx>, buckets: Buckets)
    requires BucketsOk(buckets)
  {
    Sorted(GasCmp, candidates) && Distinct(candidates) && ToSet(candidates) == Heads(buckets)
  }

  lemma HeadsUpdate(buckets: Buckets, a: Addr, b: seq<Tx>)
    requires BucketsOk(buckets) && BucketOk(a, b)
    ensures BucketsOk(buckets[a := b])
    ensures Heads(buckets[a := b]) == (if a in buckets then Heads(buckets) - {buckets[a][0]} else Heads(buckets)) + {b[0]}
  {
    var n := buckets[a := b];
    assert forall c :: c in buckets ==> buckets[c][0].from == c;
    forall t | t in Heads(buckets) && (a !in buckets || t != buckets[a][0]) ensures t in Heads(n) {
      var c :| c in buckets && buckets[c][0] == t;
      assert n[c] == buckets[c];
    }
    forall t | t in Heads(n) && t != b[0] ensures t in Heads(buckets) && (a in buckets ==> t != buckets[a][0]) {
      var c :| c in n && n[c][0] == t;
      assert buckets[c] == n[c];
    }
    assert n[a] == b;
  }

  lemma HeadsRemove(buckets: Buckets, a: Addr)
    requires BucketsOk(buckets) && a in buckets
    ensures BucketsOk(buckets - {a}) && Heads(buckets - {a}) == Heads(buckets) - {buckets[a][0]}
  {
    var n := buckets - {a};
    assert forall c :: c in buckets ==> buckets[c][0].from == c;
    forall t | t in Heads(buckets) && t != buckets[a][0] ensures t in Heads(n) {
      var c :| c in buckets && buckets[c][0] == t;
      assert n[c] == buckets[c];
    }
    forall t | t in Heads(n) ensures t in Heads(buckets) && t != buckets[a][0] {
      var c :| c in n && n[c][0] == t;
      assert buckets[c] == n[c];
    }
  }

  /** A sender's head has the sender's lowest nonce, and the best price among those of that nonce. */
  lemma HeadIsLowest(buckets: Buckets, a: Addr, t: Tx)
    requires BucketsOk(buckets) && a in buckets && t in buckets[a]
    ensures buckets[a][0].nonce < t.nonce || (buckets[a][0].nonce == t.nonce && buckets[a][0].gasPrice >= t.gasPrice)
  {
  }

  // --- a bucket gains or loses one transaction ------------------------------------------------

  lemma BucketInsert(a: Addr, b: seq<Tx>, t: Tx, at: nat)
    requires (b == [] || BucketOk(a, b)) && t.from == a && t !in b && at <= |b|
    requires Sorted(NonceCmp, b[..at] + [t] + b[at..])
    ensures BucketOk(a, b[..at] + [t] + b[at..]) && ToSet(b[..at] + [t] + b[at..]) == ToSet(b) + {t}
  {
  }

  lemma AllInsert(all: map<Hash, Tx>, buckets: Buckets, t: Tx, b: seq<Tx>)
    requires AllOk(all, buckets) && t.hash !in all
    requires ToSet(b) == ToSet(Bucket(buckets, t.from)) + {t}
    ensures AllOk(all[t.hash := t], buckets[t.from := b])
  {
    var n := buckets[t.from := b];
    assert forall x :: x in b <==> x in ToSet(b);
    assert t.from in buckets ==> forall x :: x in buckets[t.from] <==> x in ToSet(buckets[t.from]);
    forall h | h in all ensures all[h].from in n && all[h] in n[all[h].from] {
      assert all[h] in buckets[all[h].from];
    }
    forall a, x: Tx | a in n && x in n[a] ensures x.from == a && x.hash in all[t.hash := t] && all[t.hash := t][x.hash] == x {
      if x != t { assert x in buckets[a]; }
    }
  }

  /** A transaction of the bucket goes, and what is left of the bucket stays or is dropped with it. */
  lemma AllRemove(all: map<Hash, Tx>, buckets: Buckets, t: Tx, b: seq<Tx>)
    requires AllOk(all, buckets) && t.from in buckets && t in buckets[t.from] && ToSet(b) == ToSet(buckets[t.from]) - {t}
    ensures AllOk(all - {t.hash}, if b == [] then buckets - {t.from} else buckets[t.from := b])
  {
    var n := if b == [] then buckets - {t.from} else buckets[t.from := b];
    var rest := all - {t.hash};
    assert forall x :: x in b <==> x in ToSet(b);
    assert forall x :: x in buckets[t.from] <==> x in ToSet(buckets[t.from]);
    forall h | h in rest ensures all[h].from in n && all[h] in n[all[h].from] {
      assert all[h] in buckets[all[h].from] && all[h] != t;
      if all[h].from == t.from { assert all[h] in b; }
    }
    forall a, x: Tx | a in n && x in n[a] ensures x.from == a && x.hash in rest && rest[x.hash] == x {
      assert x in buckets[a] && x != t;
      assert all[x.hash] == x && all[t.hash] == t;
    }
  }

  lemma BucketTail(a: Addr, b: seq<Tx>)
    requires BucketOk(a, b)
    ensures ToSet(b[1..]) == ToSet(b) - {b[0]} && (|b| > 1 ==> BucketOk(a, b[1..]))
  {
  }

  lemma BucketFront(a: Addr, b: seq<Tx>)
    requires BucketOk(a, b)
    ensures ToSet(b[..|b| - 1]) == ToSet(b) - {b[|b| - 1]} && (|b| > 1 ==> BucketOk(a, b[..|b| - 1]) && b[..|b| - 1][0] == b[0])
  {
  }

  function WithoutHead(buckets: Buckets, a: Addr): Buckets
    requires a in buckets && |buckets[a]| > 0
  {
    if |buckets[a]| == 1 then buckets - {a} else buckets[a := buckets[a][1..]]
  }

  /** Taking the head out of a bucket, and the bucket with it when it was the last one. */
  lemma LoseHead(all: map<Hash, Tx>, buckets: Buckets, a: Addr)
    requires BucketsOk(buckets) && AllOk(all, buckets) && a in buckets
    ensures |buckets[a]| > 0 && buckets[a][0].from == a && BucketsOk(WithoutHead(buckets, a))
    ensures AllOk(all - {buckets[a][0].hash}, WithoutHead(buckets, a)) && |all - {buckets[a][0].hash}| <= |all|
  {
    hide Sorted, Distinct, ToSet, AllOk, BucketsOk, Heads;
    BucketAt(buckets, a);
    BucketMembers(a, buckets[a]);
    BucketTail(a, buckets[a]);
    AllRemove(all, buckets, buckets[a][0], buckets[a][1..]);
    Fewer(all, buckets[a][0].hash);
    if |buckets[a]| > 1 { HeadsUpdate(buckets, a, buckets[a][1..]); } else { HeadsRemove(buckets, a); }
  }

  /** Buckets may have gone; those that stay keep their time of the last update. */
  ghost predicate StampsStand(was: map<Addr, int>, now: map<Addr, int>)
  {
    forall a :: a in now ==> a in was && now[a] == was[a]
  }

  /** The same, but a bucket that is new, the sender's, is stamped with the present time. */
  ghost predicate StampsWith(was: map<Addr, int>, now: map<Addr, int>, from: Addr, time: int)
  {
    forall a :: a in now ==> if a in was then now[a] == was[a] else a == from && now[a] == time
  }

  /** `tx` put into its sender's bucket; the other buckets are as they were. */
  ghost predicate Pushed(was: Buckets, now: Buckets, tx: Tx)
  {
    tx.from in now && (exists at :: Spliced(now[tx.from], Bucket(was, tx.from), tx, at)) &&
    forall a :: a != tx.from ==> (a in now <==> a in was) && (a in now ==> now[a] == was[a])
  }

  /** `tx` put into its bucket, and then the last transaction of a longest bucket taken out. */
  ghost predicate PushedAndDropped(was: Buckets, now: Buckets, allWith: map<Hash, Tx>, allNow: map<Hash, Tx>, tx: Tx)
  {
    exists with, a :: Pushed(was, with, tx) && Dropped(with, now, allWith, allNow, a)
  }

  class TransactionPool {
    var size: nat
    var candidates: seq<Tx>
    var buckets: Buckets
    var all: map<Hash, Tx>
    var bucketsLastUpdate: map<Addr, int>
    var minGasPrice: nat
    var maxGasLimit: nat

    ghost predicate Valid()
      reads this
    {
      BucketsOk(buckets) && AllOk(all, buckets) && CandidatesOk(candidates, buckets) && bucketsLastUpdate.Keys == buckets.Keys
    }

    constructor (size: nat, minGasPrice: nat, maxGasLimit: nat)
      ensures Valid() && this.size == size && all == map[] && this.minGasPrice == minGasPrice && this.maxGasLimit == maxGasLimit
    {
      this.size, candidates, buckets, all := size, [], map[], map[];
      bucketsLastUpdate, this.minGasPrice, this.maxGasLimit := map[], minGasPrice, maxGasLimit;
    }

    method DelCandidate(t: Tx)
      requires Sorted(GasCmp, candidates) && Distinct(candidates)
      modifies `candidates
      ensures Sorted(GasCmp, candidates) && Distinct(candidates) && ToSet(candidates) == ToSet(old(candidates)) - {t}
    {
      hide Sorted, Distinct;
      var r, at := Remove(candidates, t);
      if t in candidates { RemovedSet(GasCmp, candidates, at); }
      candidates := r;
    }

    method PushCandidate(t: Tx)
      requires Sorted(GasCmp, candidates) && Distinct(candidates) && t !in candidates
      modifies `candidates
      ensures Sorted(GasCmp, candidates) && Distinct(candidates) && ToSet(candidates) == ToSet(old(candidates)) + {t}
    {
      hide Sorted, Distinct, Ordering;
      Orderings();
      var r, at := Insert(candidates, GasCmp, t);
      SplicedSet(candidates, t, at);
      candidates := r;
    }

    /** Adds a transaction to its sender's bucket; the bucket's head is its candidate. */
    method PushTx(tx: Tx, now: int)
      requires Valid() && tx.hash !in all
      modifies `candidates, `buckets, `all, `bucketsLastUpdate
      ensures Valid() && all == old(all)[tx.hash := tx] && Pushed(old(buckets), buckets, tx)
      ensures bucketsLastUpdate == if tx.from in old(bucketsLastUpdate) then old(bucketsLastUpdate) else old(bucketsLastUpdate)[tx.from := now]
    {
      hide Sorted, Distinct, Ordering, BucketsOk, AllOk, Heads, ToSet;
      Orderings();
      var bucket := if tx.from in buckets then buckets[tx.from] else [];
      BucketAt(buckets, tx.from);
      NotYet(all, buckets, tx);
      var newBucket, at := Insert(bucket, NonceCmp, tx);
      BucketInsert(tx.from, bucket, tx, at);
      AllInsert(all, buckets, tx, newBucket);
      HeadsUpdate(buckets, tx.from, newBucket);
      HeadMembers(candidates, buckets, tx.from, newBucket[0]);
      assert Spliced(newBucket, Bucket(buckets, tx.from), tx, at);
      buckets, all := buckets[tx.from := newBucket], all[tx.hash := tx];
      if |bucket| == 0 {
        PushCandidate(newBucket[0]);
      } else if bucket[0] != newBucket[0] {
        DelCandidate(bucket[0]);
        SetMember(candidates, newBucket[0]);
        PushCandidate(newBucket[0]);
      }
      if tx.from !in bucketsLastUpdate {
        bucketsLastUpdate := bucketsLastUpdate[tx.from := now];
      }
    }

    /** Takes the head out of a bucket whose head is no longer a candidate; the next one becomes it. */
    method PopTx(tx: Tx)
      requires BucketsOk(buckets) && AllOk(all, buckets) && bucketsLastUpdate.Keys == buckets.Keys
      requires tx.from in buckets && buckets[tx.from][0] == tx
      requires Sorted(GasCmp, candidates) && Distinct(candidates) && ToSet(candidates) == Heads(buckets) - {tx}
      modifies `candidates, `buckets, `all, `bucketsLastUpdate
      ensures Valid() && all == old(all) - {tx.hash}
      ensures buckets == if |old(buckets)[tx.from]| == 1 then old(buckets) - {tx.from} else old(buckets)[tx.from := old(buckets)[tx.from][1..]]
      ensures StampsStand(old(bucketsLastUpdate), bucketsLastUpdate)
    {
      hide Sorted, Distinct, Ordering, BucketsOk, AllOk, Heads, ToSet;
      var bucket := buckets[tx.from];
      BucketAt(buckets, tx.from);
      BucketTail(tx.from, bucket);
      AllRemove(all, buckets, tx, bucket[1..]);
      NextHead(candidates, buckets, tx.from);
      all := all - {tx.hash};
      if |bucket[1..]| != 0 {
        HeadsUpdate(buckets, tx.from, bucket[1..]);
        buckets := buckets[tx.from := bucket[1..]];
        PushCandidate(bucket[1]);
      } else {
        HeadsRemove(buckets, tx.from);
        buckets := buckets - {tx.from};
        bucketsLastUpdate := bucketsLastUpdate - {tx.from};
      }
    }

    /** Takes out a candidate of greatest gas price. */
    method Pop() returns (r: Option<Tx>)
      requires Valid()
      modifies `candidates, `buckets, `all, `bucketsLastUpdate
      ensures Valid()
      ensures r.None? <==> old(all) == map[]
      ensures r.None? ==> all == old(all) && buckets == old(buckets)
      ensures r.Some? ==> Taken(r.value, old(buckets), buckets, old(all), all)
      ensures r.Some? ==> forall t :: t in Heads(old(buckets)) ==> t.gasPrice <= r.value.gasPrice
      ensures StampsStand(old(bucketsLastUpdate), bucketsLastUpdate)
    {
      hide Sorted, Distinct, Ordering, BucketsOk, AllOk, Heads, ToSet;
      EmptyPool(candidates, buckets, all);
      if |candidates| == 0 { return None; }
      var tx := candidates[0];
      FirstIsBest(candidates, buckets, 0);
      CandidateGone(candidates, buckets, 0);
      candidates := candidates[1..];
      assert old(candidates)[..0] + old(candidates)[1..] == candidates;
      HeadInAll(all, buckets, tx);
      PopTx(tx);
      return Some(tx);
    }

    /** Takes out a candidate of greatest gas price among those whose sender and receiver are not barred. */
    method PopWithBlacklist(fromBlacklist: set<Addr>, toBlacklist: set<Addr>) returns (r: Option<Tx>)
      requires Valid()
      modifies `candidates, `buckets, `all, `bucketsLastUpdate
      ensures Valid()
      ensures r.None? ==> all == old(all) && buckets == old(buckets) && forall t :: t in Heads(old(buckets)) ==> Barred(t, fromBlacklist, toBlacklist)
      ensures r.Some? ==> Taken(r.value, old(buckets), buckets, old(all), all) && !Barred(r.value, fromBlacklist, toBlacklist)
      ensures r.Some? ==> forall t :: t in Heads(old(buckets)) && !Barred(t, fromBlacklist, toBlacklist) ==> t.gasPrice <= r.value.gasPrice
      ensures StampsStand(old(bucketsLastUpdate), bucketsLastUpdate)
    {
      hide Sorted, Distinct, Ordering, BucketsOk, AllOk, Heads, ToSet;
      for i := 0 to |candidates|
        invariant Valid() && candidates == old(candidates) && buckets == old(buckets) && all == old(all) && bucketsLastUpdate == old(bucketsLastUpdate)
        invariant forall k :: 0 <= k < i ==> Barred(candidates[k], fromBlacklist, toBlacklist)
      {
        var tx := candidates[i];
        if tx.from !in fromBlacklist && tx.to !in toBlacklist {
          FirstIsBest(candidates, buckets, i);
          BestUnbarred(candidates, buckets, i, fromBlacklist, toBlacklist);
          HeadInAll(all, buckets, tx);
          DelCandidate(tx);
          PopTx(tx);
          return Some(tx);
        }
      }
      AllBarred(candidates, buckets, fromBlacklist, toBlacklist);
      return None;
    }

    /** Drops the last transaction of a longest bucket. */
    method DropTx()
      requires Valid()
      modifies `candidates, `buckets, `all, `bucketsLastUpdate
      ensures Valid()
      ensures old(all) == map[] ==> all == map[]
      ensures old(all) != map[] ==> exists a :: Dropped(old(buckets), buckets, old(all), all, a)
      ensures StampsStand(old(bucketsLastUpdate), bucketsLastUpdate)
    {
      hide Sorted, Distinct, Ordering, BucketsOk, AllOk, Heads, ToSet;
      var longest: Addr, longestLen := 0, 0;
      var todo := buckets.Keys;
      while todo != {}
        invariant todo <= buckets.Keys && Valid() && candidates == old(candidates) && buckets == old(buckets) && all == old(all) && bucketsLastUpdate == old(bucketsLastUpdate)
        invariant longestLen >= 0 && (longestLen > 0 ==> longest in buckets && |buckets[longest]| == longestLen)
        invariant forall a: Addr :: a in buckets && a !in todo ==> |buckets[a]| <= longestLen
      {
        var a: Addr :| a in todo;
        if |buckets[a]| > longestLen { longest, longestLen := a, |buckets[a]|; }
        todo := todo - {a};
      }
      NoBuckets(all, buckets, longestLen);
      if longestLen > 0 {
        var bucket := buckets[longest];
        var drop := bucket[longestLen - 1];
        BucketAt(buckets, longest);
        BucketFront(longest, bucket);
        BucketMembers(longest, bucket);
        AllRemove(all, buckets, drop, bucket[..longestLen - 1]);
        all := all - {drop.hash};
        if longestLen == 1 {
          HeadsRemove(buckets, longest);
          DelCandidate(drop);
          buckets := buckets - {longest};
          bucketsLastUpdate := bucketsLastUpdate - {longest};
        } else {
          HeadsUpdate(buckets, longest, bucket[..longestLen - 1]);
          HeadMembers(candidates, buckets, longest, bucket[0]);
          buckets := buckets[longest := bucket[..longestLen - 1]];
        }
        assert Dropped(old(buckets), buckets, old(all), all, longest);
      }
    }

    /** Admits a transaction; a full pool then drops the last transaction of a longest bucket, which may be the new one. */
    method Push(tx: Tx, integrity: bool, now: int) returns (err: Option<Error>)
      requires Valid() && |all| <= size
      modifies `candidates, `buckets, `all, `bucketsLastUpdate
      ensures Valid() && |all| <= size
      ensures err == if tx.hash in old(all) then Some(DuplicatedTransaction)
                     else if tx.gasPrice < minGasPrice then Some(BelowGasPrice)
                     else if tx.gasLimit <= 0 then Some(GasLimitLessOrEqualToZero)
                     else if tx.gasLimit > maxGasLimit then Some(OutOfGasLimit)
                     else if !integrity then Some(IntegrityFailure)
                     else None
      ensures err != None ==> all == old(all) && buckets == old(buckets) && candidates == old(candidates)
      ensures err == None && |old(all)| < size ==> all == old(all)[tx.hash := tx] && Pushed(old(buckets), buckets, tx)
      ensures err == None && |old(all)| == size ==> PushedAndDropped(old(buckets), buckets, old(all)[tx.hash := tx], all, tx)
      ensures StampsWith(old(bucketsLastUpdate), bucketsLastUpdate, tx.from, now)
    {
      hide Sorted, Distinct, Ordering, BucketsOk, AllOk, Heads, ToSet;
      if tx.hash in all { return Some(DuplicatedTransaction); }
      if tx.gasPrice < minGasPrice { return Some(BelowGasPrice); }
      if tx.gasLimit <= 0 { return Some(GasLimitLessOrEqualToZero); }
      if tx.gasLimit > maxGasLimit { return Some(OutOfGasLimit); }
      if !integrity { return Some(IntegrityFailure); }
      Admit(tx, now);
      return None;
    }

    /** Puts a checked transaction in, and makes room when there is one too many. */
    method Admit(tx: Tx, now: int)
      requires Valid() && |all| <= size && tx.hash !in all
      modifies `candidates, `buckets, `all, `bucketsLastUpdate
      ensures Valid() && |all| <= size
      ensures |old(all)| < size ==> all == old(all)[tx.hash := tx] && Pushed(old(buckets), buckets, tx)
      ensures |old(all)| == size ==> PushedAndDropped(old(buckets), buckets, old(all)[tx.hash := tx], all, tx)
      ensures StampsWith(old(bucketsLastUpdate), bucketsLastUpdate, tx.from, now)
    {
      hide Sorted, Distinct, Ordering, BucketsOk, AllOk, Heads, ToSet, Pushed, Dropped, StampsStand, StampsWith, CandidatesOk;
      PushTx(tx, now);
      ghost var full, was, stamps := all, buckets, bucketsLastUpdate;
      StampedNew(old(bucketsLastUpdate), tx.from, now);
      if |all| > size {
        assert tx.hash in all;
        DropTx();
        ghost var a :| Dropped(was, buckets, full, all, a);
        DroppedOne(full, was, buckets, all, a);
        StampedThen(old(bucketsLastUpdate), stamps, bucketsLastUpdate, tx.from, now);
        assert Pushed(old(buckets), was, tx);
      }
    }

    /** Takes out a whole bucket. */
    method EvictBucket(slot: Addr)
      requires Valid() && slot in buckets
      modifies `candidates, `buckets, `all, `bucketsLastUpdate
      ensures Valid() && buckets == old(buckets) - {slot} && bucketsLastUpdate == old(bucketsLastUpdate) - {slot}
      ensures |all| <= |old(all)|
    {
      hide Sorted, Distinct, Ordering, BucketsOk, AllOk, Heads, ToSet, Cut;
      BucketAt(buckets, slot);
      HeadsRemove(buckets, slot);
      var bucket := buckets[slot];
      DelCandidate(bucket[0]);
      CutBuckets(buckets, slot, 0);
      for k := 0 to |bucket|
        modifies `all
        invariant BucketsOk(Cut(buckets, slot, k)) && AllOk(all, Cut(buckets, slot, k)) && |all| <= |old(all)|
      {
        CutHead(all, buckets, slot, k);
        all := all - {bucket[k].hash};
      }
      CutAll(buckets, slot);
      buckets := buckets - {slot};
      bucketsLastUpdate := bucketsLastUpdate - {slot};
    }

    /** Takes out exactly the buckets not updated for longer than a lifetime. */
    method EvictExpiredTransactions(now: int)
      requires Valid()
      modifies `candidates, `buckets, `all, `bucketsLastUpdate
      ensures Valid() && |all| <= |old(all)|
      ensures forall a :: a in buckets <==> a in old(buckets) && now - old(bucketsLastUpdate)[a] <= 5400
      ensures forall a :: a in buckets ==> buckets[a] == old(buckets)[a] && bucketsLastUpdate[a] == old(bucketsLastUpdate)[a]
    {
      hide Sorted, Distinct, Ordering, BucketsOk, AllOk, CandidatesOk;
      var todo := buckets.Keys;
      while todo != {}
        invariant Valid() && todo <= buckets.Keys && |all| <= |old(all)|
        invariant forall a: Addr :: a in buckets <==> a in todo || (a in old(buckets) && now - old(bucketsLastUpdate)[a] <= TX_LIFETIME)
        invariant forall a: Addr :: a in buckets ==> a in old(buckets) && buckets[a] == old(buckets)[a] && bucketsLastUpdate[a] == old(bucketsLastUpdate)[a]
      {
        var slot: Addr :| slot in todo;
        if now - bucketsLastUpdate[slot] > TX_LIFETIME { EvictBucket(slot); }
        todo := todo - {slot};
      }
    }

    /** Takes transactions up to that nonce out of a bucket, and the bucket when none is left. */
    method TrimBucket(a: Addr, nonce: nat) returns (k: nat)
      requires BucketsOk(buckets) && AllOk(all, buckets) && a in buckets
      modifies `buckets, `all, `bucketsLastUpdate
      ensures BucketsOk(buckets) && AllOk(all, buckets) && |all| <= |old(all)| && k <= |old(buckets)[a]|
      ensures Trimmed(old(buckets)[a], old(buckets)[a][k..], nonce, k)
      ensures buckets == Cut(old(buckets), a, k)
      ensures bucketsLastUpdate == if k == |old(buckets)[a]| then old(bucketsLastUpdate) - {a} else old(bucketsLastUpdate)
    {
      hide Sorted, Distinct, Ordering, BucketsOk, AllOk, Heads, ToSet, Cut, Trimmed, Bucket;
      BucketAt(buckets, a);
      ghost var full, was := buckets[a], buckets;
      CutBuckets(was, a, 0);
      var left := buckets[a][0];
      k := 0;
      while left.nonce <= nonce
        invariant 0 <= k < |full| && left == full[k] && buckets == Cut(was, a, k) && bucketsLastUpdate == old(bucketsLastUpdate)
        invariant forall i :: 0 <= i < k ==> full[i].nonce <= nonce
        invariant BucketsOk(buckets) && AllOk(all, buckets) && |all| <= |old(all)|
        decreases |full| - k
      {
        CutHead(all, was, a, k);
        CutBuckets(was, a, k);
        CutStep(was, a, k);
        var bucket := buckets[a];
        all := all - {left.hash};
        k := k + 1;
        if |bucket| > 1 {
          left := bucket[1];
          buckets := buckets[a := bucket[1..]];
        } else {
          buckets := buckets - {a};
          bucketsLastUpdate := bucketsLastUpdate - {a};
          break;
        }
      }
      TrimmedAt(a, full, nonce, k);
    }

    /** Takes out every transaction of the sender up to that nonce, and nothing else. */
    method Del(tx: Tx, now: int)
      requires Valid()
      modifies `candidates, `buckets, `all, `bucketsLastUpdate
      ensures Valid() && |all| <= |old(all)|
      ensures forall a :: a != tx.from ==> Bucket(buckets, a) == Bucket(old(buckets), a)
      ensures exists k :: Trimmed(Bucket(old(buckets), tx.from), Bucket(buckets, tx.from), tx.nonce, k)
      ensures bucketsLastUpdate == if tx.from !in buckets then old(bucketsLastUpdate) - {tx.from}
                                   else if buckets[tx.from] == old(buckets)[tx.from] then old(bucketsLastUpdate)
                                   else old(bucketsLastUpdate)[tx.from := now]
    {
      hide Sorted, Distinct, Ordering, BucketsOk, AllOk, Heads, ToSet, CandidatesOk, Trimmed, Cut, Bucket;
      if tx.from !in buckets {
        bucketsLastUpdate := bucketsLastUpdate - {tx.from};
        NothingTrimmed(buckets, tx.from, tx.nonce);
        return;
      }
      BucketAt(buckets, tx.from);
      ghost var full := buckets[tx.from];
      var oldCandidate := buckets[tx.from][0];
      var k := TrimBucket(tx.from, tx.nonce);
      CutBuckets(old(buckets), tx.from, k);
      CutAt(old(buckets), tx.from, k);
      if k > 0 {
        ReplaceCandidate(tx.from, oldCandidate, k, old(buckets), now);
      }
    }

    /** Makes the new head of a trimmed bucket its candidate, if any is left. */
    method ReplaceCandidate(a: Addr, oldCandidate: Tx, ghost k: nat, ghost was: Buckets, now: int)
      requires BucketsOk(was) && CandidatesOk(candidates, was) && a in was && 0 < k <= |was[a]| && oldCandidate == was[a][0]
      requires BucketsOk(buckets) && AllOk(all, buckets) && buckets == Cut(was, a, k)
      requires bucketsLastUpdate.Keys + {a} == was.Keys
      modifies `candidates, `bucketsLastUpdate
      ensures Valid()
      ensures bucketsLastUpdate == if a in buckets then old(bucketsLastUpdate)[a := now] else old(bucketsLastUpdate) - {a}
    {
      hide Sorted, Distinct, Ordering, BucketsOk, AllOk, Heads, ToSet;
      DelCandidate(oldCandidate);
      bucketsLastUpdate := bucketsLastUpdate - {a};
      if a in buckets {
        BucketAt(buckets, a);
        HeadsUpdate(was, a, buckets[a]);
        LaterIsNoHead(old(candidates), was, a, k);
        SetMember(candidates, buckets[a][0]);
        PushCandidate(buckets[a][0]);
        bucketsLastUpdate := bucketsLastUpdate[a := now];
      } else {
        HeadsRemove(was, a);
      }
    }
  }

  function Bucket(buckets: Buckets, a: Addr): seq<Tx>
  {
    if a in buckets then buckets[a] else []
  }

  ghost predicate Spliced(r: seq<Tx>, b: seq<Tx>, t: Tx, at: int)
  {
    0 <= at <= |b| && r == b[..at] + [t] + b[at..]
  }

  lemma BucketAt(buckets: Buckets, a: Addr)
    requires BucketsOk(buckets)
    ensures a in buckets ==> BucketOk(a, buckets[a])
    ensures Sorted(NonceCmp, Bucket(buckets, a))
  {
  }

  lemma NotYet(all: map<Hash, Tx>, buckets: Buckets, t: Tx)
    requires AllOk(all, buckets) && t.hash !in all
    ensures t !in Bucket(buckets, t.from)
  {
  }

  lemma SetMember(s: seq<Tx>, t: Tx)
    ensures t in s <==> t in ToSet(s)
  {
  }

  /** The head of a sender is a candidate, and no other transaction of that sender is. */
  lemma HeadMembers(candidates: seq<Tx>, buckets: Buckets, a: Addr, t: Tx)
    requires BucketsOk(buckets) && CandidatesOk(candidates, buckets) && t.from == a
    ensures t in candidates <==> a in buckets && t == buckets[a][0]
    ensures a in buckets ==> buckets[a][0] in ToSet(candidates)
    ensures t in candidates <==> t in ToSet(candidates)
  {
    assert forall c :: c in buckets ==> BucketOk(c, buckets[c]) && buckets[c][0].from == c;
    assert t in candidates <==> t in ToSet(candidates);
    if a in buckets { assert buckets[a][0] in Heads(buckets); }
  }

  predicate Barred(t: Tx, fromBlacklist: set<Addr>, toBlacklist: set<Addr>)
  {
    t.from in fromBlacklist || t.to in toBlacklist
  }

  /** `t` was the head of its bucket, and only it is gone. */
  ghost predicate Taken(t: Tx, was: Buckets, now: Buckets, allWas: map<Hash, Tx>, allNow: map<Hash, Tx>)
  {
    Bucket(was, t.from) != [] && Bucket(was, t.from)[0] == t && Bucket(now, t.from) == Bucket(was, t.from)[1..] &&
    (forall a :: a != t.from ==> Bucket(now, a) == Bucket(was, a)) && t.hash in allWas && allWas[t.hash] == t && allNow == allWas - {t.hash}
  }

  ghost predicate Longest(buckets: Buckets, a: Addr)
  {
    a in buckets && |buckets[a]| > 0 && forall c :: c in buckets ==> |buckets[c]| <= |buckets[a]|
  }

  /** The last transaction of a longest bucket is gone. */
  ghost predicate Dropped(was: Buckets, now: Buckets, allWas: map<Hash, Tx>, allNow: map<Hash, Tx>, a: Addr)
  {
    Longest(was, a) && now == Shortened(was, a) && allNow == allWas - {was[a][|was[a]| - 1].hash}
  }

  function Shortened(buckets: Buckets, a: Addr): Buckets
    requires a in buckets && |buckets[a]| > 0
  {
    if |buckets[a]| == 1 then buckets - {a} else buckets[a := buckets[a][..|buckets[a]| - 1]]
  }

  /** The first `k` transactions are those up to the nonce, and they are gone. */
  ghost predicate Trimmed(was: seq<Tx>, now: seq<Tx>, nonce: nat, k: int)
  {
    0 <= k <= |was| && now == was[k..] && (forall i :: 0 <= i < k ==> was[i].nonce <= nonce) && forall t :: t in now ==> t.nonce > nonce
  }

  lemma NothingTrimmed(buckets: Buckets, a: Addr, nonce: nat)
    requires a !in buckets
    ensures Trimmed(Bucket(buckets, a), Bucket(buckets, a), nonce, 0)
  {
  }

  /** Without the first `k` transactions of `a`. */
  function Cut(buckets: Buckets, a: Addr, k: nat): Buckets
    requires a in buckets && k <= |buckets[a]|
  {
    if k == |buckets[a]| then buckets - {a} else buckets[a := buckets[a][k..]]
  }

  lemma CutAt(buckets: Buckets, a: Addr, k: nat)
    requires a in buckets && k <= |buckets[a]| && |buckets[a]| > 0
    ensures a in Cut(buckets, a, k) <==> k < |buckets[a]|
    ensures k < |buckets[a]| ==> |Cut(buckets, a, k)[a]| == |buckets[a]| - k && (k == 0 ==> Cut(buckets, a, k)[a] == buckets[a])
  {
  }

  lemma CutBuckets(buckets: Buckets, a: Addr, k: nat)
    requires a in buckets && k <= |buckets[a]| && |buckets[a]| > 0
    ensures forall c :: c != a ==> Bucket(Cut(buckets, a, k), c) == Bucket(buckets, c)
    ensures Bucket(Cut(buckets, a, k), a) == buckets[a][k..] && Bucket(buckets, a) == buckets[a]
    ensures k == 0 ==> Cut(buckets, a, k) == buckets
  {
  }

  lemma CutAll(buckets: Buckets, a: Addr)
    requires a in buckets
    ensures Cut(buckets, a, |buckets[a]|) == buckets - {a}
  {
  }

  lemma CutStep(buckets: Buckets, a: Addr, k: nat)
    requires a in buckets && k < |buckets[a]|
    ensures a in Cut(buckets, a, k) && Cut(buckets, a, k)[a] == buckets[a][k..]
    ensures Cut(buckets, a, k + 1) == WithoutHead(Cut(buckets, a, k), a)
  {
  }

  lemma CutHead(all: map<Hash, Tx>, buckets: Buckets, a: Addr, k: nat)
    requires a in buckets && k < |buckets[a]| && BucketsOk(Cut(buckets, a, k)) && AllOk(all, Cut(buckets, a, k))
    ensures BucketsOk(Cut(buckets, a, k + 1)) && AllOk(all - {buckets[a][k].hash}, Cut(buckets, a, k + 1))
    ensures |all - {buckets[a][k].hash}| <= |all|
  {
    hide BucketsOk, AllOk, Cut, WithoutHead;
    CutStep(buckets, a, k);
    LoseHead(all, Cut(buckets, a, k), a);
  }

  lemma TrimmedAt(a: Addr, b: seq<Tx>, nonce: nat, k: nat)
    requires BucketOk(a, b) && k <= |b| && (forall i :: 0 <= i < k ==> b[i].nonce <= nonce) && (k < |b| ==> b[k].nonce > nonce)
    ensures Trimmed(b, b[k..], nonce, k)
  {
  }

  lemma BucketMembers(a: Addr, b: seq<Tx>)
    requires BucketOk(a, b)
    ensures forall i :: 0 <= i < |b| ==> b[i].from == a && b[i] in b
  {
  }

  /** With its sender's old head removed from the candidates, the next transaction is not among them. */
  lemma NextHead(candidates: seq<Tx>, buckets: Buckets, a: Addr)
    requires BucketsOk(buckets) && a in buckets && ToSet(candidates) == Heads(buckets) - {buckets[a][0]}
    ensures |buckets[a]| > 1 ==> buckets[a][1] !in candidates
  {
    assert forall c :: c in buckets ==> BucketOk(c, buckets[c]) && buckets[c][0].from == c;
    if |buckets[a]| > 1 {
      var t := buckets[a][1];
      assert t in buckets[a] && t != buckets[a][0];
      assert t in candidates <==> t in ToSet(candidates);
    }
  }

  lemma LaterIsNoHead(candidates: seq<Tx>, buckets: Buckets, a: Addr, k: nat)
    requires BucketsOk(buckets) && a in buckets && 0 < k < |buckets[a]| && ToSet(candidates) == Heads(buckets)
    ensures buckets[a][k] !in ToSet(candidates)
  {
    assert forall c :: c in buckets ==> BucketOk(c, buckets[c]) && buckets[c][0].from == c;
    var t := buckets[a][k];
    assert t in buckets[a] && t != buckets[a][0];
  }

  lemma Fewer(all: map<Hash, Tx>, h: Hash)
    ensures |all - {h}| <= |all|
  {
  }

  lemma HeadInAll(all: map<Hash, Tx>, buckets: Buckets, t: Tx)
    requires BucketsOk(buckets) && AllOk(all, buckets) && t.from in buckets && t == buckets[t.from][0]
    ensures buckets[t.from] != [] && t.hash in all && all[t.hash] == t
  {
  }

  lemma StampedNew(was: map<Addr, int>, from: Addr, time: int)
    ensures StampsWith(was, if from in was then was else was[from := time], from, time)
  {
  }

  lemma StampedThen(was: map<Addr, int>, mid: map<Addr, int>, now: map<Addr, int>, from: Addr, time: int)
    requires StampsWith(was, mid, from, time) && StampsStand(mid, now)
    ensures StampsWith(was, now, from, time)
  {
  }

  lemma DroppedOne(full: map<Hash, Tx>, was: Buckets, now: Buckets, all: map<Hash, Tx>, a: Addr)
    requires BucketsOk(was) && AllOk(full, was) && Dropped(was, now, full, all, a)
    ensures |all| < |full|
  {
    hide BucketsOk, AllOk;
    LastInAll(full, was, a);
  }

  lemma LastInAll(all: map<Hash, Tx>, buckets: Buckets, a: Addr)
    requires AllOk(all, buckets) && a in buckets && buckets[a] != []
    ensures var t := buckets[a][|buckets[a]| - 1]; t.hash in all && all[t.hash] == t
  {
  }

  lemma NoBuckets(all: map<Hash, Tx>, buckets: Buckets, longestLen: nat)
    requires BucketsOk(buckets) && AllOk(all, buckets) && forall a :: a in buckets ==> |buckets[a]| <= longestLen
    ensures all == map[] || longestLen > 0
  {
  }

  lemma EmptyPool(candidates: seq<Tx>, buckets: Buckets, all: map<Hash, Tx>)
    requires BucketsOk(buckets) && AllOk(all, buckets) && CandidatesOk(candidates, buckets)
    ensures candidates == [] <==> all == map[]
  {
    if all != map[] {
      var h :| h in all;
      assert BucketOk(all[h].from, buckets[all[h].from]);
      assert buckets[all[h].from][0] in ToSet(candidates);
    }
    if candidates != [] {
      assert candidates[0] in ToSet(candidates);
      var a :| a in buckets && buckets[a][0] == candidates[0];
      assert BucketOk(a, buckets[a]) && buckets[a][0] in buckets[a];
    }
  }

  lemma InPrefix(s: seq<Tx>, i: nat, j: nat)
    requires i <= |s| && j < |s|
    ensures j < i ==> s[j] in s[..i]
  {
  }

  /** A candidate is its sender's head, and costs at least as much as every later candidate. */
  lemma FirstIsBest(candidates: seq<Tx>, buckets: Buckets, i: nat)
    requires BucketsOk(buckets) && CandidatesOk(candidates, buckets) && i < |candidates|
    ensures candidates[i].from in buckets && buckets[candidates[i].from][0] == candidates[i]
    ensures forall t :: t in Heads(buckets) && t !in candidates[..i] ==> t.gasPrice <= candidates[i].gasPrice
  {
    assert candidates[i] in ToSet(candidates);
    assert forall c :: c in buckets ==> BucketOk(c, buckets[c]) && buckets[c][0].from == c;
    forall t | t in Heads(buckets) && t !in candidates[..i] ensures t.gasPrice <= candidates[i].gasPrice {
      assert t in ToSet(candidates);
      var j :| 0 <= j < |candidates| && candidates[j] == t;
      InPrefix(candidates, i, j);
      if j > i { SortedAt(GasCmp, candidates, i, j); }
    }
  }

  lemma CandidateGone(candidates: seq<Tx>, buckets: Buckets, i: nat)
    requires BucketsOk(buckets) && CandidatesOk(candidates, buckets) && i < |candidates|
    ensures var rest := candidates[..i] + candidates[i + 1..];
            Sorted(GasCmp, rest) && Distinct(rest) && ToSet(rest) == Heads(buckets) - {candidates[i]}
  {
  }

  lemma BestUnbarred(candidates: seq<Tx>, buckets: Buckets, i: nat, fromBlacklist: set<Addr>, toBlacklist: set<Addr>)
    requires BucketsOk(buckets) && CandidatesOk(candidates, buckets) && i < |candidates|
    requires forall k :: 0 <= k < i ==> Barred(candidates[k], fromBlacklist, toBlacklist)
    ensures forall t :: t in Heads(buckets) && !Barred(t, fromBlacklist, toBlacklist) ==> t.gasPrice <= candidates[i].gasPrice
  {
  }

  lemma AllBarred(candidates: seq<Tx>, buckets: Buckets, fromBlacklist: set<Addr>, toBlacklist: set<Addr>)
    requires BucketsOk(buckets) && CandidatesOk(candidates, buckets)
    requires forall k :: 0 <= k < |candidates| ==> Barred(candidates[k], fromBlacklist, toBlacklist)
    ensures forall t :: t in Heads(buckets) ==> Barred(t, fromBlacklist, toBlacklist)
  {
  }
}
