/** Order independence of a block's transactions: any order of execution that runs conflicting
    transactions in packing order produces the packing order's outcomes and final world state. */
module Serial {
  import opened Prelude
  import opened StagingTable

  type Addr = Key

  /** An account's bytes, a transaction's bytes, an event's bytes: opaque. */
  type Data = nat

  type Accounts = map<Addr, Data>

  /** A transaction's entry in the transactions trie and its entries in the events trie. */
  datatype Record = Record(tx: Data, events: seq<Data>)

  /** The parts of the world state a block changes. Records sit under the id of their
      transaction; `gas` is what each sender owes at the end of the block. */
  datatype World = World(accounts: Accounts, gas: map<Addr, nat>, records: map<Tid, Record>)

  /** What an accepted transaction does: the accounts recorded in its changelog, the accounts it
      leaves behind, the gas it records, its own bytes and events. */
  datatype Outcome = Outcome(foot: set<Addr>, writes: Accounts, gas: map<Addr, nat>, record: Record)

  /** Execution on a snapshot of the accounts; no outcome means the transaction is not accepted. */
  type Program = Accounts -> Option<Outcome>

  datatype Tx = Tx(id: Tid, run: Program)

  /** `s` and `t` have the same accounts at `a`. */
  ghost predicate SameAccount(s: Accounts, t: Accounts, a: Addr)
  {
    (a in s <==> a in t) && (a in s && a in t ==> s[a] == t[a])
  }

  /** The hypothesis on transactions: the outcome depends only on, and changes only, the accounts
      recorded in the changelog. */
  ghost predicate Local(run: Program)
  {
    forall s: Accounts :: run(s).Some? ==>
      run(s).value.writes.Keys <= run(s).value.foot && run(s).value.gas.Keys <= run(s).value.foot &&
      forall t: Accounts :: (forall a :: a in run(s).value.foot ==> SameAccount(s, t, a)) ==> run(t) == run(s)
  }

  function AddGas(gas: map<Addr, nat>, more: map<Addr, nat>): map<Addr, nat>
  {
    map a | a in gas.Keys + more.Keys ::
      (if a in gas then gas[a] else 0) + (if a in more then more[a] else 0)
  }

  /** Merge an outcome into the world state. */
  function Apply(w: World, id: Tid, o: Outcome): World
  {
    World(w.accounts + o.writes, AddGas(w.gas, o.gas), w.records[id := o.record])
  }

  /** The world state after the first `i` transactions, one after the other. */
  function After(w: World, txs: seq<Tx>, i: nat): World
    requires i <= |txs|
  {
    if i == 0 then w
    else
      var v := After(w, txs, i - 1);
      var o := txs[i - 1].run(v.accounts);
      if o.Some? then Apply(v, txs[i - 1].id, o.value) else v
  }

  /** A block whose transactions all succeed one after the other. */
  ghost predicate Runs(w: World, txs: seq<Tx>)
  {
    (forall i :: 0 <= i < |txs| ==> Local(txs[i].run) && txs[i].run(After(w, txs, i).accounts).Some?) &&
    forall i, j :: 0 <= i < j < |txs| ==> txs[i].id != txs[j].id
  }

  /** The outcome of transaction `i` in packing order. */
  ghost function At(w: World, txs: seq<Tx>, i: nat): Outcome
    requires i < |txs| && Runs(w, txs)
  {
    txs[i].run(After(w, txs, i).accounts).value
  }

  ghost predicate Touches(w: World, txs: seq<Tx>, i: nat, a: Addr)
    requires i < |txs| && Runs(w, txs)
  {
    a in At(w, txs, i).foot
  }

  ghost predicate Conflict(w: World, txs: seq<Tx>, i: nat, j: nat)
    requires i < |txs| && j < |txs| && Runs(w, txs)
  {
    exists a :: Touches(w, txs, i, a) && Touches(w, txs, j, a)
  }

  // --- worlds, one address at a time ---------------------------------------------------

  ghost predicate SameAt(v: World, w: World, a: Addr)
  {
    SameAccount(v.accounts, w.accounts, a) &&
    (a in v.gas <==> a in w.gas) && (a in v.gas && a in w.gas ==> v.gas[a] == w.gas[a])
  }

  lemma ApplySame(v: World, w: World, id: Tid, id': Tid, o: Outcome, a: Addr)
    requires SameAt(v, w, a)
    ensures SameAt(Apply(v, id, o), Apply(w, id', o), a)
  {
  }

  lemma ApplyOther(w: World, id: Tid, o: Outcome, a: Addr)
    requires o.writes.Keys <= o.foot && o.gas.Keys <= o.foot && a !in o.foot
    ensures SameAt(Apply(w, id, o), w, a)
  {
  }

  /** One position further in packing order. */
  lemma AfterStep(w: World, txs: seq<Tx>, i: nat)
    requires Runs(w, txs) && i < |txs|
    ensures txs[i].run(After(w, txs, i).accounts) == Some(At(w, txs, i))
    ensures After(w, txs, i + 1) == Apply(After(w, txs, i), txs[i].id, At(w, txs, i))
    ensures At(w, txs, i).writes.Keys <= At(w, txs, i).foot && At(w, txs, i).gas.Keys <= At(w, txs, i).foot
  {
  }

  /** Between two positions with no toucher of `a` in between, `a` does not change. */
  lemma {:induction false} Stable(w: World, txs: seq<Tx>, i: nat, j: nat, a: Addr)
    requires Runs(w, txs) && i <= j <= |txs|
    requires forall k :: i <= k < j ==> !Touches(w, txs, k, a)
    ensures SameAt(After(w, txs, i), After(w, txs, j), a)
    decreases j
  {
    hide Runs, After, Apply;
    if i < j {
      Stable(w, txs, i, j - 1, a);
      assert !Touches(w, txs, j - 1, a);
      AfterStep(w, txs, j - 1);
      ApplyOther(After(w, txs, j - 1), txs[j - 1].id, At(w, txs, j - 1), a);
    }
  }

  // --- partial executions --------------------------------------------------------------

  /** Of the transactions that touch `a`, those done are exactly those before position `i`. */
  ghost predicate Cut(w: World, txs: seq<Tx>, done: set<nat>, a: Addr, i: nat)
    requires Runs(w, txs)
  {
    forall j :: 0 <= j < |txs| && Touches(w, txs, j, a) ==> (j in done <==> j < i)
  }

  /** The records under transaction ids: those of the transactions done, over the old ones. */
  ghost predicate RecordsOk(w: World, txs: seq<Tx>, t: World, done: set<nat>)
    requires Runs(w, txs)
  {
    (forall i :: 0 <= i < |txs| && i in done ==>
       txs[i].id in t.records && t.records[txs[i].id] == At(w, txs, i).record) &&
    forall id :: !IsIdOf(txs, done, id) ==>
      (id in t.records <==> id in w.records) && (id in w.records && id in t.records ==> t.records[id] == w.records[id])
  }

  ghost predicate IsIdOf(txs: seq<Tx>, done: set<nat>, id: Tid)
  {
    exists i :: 0 <= i < |txs| && i in done && txs[i].id == id
  }

  /** `t` agrees, address by address, with packing order cut off where `done` ends there. */
  ghost predicate CutsOk(w: World, txs: seq<Tx>, t: World, done: set<nat>)
    requires Runs(w, txs)
  {
    forall a, i :: 0 <= i <= |txs| && Cut(w, txs, done, a, i) ==> SameAt(t, After(w, txs, i), a)
  }

  /** `t` is a world reached by executing the transactions `done`, in an order that respects
      conflicts. */
  ghost predicate Reached(w: World, txs: seq<Tx>, t: World, done: set<nat>)
    requires Runs(w, txs)
  {
    CutsOk(w, txs, t, done) && RecordsOk(w, txs, t, done)
  }

  /** `x` may run: of the transactions it conflicts with, those done are those packed before it. */
  ghost predicate Ready(w: World, txs: seq<Tx>, done: set<nat>, x: nat)
    requires Runs(w, txs) && x < |txs|
  {
    x !in done && forall j :: 0 <= j < |txs| && j != x && Conflict(w, txs, j, x) ==> (j in done <==> j < x)
  }

  lemma ReadyCut(w: World, txs: seq<Tx>, done: set<nat>, x: nat, a: Addr)
    requires Runs(w, txs) && x < |txs| && Ready(w, txs, done, x) && Touches(w, txs, x, a)
    ensures Cut(w, txs, done, a, x)
  {
  }

  lemma StartReached(w: World, txs: seq<Tx>)
    requires Runs(w, txs)
    ensures Reached(w, txs, w, {})
  {
    forall a, i | 0 <= i <= |txs| && Cut(w, txs, {}, a, i) ensures SameAt(w, After(w, txs, i), a) {
      Stable(w, txs, 0, i, a);
    }
  }

  /** A transaction that is ready has the outcome it had when the block was packed. */
  lemma SameOutcome(w: World, txs: seq<Tx>, t: World, done: set<nat>, x: nat)
    requires Runs(w, txs) && x < |txs| && Reached(w, txs, t, done) && Ready(w, txs, done, x)
    ensures txs[x].run(t.accounts) == Some(At(w, txs, x))
  {
    var s, o := After(w, txs, x).accounts, At(w, txs, x);
    AfterStep(w, txs, x);
    assert Local(txs[x].run);
    hide Runs;
    forall a | a in o.foot ensures SameAccount(s, t.accounts, a) {
      assert Touches(w, txs, x, a);
      ReadyCut(w, txs, done, x, a);
      assert SameAt(t, After(w, txs, x), a);
    }
    LocalAt(txs[x].run, s, t.accounts);
  }

  lemma LocalAt(run: Program, s: Accounts, t: Accounts)
    requires Local(run) && run(s).Some? && forall a :: a in run(s).value.foot ==> SameAccount(s, t, a)
    ensures run(t) == run(s)
  {
  }

  /** Running a ready transaction keeps the world a reached one. */
  lemma StepReached(w: World, txs: seq<Tx>, t: World, done: set<nat>, x: nat)
    requires Runs(w, txs) && x < |txs| && Reached(w, txs, t, done) && Ready(w, txs, done, x)
    ensures Reached(w, txs, Apply(t, txs[x].id, At(w, txs, x)), done + {x})
  {
    hide Runs, CutsOk, RecordsOk;
    var t' := Apply(t, txs[x].id, At(w, txs, x));
    StepRecords(w, txs, t, done, x);
    StepCuts(w, txs, t, done, x);
  }

  lemma StepRecords(w: World, txs: seq<Tx>, t: World, done: set<nat>, x: nat)
    requires Runs(w, txs) && x < |txs| && RecordsOk(w, txs, t, done)
    ensures RecordsOk(w, txs, Apply(t, txs[x].id, At(w, txs, x)), done + {x})
  {
    hide Runs, At, Apply, IsIdOf;
    var o, id := At(w, txs, x), txs[x].id;
    var t' := Apply(t, id, o);
    ApplyRecords(t, id, o);
    DistinctIds(w, txs, x);
    forall i | 0 <= i < |txs| && i in done + {x}
      ensures txs[i].id in t'.records && t'.records[txs[i].id] == At(w, txs, i).record
    {
      assert i == x || (i in done && txs[i].id != id);
    }
    forall other | !IsIdOf(txs, done + {x}, other)
      ensures (other in t'.records <==> other in w.records) &&
              (other in w.records && other in t'.records ==> t'.records[other] == w.records[other])
    {
      NotIdOf(txs, done, x, other);
    }
  }

  lemma DistinctIds(w: World, txs: seq<Tx>, x: nat)
    requires Runs(w, txs) && x < |txs|
    ensures forall i :: 0 <= i < |txs| && i != x ==> txs[i].id != txs[x].id
  {
  }

  lemma ApplyRecords(t: World, id: Tid, o: Outcome)
    ensures Apply(t, id, o).records == t.records[id := o.record]
  {
  }

  lemma NotIdOf(txs: seq<Tx>, done: set<nat>, x: nat, id: Tid)
    requires x < |txs| && !IsIdOf(txs, done + {x}, id)
    ensures !IsIdOf(txs, done, id) && id != txs[x].id
  {
  }

  lemma StepCuts(w: World, txs: seq<Tx>, t: World, done: set<nat>, x: nat)
    requires Runs(w, txs) && x < |txs| && CutsOk(w, txs, t, done) && Ready(w, txs, done, x)
    ensures CutsOk(w, txs, Apply(t, txs[x].id, At(w, txs, x)), done + {x})
  {
    var t' := Apply(t, txs[x].id, At(w, txs, x));
    forall a, i | 0 <= i <= |txs| && Cut(w, txs, done + {x}, a, i) ensures SameAt(t', After(w, txs, i), a) {
      StepCut(w, txs, t, done, x, a, i);
    }
  }

  lemma NoToucherBetween(w: World, txs: seq<Tx>, done: set<nat>, x: nat, a: Addr, i: nat, k: nat)
    requires Runs(w, txs) && x < k < i <= |txs| && Ready(w, txs, done, x)
    requires Touches(w, txs, x, a) && Cut(w, txs, done + {x}, a, i)
    ensures !Touches(w, txs, k, a)
  {
  }

  lemma TouchersConflict(w: World, txs: seq<Tx>, x: nat, a: Addr)
    requires Runs(w, txs) && x < |txs| && Touches(w, txs, x, a)
    ensures forall k :: 0 <= k < |txs| && Touches(w, txs, k, a) ==> Conflict(w, txs, k, x)
  {
  }

  lemma StepCut(w: World, txs: seq<Tx>, t: World, done: set<nat>, x: nat, a: Addr, i: nat)
    requires Runs(w, txs) && x < |txs| && CutsOk(w, txs, t, done) && Ready(w, txs, done, x)
    requires i <= |txs| && Cut(w, txs, done + {x}, a, i)
    ensures SameAt(Apply(t, txs[x].id, At(w, txs, x)), After(w, txs, i), a)
  {
    hide Runs, After, Apply, At;
    AfterStep(w, txs, x);
    if Touches(w, txs, x, a) {
      ReadyCut(w, txs, done, x, a);
      ApplySame(t, After(w, txs, x), txs[x].id, txs[x].id, At(w, txs, x), a);
      assert x < i;
      forall k | x + 1 <= k < i ensures !Touches(w, txs, k, a) {
        NoToucherBetween(w, txs, done, x, a, i, k);
      }
      Stable(w, txs, x + 1, i, a);
    } else {
      assert Cut(w, txs, done, a, i);
      ApplyOther(t, txs[x].id, At(w, txs, x), a);
    }
  }

  // --- fees ------------------------------------------------------------------------------

  function FeesOf(w: World, a: Addr): nat
  {
    if a in w.gas then w.gas[a] else 0
  }

  /** Every sum of fees a merge computes is one packing computed: where adding up overflows does not depend on
      the order. */
  lemma FeesAsPacked(w: World, txs: seq<Tx>, t: World, done: set<nat>, x: nat, a: Addr)
    requires Runs(w, txs) && x < |txs| && Reached(w, txs, t, done) && Ready(w, txs, done, x) && a in At(w, txs, x).gas
    ensures FeesOf(Apply(t, txs[x].id, At(w, txs, x)), a) == FeesOf(After(w, txs, x + 1), a)
  {
    hide Runs, Apply, At, After, RecordsOk;
    AfterStep(w, txs, x);
    assert Touches(w, txs, x, a);
    ReadyCut(w, txs, done, x, a);
    ApplySame(t, After(w, txs, x), txs[x].id, txs[x].id, At(w, txs, x), a);
  }

  /** Sums of fees stay within the number of transactions times the largest fee. */
  lemma {:induction false} FeesBounded(w: World, txs: seq<Tx>, i: nat, a: Addr, most: nat)
    requires Runs(w, txs) && i <= |txs| && forall k :: 0 <= k < |txs| && a in At(w, txs, k).gas ==> At(w, txs, k).gas[a] <= most
    ensures FeesOf(After(w, txs, i), a) <= FeesOf(w, a) + i * most
    decreases i
  {
    hide Runs, At, After;
    if i == 0 {
      NoneYet(w, txs);
    } else {
      FeesBounded(w, txs, i - 1, a, most);
      AfterStep(w, txs, i - 1);
      assert i * most == (i - 1) * most + most;
    }
  }

  lemma NoneYet(w: World, txs: seq<Tx>)
    ensures After(w, txs, 0) == w
  {
  }

  // --- what a block leaves behind --------------------------------------------------------

  /** The fees the first `n` transactions charge to `a`. */
  ghost function FeeSum(w: World, txs: seq<Tx>, n: nat, a: Addr): nat
    requires Runs(w, txs) && n <= |txs|
  {
    if n == 0 then 0 else FeeSum(w, txs, n - 1, a) + if a in At(w, txs, n - 1).gas then At(w, txs, n - 1).gas[a] else 0
  }

  /** Transaction `i` is the last of the first `n` to write account `a`. */
  ghost predicate LastWriter(w: World, txs: seq<Tx>, n: nat, a: Addr, i: nat)
    requires Runs(w, txs) && n <= |txs|
  {
    i < n && a in At(w, txs, i).writes && forall j :: i < j < n ==> a !in At(w, txs, j).writes
  }

  /** Every account is as its last writer left it, or as it was when nobody wrote it. */
  ghost predicate AccountsLeft(w: World, txs: seq<Tx>, n: nat, v: World)
    requires Runs(w, txs) && n <= |txs|
  {
    (forall a, i: nat :: LastWriter(w, txs, n, a, i) ==> a in v.accounts && v.accounts[a] == At(w, txs, i).writes[a]) &&
    forall a :: (forall i :: 0 <= i < n ==> a !in At(w, txs, i).writes) ==> SameAccount(v.accounts, w.accounts, a)
  }

  ghost predicate IdAmong(txs: seq<Tx>, n: nat, id: Tid)
    requires n <= |txs|
  {
    exists i :: 0 <= i < n && txs[i].id == id
  }

  /** `v` is what the first `n` transactions leave of `w`: accounts, fees, and one record each. */
  ghost predicate Leaves(w: World, txs: seq<Tx>, n: nat, v: World)
    requires Runs(w, txs) && n <= |txs|
  {
    AccountsLeft(w, txs, n, v) && (forall a :: FeesOf(v, a) == FeesOf(w, a) + FeeSum(w, txs, n, a)) &&
    (forall i :: 0 <= i < n ==> txs[i].id in v.records && v.records[txs[i].id] == At(w, txs, i).record) &&
    forall id :: !IdAmong(txs, n, id) ==>
      (id in v.records <==> id in w.records) && (id in v.records && id in w.records ==> v.records[id] == w.records[id])
  }

  /** Running the transactions one after the other leaves exactly that, after every one of them. */
  lemma {:induction false} BlockLeaves(w: World, txs: seq<Tx>, n: nat)
    requires Runs(w, txs) && n <= |txs|
    ensures Leaves(w, txs, n, After(w, txs, n))
    decreases n
  {
    hide Runs, At, After, AccountsLeft;
    if n == 0 {
      NoneYet(w, txs);
      NothingLeft(w, txs);
    } else {
      BlockLeaves(w, txs, n - 1);
      AfterStep(w, txs, n - 1);
      MoreAccounts(w, txs, n - 1, After(w, txs, n - 1));
      MoreRecords(w, txs, n - 1, After(w, txs, n - 1));
    }
  }

  lemma NothingLeft(w: World, txs: seq<Tx>)
    requires Runs(w, txs)
    ensures Leaves(w, txs, 0, w)
  {
  }

  lemma MoreAccounts(w: World, txs: seq<Tx>, n: nat, v: World)
    requires Runs(w, txs) && n < |txs| && AccountsLeft(w, txs, n, v)
    ensures AccountsLeft(w, txs, n + 1, Apply(v, txs[n].id, At(w, txs, n)))
  {
    hide Runs, At;
    var v' := Apply(v, txs[n].id, At(w, txs, n));
    forall a, i: nat | LastWriter(w, txs, n + 1, a, i) ensures a in v'.accounts && v'.accounts[a] == At(w, txs, i).writes[a] {
      if i < n { assert LastWriter(w, txs, n, a, i) && a !in At(w, txs, n).writes; }
    }
    forall a | forall i :: 0 <= i < n + 1 ==> a !in At(w, txs, i).writes ensures SameAccount(v'.accounts, w.accounts, a) {
      assert a !in At(w, txs, n).writes;
      assert SameAccount(v.accounts, w.accounts, a);
    }
  }

  lemma MoreRecords(w: World, txs: seq<Tx>, n: nat, v: World)
    requires Runs(w, txs) && n < |txs| && Leaves(w, txs, n, v)
    ensures var v' := Apply(v, txs[n].id, At(w, txs, n));
            (forall i :: 0 <= i < n + 1 ==> txs[i].id in v'.records && v'.records[txs[i].id] == At(w, txs, i).record) &&
            forall id :: !IdAmong(txs, n + 1, id) ==>
              (id in v'.records <==> id in w.records) && (id in v'.records && id in w.records ==> v'.records[id] == w.records[id])
  {
    hide Runs, At, AccountsLeft;
    DistinctIds(w, txs, n);
    forall id | !IdAmong(txs, n + 1, id) ensures !IdAmong(txs, n, id) && txs[n].id != id {}
  }

  lemma SameEverywhere(t: World, e: World)
    requires forall a :: SameAt(t, e, a)
    ensures t.accounts == e.accounts && t.gas == e.gas
  {
    forall a: Addr ensures a in t.accounts <==> a in e.accounts { assert SameAt(t, e, a); }
    forall a: Addr ensures a in t.gas <==> a in e.gas { assert SameAt(t, e, a); }
    forall a | a in t.accounts ensures t.accounts[a] == e.accounts[a] { assert SameAt(t, e, a); }
    forall a | a in t.gas ensures t.gas[a] == e.gas[a] { assert SameAt(t, e, a); }
  }

  /** When everything has run, the world is that of packing order. */
  lemma AllReached(w: World, txs: seq<Tx>, t: World, done: set<nat>)
    requires Runs(w, txs) && Reached(w, txs, t, done)
    requires forall i :: 0 <= i < |txs| ==> i in done
    ensures t == After(w, txs, |txs|)
  {
    var e := After(w, txs, |txs|);
    forall a ensures SameAt(t, e, a) {
      assert Cut(w, txs, done, a, |txs|);
    }
    SameEverywhere(t, e);
    InOrder(w, txs, |txs|);
    RecordsUnique(w, txs, t, e, done, Upto(|txs|));
  }

  /** The positions before `n`. */
  function Upto(n: nat): (s: set<nat>)
    ensures forall i: nat :: i in s <==> i < n
  {
    if n == 0 then {} else Upto(n - 1) + {n - 1}
  }

  lemma NoRecords(w: World, txs: seq<Tx>)
    requires Runs(w, txs)
    ensures RecordsOk(w, txs, w, {})
  {
  }

  /** Packing order itself reaches its own states. */
  lemma {:induction false} InOrder(w: World, txs: seq<Tx>, n: nat)
    requires Runs(w, txs) && n <= |txs|
    ensures RecordsOk(w, txs, After(w, txs, n), Upto(n))
    decreases n
  {
    hide RecordsOk, Runs, At;
    if n == 0 {
      NoRecords(w, txs);
    } else {
      InOrder(w, txs, n - 1);
      AfterStep(w, txs, n - 1);
      StepRecords(w, txs, After(w, txs, n - 1), Upto(n - 1), n - 1);
      
    }
  }

  lemma RecordsUnique(w: World, txs: seq<Tx>, t: World, u: World, done: set<nat>, done': set<nat>)
    requires Runs(w, txs) && RecordsOk(w, txs, t, done) && RecordsOk(w, txs, u, done')
    requires forall i :: 0 <= i < |txs| ==> (i in done <==> i in done')
    ensures t.records == u.records
  {
    hide Runs, At;
    forall id: Tid
      ensures (id in t.records <==> id in u.records) && (id in t.records && id in u.records ==> t.records[id] == u.records[id])
    {
      if IsIdOf(txs, done, id) {
        var i :| 0 <= i < |txs| && i in done && txs[i].id == id;
      } else {
        assert !IsIdOf(txs, done', id);
      }
    }
  }
}
