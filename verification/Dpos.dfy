/** Fork choice and the latest irreversible block. */
module Dpos {
  import opened Prelude
  import opened Chain

  const SECOND_IN_MS := 1000
  const BLOCK_INTERVAL_IN_MS := 15000
  const MAX_MINT_DURATION_IN_MS := 5250
  const MIN_MINT_DURATION_IN_MS := 2250
  const DYNASTY_INTERVAL_IN_MS := 3150000
  const DYNASTY_SIZE := 21
  const CONSENSUS_SIZE := DYNASTY_SIZE * 2 / 3 + 1

  /** Integer division that rounds toward zero. */
  function Quo(a: int, b: int): int
    requires b > 0
  {
    if a >= 0 then a / b else -((-a) / b)
  }

  function Rem(a: int, b: int): int
    requires b > 0
  {
    a - Quo(a, b) * b
  }

  // --- fork choice ----------------------------------------------------------------------

  /** Higher blocks are better; equal heights compare a 32-bit digest of the hash, `rank`. */
  predicate Less(rank: Hash -> nat, a: Block, b: Block)
  {
    if a.height != b.height then a.height < b.height else rank(a.hash) < rank(b.hash)
  }

  ghost predicate Best(rank: Hash -> nat, b: Block, tail: Block, detached: map<Hash, Block>)
  {
    (b == tail || (b.hash in detached && detached[b.hash] == b)) &&
    !Less(rank, b, tail) && forall h :: h in detached ==> !Less(rank, b, detached[h])
  }

  /** `b` is higher than `c`, or as high with a digest that is not smaller. */
  ghost predicate AtLeast(rank: Hash -> nat, b: Block, c: Block)
  {
    b.height > c.height || (b.height == c.height && rank(b.hash) >= rank(c.hash))
  }

  /** A best candidate is at least as high as all, and of those as high none has a larger digest. */
  lemma BestExact(rank: Hash -> nat, b: Block, tail: Block, detached: map<Hash, Block>)
    ensures Best(rank, b, tail, detached) <==>
            (b == tail || (b.hash in detached && detached[b.hash] == b)) && AtLeast(rank, b, tail) && forall h :: h in detached ==> AtLeast(rank, b, detached[h])
  {
  }

  /** Another block of the same height and digest. */
  ghost predicate Ties(rank: Hash -> nat, a: Block, b: Block)
  {
    a != b && a.height == b.height && rank(a.hash) == rank(b.hash)
  }

  ghost predicate Untied(rank: Hash -> nat, b: Block, tail: Block, detached: map<Hash, Block>)
  {
    !Ties(rank, b, tail) && forall h :: h in detached ==> !Ties(rank, b, detached[h])
  }

  /** Candidates are kept under their own hashes. */
  ghost predicate Keyed(detached: map<Hash, Block>)
  {
    forall h :: h in detached ==> detached[h].hash == h
  }

  /** A best candidate is the only one exactly when no other candidate has its height and digest. */
  lemma BestUnique(rank: Hash -> nat, b: Block, tail: Block, detached: map<Hash, Block>)
    requires Keyed(detached) && Best(rank, b, tail, detached)
    ensures (forall c :: Best(rank, c, tail, detached) ==> c == b) <==> Untied(rank, b, tail, detached)
  {
    hide Best, Ties;
    TiedIsBest(rank, b, tail, tail, detached);
    forall h | h in detached ensures Ties(rank, b, detached[h]) ==> detached[h] != b && Best(rank, detached[h], tail, detached) {
      TiedIsBest(rank, b, detached[h], tail, detached);
    }
    forall c | Best(rank, c, tail, detached) && c != b ensures !Untied(rank, b, tail, detached) { BestTies(rank, b, c, tail, detached); }
  }

  lemma TiedIsBest(rank: Hash -> nat, b: Block, c: Block, tail: Block, detached: map<Hash, Block>)
    requires Best(rank, b, tail, detached) && (c == tail || (c.hash in detached && detached[c.hash] == c))
    ensures Ties(rank, b, c) ==> c != b && Best(rank, c, tail, detached)
  {
  }

  lemma BestTies(rank: Hash -> nat, b: Block, c: Block, tail: Block, detached: map<Hash, Block>)
    requires Best(rank, b, tail, detached) && Best(rank, c, tail, detached) && b != c
    ensures !Untied(rank, b, tail, detached)
  {
    assert Ties(rank, b, c);
  }

  /** The candidates, each once, in the order they are visited. */
  ghost predicate Lists(order: seq<Block>, detached: map<Hash, Block>)
  {
    (forall i :: 0 <= i < |order| ==> order[i].hash in detached && detached[order[i].hash] == order[i]) &&
    (forall h :: h in detached ==> detached[h] in order) && forall i, j :: 0 <= i < j < |order| ==> order[i] != order[j]
  }

  /** The walk over the candidates, from the best so far. */
  function Choose(rank: Hash -> nat, best: Block, order: seq<Block>): Block
    decreases |order|
  {
    if order == [] then best
    else Choose(rank, if Less(rank, best, order[0]) then order[0] else best, order[1..])
  }

  /** `b` comes first in `start, order` among those that neither of them beats. */
  ghost predicate FirstBest(rank: Hash -> nat, start: Block, order: seq<Block>, b: Block)
  {
    !Less(rank, b, start) && (forall k :: 0 <= k < |order| ==> !Less(rank, b, order[k])) &&
    (b == start || (Less(rank, start, b) && exists i :: 0 <= i < |order| && order[i] == b && forall k :: 0 <= k < i ==> Less(rank, order[k], b)))
  }

  lemma {:induction false} ChooseFirst(rank: Hash -> nat, start: Block, order: seq<Block>)
    ensures FirstBest(rank, start, order, Choose(rank, start, order))
    decreases |order|
  {
    if order != [] {
      var next, rest := if Less(rank, start, order[0]) then order[0] else start, order[1..];
      ChooseFirst(rank, next, rest);
      var b := Choose(rank, next, rest);
      forall k | 0 <= k < |order| ensures !Less(rank, b, order[k]) { if k > 0 { assert !Less(rank, b, rest[k - 1]); } }
      if b != next {
        var i :| 0 <= i < |rest| && rest[i] == b && forall k :: 0 <= k < i ==> Less(rank, rest[k], b);
        assert order[i + 1] == b && forall k :: 0 <= k < i + 1 ==> Less(rank, order[k], b);
      } else if b != start {
        assert order[0] == b;
      }
    }
  }

  /** The walk ends at a best candidate: the tail when that is one, else the first visited. */
  lemma ChooseIsBest(rank: Hash -> nat, tail: Block, detached: map<Hash, Block>, order: seq<Block>)
    requires Keyed(detached) && Lists(order, detached)
    ensures Best(rank, Choose(rank, tail, order), tail, detached) && AtLeast(rank, Choose(rank, tail, order), tail)
    ensures forall h :: h in detached ==> AtLeast(rank, Choose(rank, tail, order), detached[h])
    ensures Best(rank, tail, tail, detached) ==> Choose(rank, tail, order) == tail
    ensures order != [] && Best(rank, order[0], tail, detached) && !Best(rank, tail, tail, detached) ==> Choose(rank, tail, order) == order[0]
  {
    ChooseFirst(rank, tail, order);
  }

  lemma {:induction false} SomeListing(detached: map<Hash, Block>) returns (order: seq<Block>)
    requires Keyed(detached)
    ensures Lists(order, detached)
    decreases |detached|
  {
    if detached == map[] {
      order := [];
    } else {
      var h :| h in detached;
      order := ListingFrom(detached, detached[h]);
    }
  }

  /** A listing that starts with the given candidate. */
  lemma {:induction false} ListingFrom(detached: map<Hash, Block>, b: Block) returns (order: seq<Block>)
    requires Keyed(detached) && b.hash in detached && detached[b.hash] == b
    ensures Lists(order, detached) && order != [] && order[0] == b
    decreases |detached|, 0
  {
    var others := detached - {b.hash};
    assert |others| < |detached| by { assert others.Keys == detached.Keys - {b.hash}; }
    var rest := SomeListing(others);
    order := [b] + rest;
    forall h | h in detached ensures detached[h] in order { if h != b.hash { assert others[h] in rest; } else { assert order[0] == b; } }
  }

  /** The chosen block does not depend on the visiting order exactly when the tail is a best candidate or there
      is only one. */
  lemma OrderMatters(rank: Hash -> nat, tail: Block, detached: map<Hash, Block>)
    requires Keyed(detached)
    ensures (forall p, q :: Lists(p, detached) && Lists(q, detached) ==> Choose(rank, tail, p) == Choose(rank, tail, q)) <==>
            Best(rank, tail, tail, detached) || forall a, b :: Best(rank, a, tail, detached) && Best(rank, b, tail, detached) ==> a == b
  {
    hide Choose, Lists, Best;
    forall p | Lists(p, detached)
      ensures Best(rank, Choose(rank, tail, p), tail, detached) && (Best(rank, tail, tail, detached) ==> Choose(rank, tail, p) == tail)
    {
      ChooseIsBest(rank, tail, detached, p);
    }
    if !Best(rank, tail, tail, detached) {
      forall a, b | Best(rank, a, tail, detached) && Best(rank, b, tail, detached)
        ensures exists p, q :: Lists(p, detached) && Lists(q, detached) && Choose(rank, tail, p) == a && Choose(rank, tail, q) == b
      {
        var p := ChosenFirst(rank, tail, detached, a);
        var q := ChosenFirst(rank, tail, detached, b);
      }
    }
  }

  lemma ChosenFirst(rank: Hash -> nat, tail: Block, detached: map<Hash, Block>, b: Block) returns (order: seq<Block>)
    requires Keyed(detached) && Best(rank, b, tail, detached) && !Best(rank, tail, tail, detached)
    ensures Lists(order, detached) && Choose(rank, tail, order) == b
  {
    order := ListingFrom(detached, b);
    ChooseIsBest(rank, tail, detached, order);
  }

  function Images(rank: Hash -> nat, m: nat): set<nat>
  {
    if m == 0 then {} else Images(rank, m - 1) + {rank(m)}
  }

  function Below(n: nat): set<nat>
  {
    if n == 0 then {} else Below(n - 1) + {n - 1}
  }

  lemma {:induction false} BelowSize(n: nat)
    ensures |Below(n)| == n && forall i: nat :: i in Below(n) <==> i < n
  {
    if n > 0 { BelowSize(n - 1); }
  }

  ghost predicate Injective(rank: Hash -> nat, m: nat)
  {
    forall i, j :: 1 <= i < j <= m ==> rank(i) != rank(j)
  }

  lemma {:induction false} NewImage(rank: Hash -> nat, m: nat, k: nat)
    requires Injective(rank, k) && m < k
    ensures rank(k) !in Images(rank, m)
  {
    if m > 0 { NewImage(rank, m - 1, k); }
  }

  lemma {:induction false} ImagesSize(rank: Hash -> nat, m: nat, n: nat)
    requires Injective(rank, m) && forall h :: rank(h) < n
    ensures |Images(rank, m)| == m && Images(rank, m) <= Below(n)
  {
    if m > 0 {
      ImagesSize(rank, m - 1, n);
      NewImage(rank, m - 1, m);
      BelowSize(n);
    }
  }

  /** Digests from a finite range collide, on hashes other than the genesis block's. */
  lemma DigestsCollide(rank: Hash -> nat, n: nat) returns (p: Hash, q: Hash)
    requires forall h :: rank(h) < n
    ensures GENESIS < p < q <= n + 1 && rank(p) == rank(q)
  {
    if Injective(rank, n + 1) {
      ImagesSize(rank, n + 1, n);
      BelowSize(n);
      SubsetSize(Images(rank, n + 1), Below(n));
      assert false;
    }
    p, q :| 1 <= p < q <= n + 1 && rank(p) == rank(q);
  }

  /** Two best candidates, each chosen when it is visited first. */
  ghost predicate Undecided(rank: Hash -> nat, tail: Block, detached: map<Hash, Block>, a: Block, b: Block)
  {
    a != b && Best(rank, a, tail, detached) && Best(rank, b, tail, detached) &&
    Lists([a, b], detached) && Choose(rank, tail, [a, b]) == a && Lists([b, a], detached) && Choose(rank, tail, [b, a]) == b
  }

  /** Whatever the digest, hashes that collide under it make a chain on which the visiting order decides the
      tail: two children of the genesis block. */
  method Tie(rank: Hash -> nat, p: Hash, q: Hash) returns (bc: BlockChain, a: Block, b: Block)
    requires p != q && p != GENESIS && q != GENESIS && rank(p) == rank(q)
    ensures fresh(bc) && bc.Valid() && Undecided(rank, bc.tailBlock, bc.detachedTailBlocks, a, b)
  {
    hide Closed, Linked, Known, Line, OnLine, Indexed, Stored, Linking, Undecided;
    var genesis := Block(GENESIS, GENESIS, 1, 0, 0);
    a, b := Block(p, GENESIS, 2, 15, 1), Block(q, GENESIS, 2, 15, 2);
    bc := new BlockChain(genesis);
    TwoChildren(genesis, a, b);
    bc.PutVerifiedNewBlocks(genesis, [a, b], [a, b]);
    TwoDetached(rank, genesis, a, b);
  }

  lemma TwoDetached(rank: Hash -> nat, tail: Block, a: Block, b: Block)
    requires Ties(rank, a, b) && a.hash != b.hash && tail.height < a.height && tail.hash != a.hash && tail.hash != b.hash
    ensures Undecided(rank, tail, Stored(map[], [a, b]) - {tail.hash}, a, b)
  {
    hide Lists, Best, Choose, Stored;
    TwoStored(map[], a, b);
    var detached := map[a.hash := a, b.hash := b];
    assert Stored(map[], [a, b]) - {tail.hash} == detached;
    BothBest(rank, tail, a, b);
    BothBest(rank, tail, b, a);
    assert detached == map[b.hash := b, a.hash := a];
  }

  lemma BothBest(rank: Hash -> nat, tail: Block, a: Block, b: Block)
    requires Ties(rank, a, b) && a.hash != b.hash && tail.height < a.height
    ensures var detached := map[a.hash := a, b.hash := b];
            Lists([a, b], detached) && Best(rank, a, tail, detached) && Choose(rank, tail, [a, b]) == a
  {
    ChooseIsBest(rank, tail, map[a.hash := a, b.hash := b], [a, b]);
  }

  lemma TwoStored(s: Store, a: Block, b: Block)
    ensures Stored(s, [a]) == s[a.hash := a] && Stored(s, [a, b]) == s[a.hash := a][b.hash := b]
  {
    assert [a, b][..1] == [a] && [a][..0] == [];
  }

  lemma TwoChildren(genesis: Block, a: Block, b: Block)
    requires genesis.hash == GENESIS && genesis.height == 1 && a.hash != GENESIS && b.hash != GENESIS && a.hash != b.hash
    requires a.parentHash == b.parentHash == GENESIS && a.height == b.height == 2
    ensures Linking(map[GENESIS := genesis], [a, b])
  {
    var s := map[GENESIS := genesis];
    TwoStored(s, a, b);
    assert [a, b][..0] == [] && [a, b][..1] == [a];
  }

  /** Switches to a best candidate, unless that would remove the LIB: to the only one when none ties with it. */
  method ForkChoice(bc: BlockChain, rank: Hash -> nat) returns (err: Option<Error>, best: Block)
    requires bc.Valid()
    modifies bc`index, bc`tailBlock
    ensures bc.Valid() && Step(old(bc.Now()), bc.Now())
    ensures Best(rank, best, old(bc.tailBlock), bc.detachedTailBlocks) && AtLeast(rank, best, old(bc.tailBlock))
    ensures forall h :: h in bc.detachedTailBlocks ==> AtLeast(rank, best, bc.detachedTailBlocks[h])
    ensures exists order :: Lists(order, bc.detachedTailBlocks) && best == Choose(rank, old(bc.tailBlock), order)
    ensures forall b :: Best(rank, b, old(bc.tailBlock), bc.detachedTailBlocks) && Untied(rank, b, old(bc.tailBlock), bc.detachedTailBlocks) ==> best == b
    ensures Linked(bc.blocks, best)
    ensures err == if bc.lib in Line(bc.blocks, best) then None else Some(CannotRevertLIB)
    ensures bc.tailBlock == if err == None then best else old(bc.tailBlock)
  {
    hide Closed, Linked, Known, Line, OnLine, Indexed, Lists, Choose;
    var tail := bc.tailBlock;
    OnLineExact(bc.blocks, bc.lib, tail);
    var order := DetachedTailBlocks(bc);
    best := PickBest(rank, tail, order);
    ChooseIsBest(rank, tail, bc.detachedTailBlocks, order);
    BestOne(rank, best, tail, bc.detachedTailBlocks);
    if best.hash == tail.hash {
      SameTail(bc, best);
      return None, best;
    }
    StoredLinked(bc.blocks, best.hash);
    err := bc.SetTailBlock(Some(best));
  }

  lemma BestOne(rank: Hash -> nat, best: Block, tail: Block, detached: map<Hash, Block>)
    requires Keyed(detached) && Best(rank, best, tail, detached)
    ensures forall b :: Best(rank, b, tail, detached) && Untied(rank, b, tail, detached) ==> best == b
  {
    hide Best, Untied;
    forall b | Best(rank, b, tail, detached) && Untied(rank, b, tail, detached) ensures best == b { BestUnique(rank, b, tail, detached); }
  }

  lemma SameTail(bc: BlockChain, b: Block)
    requires bc.Valid() && b.hash == bc.tailBlock.hash && (b == bc.tailBlock || (b.hash in bc.detachedTailBlocks && bc.detachedTailBlocks[b.hash] == b))
    ensures b == bc.tailBlock
  {
  }

  /** The candidates, in the cache's order. */
  method DetachedTailBlocks(bc: BlockChain) returns (order: seq<Block>)
    requires bc.Valid()
    ensures Lists(order, bc.detachedTailBlocks)
  {
    hide Closed, Linked, Known, Line, OnLine, Indexed;
    order := [];
    var todo := bc.detachedTailBlocks.Keys;
    while todo != {}
      invariant todo <= bc.detachedTailBlocks.Keys
      invariant Lists(order, bc.detachedTailBlocks - todo)
    {
      var h :| h in todo;
      ListsMore(bc.detachedTailBlocks, todo, h, order);
      order := order + [bc.detachedTailBlocks[h]];
      todo := todo - {h};
    }
    assert bc.detachedTailBlocks - todo == bc.detachedTailBlocks;
  }

  lemma ListsMore(detached: map<Hash, Block>, todo: set<Hash>, h: Hash, order: seq<Block>)
    requires Keyed(detached) && h in todo && h in detached && Lists(order, detached - todo)
    ensures Lists(order + [detached[h]], detached - (todo - {h}))
  {
    var more := order + [detached[h]];
    forall k | k in detached - (todo - {h}) ensures detached[k] in more {
      if k == h { assert more[|order|] == detached[h]; } else { assert (detached - todo)[k] in order; }
    }
  }

  method PickBest(rank: Hash -> nat, tail: Block, order: seq<Block>) returns (best: Block)
    ensures best == Choose(rank, tail, order)
  {
    best := tail;
    for i := 0 to |order|
      invariant Choose(rank, tail, order) == Choose(rank, best, order[i..])
    {
      if Less(rank, best, order[i]) { best := order[i]; }
      assert order[i..][1..] == order[i + 1..];
    }
  }

  // --- the latest irreversible block ---------------------------------------------------------

  function DynastyOf(b: Block): int
  {
    Quo(b.timestamp * SECOND_IN_MS, DYNASTY_INTERVAL_IN_MS)
  }

  /** From the epoch on, dynasties follow one another every 3150 seconds. */
  lemma DynastySeconds(b: Block)
    requires b.timestamp >= 0
    ensures DynastyOf(b) == b.timestamp / 3150
  {
    var q, r := b.timestamp / 3150, b.timestamp % 3150;
    DivisionUnique(b.timestamp * 1000, q, r * 1000, 3150000);
  }

  /** Blocks on either side of a multiple of 3150 seconds are in different runs. */
  lemma DynastyBoundary(line: seq<Block>, i: nat, j: nat, k: nat)
    requires i <= j < |line| && 0 <= line[i].timestamp < 3150 * k <= line[j].timestamp
    ensures !OneDynasty(line, i, j)
  {
    hide DynastyOf;
    DynastySeconds(line[i]);
    DynastySeconds(line[j]);
    assert line[i].timestamp / 3150 < k <= line[j].timestamp / 3150;
    assert DynastyOf(line[j]) != DynastyOf(line[i]);
  }

  ghost predicate OneDynasty(line: seq<Block>, i: nat, j: nat)
    requires i <= j < |line|
  {
    forall k :: i <= k <= j ==> DynastyOf(line[k]) == DynastyOf(line[i])
  }

  /** The proposers of the blocks from `i` upwards for as long as the dynasty stays the same. */
  ghost function Support(line: seq<Block>, i: nat): set<nat>
    requires i < |line|
  {
    set j | i <= j < |line| && OneDynasty(line, i, j) :: line[j].proposer
  }

  /** What has been counted above `i` when the walk down arrives there. */
  ghost function Counted(line: seq<Block>, i: nat): set<nat>
    requires i < |line|
  {
    if i + 1 < |line| && DynastyOf(line[i + 1]) == DynastyOf(line[i]) then Support(line, i + 1) else {}
  }

  lemma SupportStep(line: seq<Block>, i: nat)
    requires i < |line|
    ensures Support(line, i) == Counted(line, i) + {line[i].proposer}
  {
  }

  /** Each block further down adds at most one proposer. */
  lemma {:induction false} SupportBound(line: seq<Block>, i: nat, p: nat)
    requires i <= p < |line|
    ensures |Support(line, i)| <= |Counted(line, p)| + (p - i + 1)
    decreases p - i
  {
    SupportStep(line, i);
    assert |Support(line, i)| <= |Counted(line, i)| + 1;
    if i < p { SupportBound(line, i + 1, p); }
  }

  ghost predicate Enough(line: seq<Block>, i: nat)
    requires i < |line|
  {
    |Support(line, i)| >= 15
  }

  /** `b` is the highest block of `line` above `lib` with enough support, or `lib` when there is none. */
  ghost predicate IsNewLIB(line: seq<Block>, lib: Block, b: Block)
  {
    if b == lib then NoneAbove(line, lib.height)
    else lib.height < b.height <= |line| && line[b.height - 1] == b && Enough(line, b.height - 1) && NoneAbove(line, b.height)
  }

  ghost predicate NoneAbove(line: seq<Block>, h: nat)
  {
    forall i :: h <= i < |line| ==> !Enough(line, i)
  }

  /** The early exit gives up only when no block above the LIB can gather enough support. */
  lemma PruneIsSafe(line: seq<Block>, libHeight: nat, p: nat)
    requires p < |line| && libHeight <= p && NoneAbove(line, p + 1)
    requires p + 1 - libHeight < CONSENSUS_SIZE - |Counted(line, p)|
    ensures NoneAbove(line, libHeight)
  {
    forall i | libHeight <= i < |line| ensures !Enough(line, i) {
      if i <= p { SupportBound(line, i, p); }
    }
  }

  lemma NoneAtTop(line: seq<Block>)
    ensures NoneAbove(line, |line|)
  {
  }

  lemma CountedAt(line: seq<Block>, i: nat)
    requires i < |line|
    ensures Counted(line, i) == if i + 1 < |line| && DynastyOf(line[i + 1]) == DynastyOf(line[i]) then Support(line, i + 1) else {}
  {
  }

  lemma EnoughAt(line: seq<Block>, i: nat)
    requires i < |line| && NoneAbove(line, i + 1)
    ensures Enough(line, i) <==> |Support(line, i)| >= CONSENSUS_SIZE
    ensures !Enough(line, i) ==> NoneAbove(line, i)
  {
  }

  /** Below a block above the LIB there is a parent, and it is the genesis block only when that is the LIB. */
  lemma ParentInside(s: Store, tail: Block, lib: Block, cur: Block)
    requires Closed(s) && Linked(s, tail) && OnLine(s, lib, tail) && OnLine(s, cur, tail) && lib.height < cur.height
    ensures cur.parentHash in s && OnLine(s, s[cur.parentHash], tail) && s[cur.parentHash].height == cur.height - 1
    ensures s[cur.parentHash].hash == GENESIS ==> lib.height == cur.height - 1
  {
    hide Closed, Line, Linked;
    LineParent(s, tail, cur.height - 1);
    GenesisHeight(s, cur.parentHash);
  }

  lemma GenesisHeight(s: Store, h: Hash)
    requires Closed(s) && h in s
    ensures s[h].hash == GENESIS ==> s[h].height == 1
  {
  }

  /** Updates the LIB to exactly the block the whole walk would find, with the early exit in place. */
  method UpdateLIB(bc: BlockChain)
    requires bc.Valid()
    modifies bc`lib
    ensures bc.Valid() && Step(old(bc.Now()), bc.Now())
    ensures IsNewLIB(Line(bc.blocks, bc.tailBlock), old(bc.lib), bc.lib)
  {
    hide Closed, Linked, Known, Line, Indexed, NoneAbove, Counted, Enough, Support, DynastyOf;
    var lib, cur := bc.lib, bc.tailBlock;
    ghost var line := Line(bc.blocks, bc.tailBlock);
    var miners: set<nat>, dynasty := {}, -1;
    NoneAtTop(line);
    while cur.hash != lib.hash
      invariant bc.lib == lib && OnLine(bc.blocks, cur, bc.tailBlock) && lib.height <= cur.height && NoneAbove(line, cur.height)
      invariant if cur.height < |line| then dynasty == DynastyOf(line[cur.height]) && miners == Support(line, cur.height) else miners == {}
      decreases cur.height
    {
      var curDynasty := DynastyOf(cur);
      if curDynasty != dynasty { miners, dynasty := {}, curDynasty; }
      CountedAt(line, cur.height - 1);
      assert miners == Counted(line, cur.height - 1);
      if cur.height - lib.height < CONSENSUS_SIZE - |miners| {
        PruneIsSafe(line, lib.height, cur.height - 1);
        return;
      }
      SupportStep(line, cur.height - 1);
      miners := miners + {cur.proposer};
      EnoughAt(line, cur.height - 1);
      if |miners| >= CONSENSUS_SIZE {
        bc.lib := cur;
        return;
      }
      ParentInside(bc.blocks, bc.tailBlock, lib, cur);
      var parent := bc.GetBlock(cur.parentHash);
      if parent.None? || parent.value.hash == GENESIS {
        return;
      }
      cur := parent.value;
    }
    LineHashes(bc.blocks, bc.tailBlock, cur.height - 1, lib.height - 1);
  }

  /** Two blocks with enough support, on any two chains, were supported by nine common members when all
      their supporters belong to one dynasty. */
  lemma CertificatesOverlap(members: set<nat>, x: seq<Block>, i: nat, y: seq<Block>, j: nat)
    requires |members| == DYNASTY_SIZE && i < |x| && j < |y| && Enough(x, i) && Enough(y, j)
    requires Support(x, i) <= members && Support(y, j) <= members
    ensures |Support(x, i) * Support(y, j)| >= 9
  {
    QuorumsOverlap(members, Support(x, i), Support(y, j));
  }

  lemma QuorumsOverlap(members: set<nat>, a: set<nat>, b: set<nat>)
    requires |members| == DYNASTY_SIZE && a <= members && b <= members
    requires |a| >= CONSENSUS_SIZE && |b| >= CONSENSUS_SIZE
    ensures |a * b| >= 9
  {
    SubsetSize(a + b, members);
    assert |a + b| + |a * b| == |a| + |b|;
  }
}
