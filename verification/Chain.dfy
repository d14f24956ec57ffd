/** The canonical chain: stored blocks, the tail, the latest irreversible block (LIB) and the
    height index. */
module Chain {
  import opened Prelude
  type Hash = nat

  datatype Error = NilArgument | MissingParentBlock | CannotRevertLIB
  datatype Result<T> = Ok(value: T) | Err(error: Error)

  datatype Block = Block(hash: Hash, parentHash: Hash, height: nat, timestamp: int, proposer: nat)

  const GENESIS: Hash := 0

  type Store = map<Hash, Block>

  // --- stored blocks form a tree ------------------------------------------------------

  /** The block is the genesis block, or its parent is stored one height below. */
  predicate Linked(s: Store, b: Block)
  {
    if b.hash == GENESIS then b.height == 1
    else b.parentHash in s && s[b.parentHash].hash == b.parentHash && b.height == s[b.parentHash].height + 1
  }

  ghost predicate Closed(s: Store)
  {
    GENESIS in s && forall h :: h in s ==> s[h].hash == h && Linked(s, s[h])
  }

  /** A hash names one block. */
  predicate Known(s: Store, b: Block)
  {
    b.hash in s ==> s[b.hash] == b
  }

  /** The chain from the genesis block up to `b`; position `h - 1` holds the ancestor of height `h`. */
  ghost function Line(s: Store, b: Block): (r: seq<Block>)
    requires Closed(s) && Linked(s, b)
    ensures |r| == b.height && b.height >= 1 && r[b.height - 1] == b
    ensures forall i :: 0 <= i < |r| ==> r[i].height == i + 1
    decreases b.height
  {
    if b.hash == GENESIS then [b] else Line(s, s[b.parentHash]) + [b]
  }

  /** Every block of a chain has the chain below it as its own, and only the last may be unstored. */
  lemma {:induction false} LineInner(s: Store, b: Block, i: nat)
    requires Closed(s) && Linked(s, b) && i < b.height
    ensures Linked(s, Line(s, b)[i]) && Line(s, Line(s, b)[i]) == Line(s, b)[..i + 1]
    ensures i < b.height - 1 ==> Line(s, b)[i].hash in s && s[Line(s, b)[i].hash] == Line(s, b)[i]
    decreases b.height
  {
    if i < b.height - 1 {
      assert b.hash != GENESIS;
      var p := s[b.parentHash];
      LineInner(s, p, i);
      assert Line(s, b)[..i + 1] == Line(s, p)[..i + 1];
    } else {
      assert Line(s, b)[..i + 1] == Line(s, b);
    }
  }

  /** The step a walk takes: the parent of a block of a chain is the one below it. */
  lemma LineParent(s: Store, b: Block, i: nat)
    requires Closed(s) && Linked(s, b) && 0 < i < b.height
    ensures Line(s, b)[i].hash != GENESIS && Line(s, b)[i].parentHash in s && s[Line(s, b)[i].parentHash] == Line(s, b)[i - 1]
  {
    LineInner(s, b, i);
    var c := Line(s, b)[i];
    assert c.hash != GENESIS;
    assert Line(s, c) == Line(s, s[c.parentHash]) + [c];
  }

  /** Hashes do not repeat along a chain. */
  lemma LineHashes(s: Store, b: Block, i: nat, j: nat)
    requires Closed(s) && Linked(s, b) && Known(s, b) && i < b.height && j < b.height
    requires Line(s, b)[i].hash == Line(s, b)[j].hash
    ensures i == j
  {
    LineInner(s, b, i);
    LineInner(s, b, j);
    assert Line(s, b)[i].height == i + 1 && Line(s, b)[j].height == j + 1;
  }

  /** Two chains that agree at one height agree below it. */
  lemma LinesMeet(s: Store, a: Block, b: Block, i: nat)
    requires Closed(s) && Linked(s, a) && Linked(s, b) && i < a.height && i < b.height
    requires Line(s, a)[i] == Line(s, b)[i]
    ensures Line(s, a)[..i + 1] == Line(s, b)[..i + 1]
  {
    LineInner(s, a, i);
    LineInner(s, b, i);
  }

  /** Storing more blocks leaves chains as they are. */
  lemma {:induction false} LineGrows(s: Store, t: Store, b: Block)
    requires Closed(s) && Closed(t) && Linked(s, b) && forall h :: h in s ==> h in t && t[h] == s[h]
    ensures Linked(t, b) && Line(t, b) == Line(s, b)
    decreases b.height
  {
    if b.hash != GENESIS {
      LineGrows(s, t, s[b.parentHash]);
    }
  }

  ghost predicate OnLine(s: Store, a: Block, b: Block)
    requires Closed(s) && Linked(s, b)
  {
    1 <= a.height <= b.height && Line(s, b)[a.height - 1] == a
  }

  lemma OnLineExact(s: Store, a: Block, b: Block)
    requires Closed(s) && Linked(s, b)
    ensures OnLine(s, a, b) <==> a in Line(s, b)
  {
    if a in Line(s, b) {
      var i :| 0 <= i < b.height && Line(s, b)[i] == a;
    }
  }

  lemma OnLineTransitive(s: Store, a: Block, b: Block, c: Block)
    requires Closed(s) && Linked(s, b) && Linked(s, c) && OnLine(s, a, b) && OnLine(s, b, c)
    ensures OnLine(s, a, c)
  {
    LineInner(s, c, b.height - 1);
  }

  /** `a` is on both chains and the chains differ everywhere above it. */
  ghost predicate Fork(s: Store, a: Block, x: Block, y: Block)
    requires Closed(s) && Linked(s, x) && Linked(s, y)
  {
    OnLine(s, a, x) && OnLine(s, a, y) && ApartAbove(s, x, y, a.height)
  }

  /** The fork point is the highest common ancestor. */
  lemma ForkIsHighest(s: Store, a: Block, x: Block, y: Block, c: Block)
    requires Closed(s) && Linked(s, x) && Linked(s, y) && Fork(s, a, x, y)
    ensures Linked(s, a) && (OnLine(s, c, x) && OnLine(s, c, y) <==> OnLine(s, c, a))
  {
    hide Closed, Linked, Line;
    LineInner(s, x, a.height - 1);
    LinesMeet(s, x, y, a.height - 1);
  }

  /** What a walk from `b` starts at: `b` itself when stored, else its parent. */
  predicate HasBase(s: Store, b: Block)
  {
    b.hash in s || b.parentHash in s
  }

  function Base(s: Store, b: Block): Block
    requires HasBase(s, b)
  {
    if b.hash in s then s[b.hash] else s[b.parentHash]
  }

  /** The height index is the chain of `tail`. */
  ghost predicate Indexed(index: map<nat, Hash>, s: Store, tail: Block)
    requires Closed(s) && Linked(s, tail)
  {
    0 !in index && forall h :: 1 <= h <= tail.height ==> h in index && index[h] == Line(s, tail)[h - 1].hash
  }

  /** `index` is `was` with the chain of `to` entered above height `low`. */
  ghost predicate Rebuilt(index: map<nat, Hash>, was: map<nat, Hash>, s: Store, low: nat, to: Block)
    requires Closed(s) && Linked(s, to)
  {
    (forall h :: low < h <= to.height ==> h in index && index[h] == Line(s, to)[h - 1].hash) &&
    forall h :: !(low < h <= to.height) ==> (h in index <==> h in was) && (h in index ==> index[h] == was[h])
  }

  lemma RebuiltLower(index: map<nat, Hash>, was: map<nat, Hash>, s: Store, low: nat, to: Block)
    requires Closed(s) && Linked(s, to) && Rebuilt(index, was, s, low, to) && 0 < low <= to.height
    ensures Rebuilt(index[low := Line(s, to)[low - 1].hash], was, s, low - 1, to)
  {
    hide Closed, Linked, Line;
  }

  lemma RebuiltNone(index: map<nat, Hash>, s: Store, to: Block)
    requires Closed(s) && Linked(s, to)
    ensures Rebuilt(index, index, s, to.height, to)
  {
  }

  lemma IndexJoined(index: map<nat, Hash>, was: map<nat, Hash>, s: Store, tail: Block, newTail: Block, ancestor: Block)
    requires Closed(s) && Linked(s, tail) && Linked(s, newTail)
    requires OnLine(s, ancestor, tail) && OnLine(s, ancestor, newTail)
    requires Indexed(was, s, tail) && Rebuilt(index, was, s, ancestor.height, newTail)
    ensures Indexed(index, s, newTail)
  {
    hide Closed, Linked, Line;
    LinesMeet(s, tail, newTail, ancestor.height - 1);
    forall h | 1 <= h <= ancestor.height ensures h in index && index[h] == Line(s, newTail)[h - 1].hash {
      assert Line(s, tail)[..ancestor.height][h - 1] == Line(s, newTail)[..ancestor.height][h - 1];
    }
  }

  /** The two chains differ at every height above `h`. */
  ghost predicate ApartAbove(s: Store, x: Block, y: Block, h: nat)
    requires Closed(s) && Linked(s, x) && Linked(s, y)
  {
    forall i :: h <= i < x.height && i < y.height ==> Line(s, x)[i] != Line(s, y)[i]
  }

  lemma ApartLower(s: Store, x: Block, y: Block, h: nat)
    requires Closed(s) && Linked(s, x) && Linked(s, y) && ApartAbove(s, x, y, h) && 0 < h <= x.height && h <= y.height
    requires Line(s, x)[h - 1] != Line(s, y)[h - 1]
    ensures ApartAbove(s, x, y, h - 1)
  {
    hide Closed, Linked, Line;
  }

  lemma ApartAtTop(s: Store, x: Block, y: Block, h: nat)
    requires Closed(s) && Linked(s, x) && Linked(s, y) && (h >= x.height || h >= y.height)
    ensures ApartAbove(s, x, y, h)
  {
  }

  // --- runs ---------------------------------------------------------------------------------

  datatype Snapshot = Snapshot(blocks: Store, tail: Block, lib: Block)

  ghost predicate Good(c: Snapshot)
  {
    Closed(c.blocks) && Linked(c.blocks, c.tail) && OnLine(c.blocks, c.lib, c.tail)
  }

  ghost predicate Extends(s: Store, t: Store)
  {
    forall h :: h in s ==> h in t && t[h] == s[h]
  }

  /** One step: blocks are stored, or the tail changes, or the LIB moves up the canonical chain. */
  ghost predicate Step(c: Snapshot, d: Snapshot)
  {
    Good(c) && Good(d) && Extends(c.blocks, d.blocks) &&
    (d.lib == c.lib || (d.blocks == c.blocks && d.tail == c.tail && c.lib.height < d.lib.height))
  }

  lemma OneStep(c: Snapshot, d: Snapshot)
    requires Step(c, d)
    ensures Linked(d.blocks, d.lib) && OnLine(d.blocks, c.lib, d.lib)
  {
    hide Closed, Linked, Line;
    LineInner(d.blocks, d.tail, d.lib.height - 1);
  }

  ghost predicate IsRun(run: seq<Snapshot>)
  {
    forall i :: 0 <= i < |run| - 1 ==> Step(run[i], run[i + 1])
  }

  /** A block that was ever irreversible is on the canonical chain ever after, and under every later LIB. */
  lemma {:induction false} Finality(run: seq<Snapshot>, i: nat, j: nat)
    requires IsRun(run) && i <= j < |run| && Good(run[i])
    ensures Good(run[j]) && Linked(run[j].blocks, run[j].lib)
    ensures OnLine(run[j].blocks, run[i].lib, run[j].lib) && OnLine(run[j].blocks, run[i].lib, run[j].tail)
    decreases j - i
  {
    hide Closed, Linked, Line;
    if i == j {
      LineInner(run[j].blocks, run[j].tail, run[j].lib.height - 1);
    } else {
      var c, d := run[j - 1], run[j];
      Finality(run, i, j - 1);
      assert Step(run[j - 1], run[j - 1 + 1]);
      OneStep(c, d);
      LineGrows(c.blocks, d.blocks, c.lib);
      OnLineTransitive(d.blocks, run[i].lib, c.lib, d.lib);
      OnLineTransitive(d.blocks, run[i].lib, d.lib, d.tail);
    }
  }

  class BlockChain {
    var blocks: Store
    var index: map<nat, Hash>
    var tailBlock: Block
    var lib: Block
    var detachedTailBlocks: map<Hash, Block>

    ghost predicate Valid()
      reads this
    {
      Closed(blocks) && Linked(blocks, tailBlock) && Known(blocks, tailBlock) && OnLine(blocks, lib, tailBlock) &&
      Indexed(index, blocks, tailBlock) &&
      forall h :: h in detachedTailBlocks ==> detachedTailBlocks[h].hash == h && h in blocks && blocks[h] == detachedTailBlocks[h]
    }

    ghost function Now(): Snapshot
      reads this
    {
      Snapshot(blocks, tailBlock, lib)
    }

    /** A chain holding only the genesis block. */
    constructor (genesis: Block)
      requires genesis.hash == GENESIS && genesis.height == 1
      ensures Valid() && tailBlock == lib == genesis && blocks == map[GENESIS := genesis] && detachedTailBlocks == map[]
    {
      blocks, index := map[GENESIS := genesis], map[1 := GENESIS];
      tailBlock, lib, detachedTailBlocks := genesis, genesis, map[];
    }

    function GetBlock(hash: Hash): (r: Option<Block>)
      reads this
      ensures r.Some? <==> hash in blocks
    {
      if hash in blocks then Some(blocks[hash]) else None
    }

    /** The block of that height on the canonical chain; nothing above the tail. */
    method GetBlockOnCanonicalChainByHeight(height: nat) returns (r: Option<Block>)
      requires Valid()
      ensures 1 <= height < tailBlock.height ==> r == Some(Line(blocks, tailBlock)[height - 1])
      ensures height == tailBlock.height ==> r == if tailBlock.hash in blocks then Some(tailBlock) else None
      ensures height == 0 || height > tailBlock.height ==> r == None
    {
      if height > tailBlock.height || height !in index { return None; }
      LineInner(blocks, tailBlock, height - 1);
      return GetBlock(index[height]);
    }

    method FindCommonAncestorWithTail(block: Option<Block>) returns (r: Result<Block>)
      requires Valid()
      ensures block.None? ==> r == Err(NilArgument)
      ensures block.Some? && !HasBase(blocks, block.value) ==> r == Err(MissingParentBlock)
      ensures block.Some? && HasBase(blocks, block.value) ==>
                r.Ok? && Linked(blocks, Base(blocks, block.value)) && Fork(blocks, r.value, tailBlock, Base(blocks, block.value))
    {
      hide Closed, Linked, Line, Known, Indexed;
      if block.None? { return Err(NilArgument); }
      var found := GetBlock(block.value.hash);
      if found.None? { found := GetBlock(block.value.parentHash); }
      if found.None? { return Err(MissingParentBlock); }
      var target := found.value;
      ghost var base := target;
      StoredLinked(blocks, if block.value.hash in blocks then block.value.hash else block.value.parentHash);
      var tail := tailBlock;
      if tail.height > target.height {
        var onChain := GetBlockOnCanonicalChainByHeight(target.height);
        if onChain.None? { return Err(MissingParentBlock); }
        tail := onChain.value;
      }
      while tail.height < target.height
        invariant OnLine(blocks, tail, tailBlock) && OnLine(blocks, target, base) && tail.height <= target.height
        invariant tail.height == tailBlock.height || tail.height == target.height == base.height
      {
        LineParent(blocks, base, target.height - 1);
        var parent := GetBlock(target.parentHash);
        if parent.None? { return Err(MissingParentBlock); }
        target := parent.value;
      }
      r := DescendTogether(tail, target, base);
    }

    /** Walks two chains down in step, from equal heights, to the block they share. */
    method DescendTogether(start: Block, other: Block, ghost base: Block) returns (r: Result<Block>)
      requires Valid() && base.hash in blocks && Linked(blocks, base) && Known(blocks, base)
      requires OnLine(blocks, start, tailBlock) && OnLine(blocks, other, base) && start.height == other.height
      requires start.height == tailBlock.height || start.height == base.height
      ensures r.Ok? && Fork(blocks, r.value, tailBlock, base)
    {
      hide Closed, Linked, Line, Known, Indexed, ApartAbove;
      var tail, target := start, other;
      ApartAtTop(blocks, tailBlock, base, tail.height);
      SameHash(blocks, tailBlock, base, tail.height - 1);
      while tail.hash != target.hash
        invariant OnLine(blocks, tail, tailBlock) && OnLine(blocks, target, base) && tail.height == target.height
        invariant ApartAbove(blocks, tailBlock, base, tail.height)
        invariant tail.hash == target.hash ==> tail == target
        invariant tail.height == 1 ==> tail.hash == target.hash
        decreases tail.height
      {
        ApartLower(blocks, tailBlock, base, tail.height);
        LineParent(blocks, tailBlock, tail.height - 1);
        LineParent(blocks, base, tail.height - 1);
        var p, q := GetBlock(tail.parentHash), GetBlock(target.parentHash);
        if p.None? || q.None? { return Err(MissingParentBlock); }
        tail, target := p.value, q.value;
        SameHash(blocks, tailBlock, base, tail.height - 1);
      }
      return Ok(target);
    }

    /** Walks the old chain down to `from`; fails exactly when that would remove the LIB. */
    method RevertBlocks(from: Block, to: Block) returns (err: Option<Error>, reverted: seq<Block>)
      requires Valid() && Linked(blocks, to) && Known(blocks, to) && OnLine(blocks, from, to) && OnLine(blocks, lib, to)
      ensures err == if lib.height > from.height then Some(CannotRevertLIB) else None
      ensures err == None ==>
                |reverted| == to.height - from.height &&
                forall k :: 0 <= k < |reverted| ==> reverted[k] == Line(blocks, to)[to.height - 1 - k]
    {
      hide Closed, Linked, Line, Known, Indexed;
      var b := to;
      reverted := [];
      while b.hash != from.hash
        invariant OnLine(blocks, b, to) && from.height <= b.height && (lib.height > from.height ==> lib.height <= b.height)
        invariant |reverted| == to.height - b.height && forall k :: 0 <= k < |reverted| ==> reverted[k] == Line(blocks, to)[to.height - 1 - k]
        decreases b.height
      {
        if b.hash == lib.hash {
          LineHashes(blocks, to, b.height - 1, lib.height - 1);
          return Some(CannotRevertLIB), reverted;
        }
        reverted := reverted + [b];
        LineParent(blocks, to, b.height - 1);
        var parent := GetBlock(b.parentHash);
        if parent.None? { return Some(MissingParentBlock), reverted; }
        b := parent.value;
      }
      LineHashes(blocks, to, b.height - 1, from.height - 1);
      return None, reverted;
    }

    /** Enters the new chain's hashes by height, above `from`. */
    method BuildIndexByBlockHeight(from: Block, to: Block) returns (err: Option<Error>)
      requires Closed(blocks) && Linked(blocks, to) && Known(blocks, to) && OnLine(blocks, from, to)
      modifies `index
      ensures err == None
      ensures Rebuilt(index, old(index), blocks, from.height, to)
    {
      hide Closed, Linked, Line, Known, Rebuilt;
      var b := to;
      RebuiltNone(index, blocks, to);
      while b.hash != from.hash
        invariant OnLine(blocks, b, to) && from.height <= b.height
        invariant Rebuilt(index, old(index), blocks, b.height, to)
        decreases b.height
      {
        RebuiltLower(index, old(index), blocks, b.height, to);
        index := index[b.height := b.hash];
        LineParent(blocks, to, b.height - 1);
        var parent := GetBlock(b.parentHash);
        if parent.None? { return Some(MissingParentBlock); }
        b := parent.value;
      }
      LineHashes(blocks, to, b.height - 1, from.height - 1);
      return None;
    }

    /** Succeeds exactly when the new tail's stored chain holds the LIB; a failure changes nothing. */
    method SetTailBlock(newTail: Option<Block>) returns (err: Option<Error>)
      requires Valid() && (newTail.Some? && HasBase(blocks, newTail.value) ==> Linked(blocks, newTail.value) && Known(blocks, newTail.value))
      modifies `index, `tailBlock
      ensures Valid() && Step(old(Now()), Now())
      ensures err == if newTail.None? then Some(NilArgument)
                     else if !HasBase(blocks, newTail.value) then Some(MissingParentBlock)
                     else if lib in Line(blocks, Base(blocks, newTail.value)) then None
                     else Some(CannotRevertLIB)
      ensures err == None ==> tailBlock == newTail.value
      ensures err != None ==> tailBlock == old(tailBlock) && index == old(index)
    {
      hide Closed, Linked, Line, Known, Fork, Indexed, Rebuilt;
      var r := FindCommonAncestorWithTail(newTail);
      if r.Err? { return Some(r.error); }
      var ancestor := r.value;
      ghost var base := Base(blocks, newTail.value);
      LibUnderFork(blocks, ancestor, tailBlock, base, lib);
      var e, _ := RevertBlocks(ancestor, tailBlock);
      if e.Some? { return e; }
      BaseOnLine(blocks, newTail.value);
      OnLineTransitive(blocks, ancestor, base, newTail.value);
      OnLineTransitive(blocks, lib, base, newTail.value);
      e := BuildIndexByBlockHeight(ancestor, newTail.value);
      IndexJoined(index, old(index), blocks, tailBlock, newTail.value, ancestor);
      tailBlock := newTail.value;
      return None;
    }

    /** Stores verified blocks below a stored parent and keeps the ends of the new branches as candidates. */
    method PutVerifiedNewBlocks(parent: Block, allBlocks: seq<Block>, tailBlocks: seq<Block>)
      requires Valid() && Linking(blocks, allBlocks) && forall b :: b in tailBlocks ==> b in allBlocks
      requires forall b :: b in allBlocks ==> b.hash != tailBlock.hash || b == tailBlock
      modifies `blocks, `detachedTailBlocks
      ensures Valid() && Step(old(Now()), Now())
      ensures blocks == Stored(old(blocks), allBlocks)
      ensures Closed(old(blocks)) && forall b :: Linked(old(blocks), b) ==> Linked(blocks, b) && Line(blocks, b) == Line(old(blocks), b)
      ensures detachedTailBlocks == Stored(old(detachedTailBlocks), tailBlocks) - {parent.hash}
    {
      hide Closed, Linked, Line, Known, Linking;
      ghost var was := blocks;
      for i := 0 to |allBlocks|
        modifies `blocks
        invariant blocks == Stored(was, allBlocks[..i])
      {
        blocks := blocks[allBlocks[i].hash := allBlocks[i]];
        StoredMore(was, allBlocks, i);
      }
      assert allBlocks[..|allBlocks|] == allBlocks;
      for i := 0 to |tailBlocks|
        modifies `detachedTailBlocks
        invariant detachedTailBlocks == Stored(old(detachedTailBlocks), tailBlocks[..i])
      {
        detachedTailBlocks := detachedTailBlocks[tailBlocks[i].hash := tailBlocks[i]];
        StoredMore(old(detachedTailBlocks), tailBlocks, i);
      }
      assert tailBlocks[..|tailBlocks|] == tailBlocks;
      detachedTailBlocks := detachedTailBlocks - {parent.hash};
      StoredClosed(was, allBlocks);
      LinesGrow(was, blocks);
      StoredKnown(was, allBlocks, tailBlock);
      ghost var all := Stored(old(detachedTailBlocks), tailBlocks);
      forall h | h in all ensures all[h].hash == h && h in blocks && blocks[h] == all[h] {
        StoredOrigin(old(detachedTailBlocks), tailBlocks, h);
        if all[h] in tailBlocks { StoredMember(was, allBlocks, all[h]); }
      }
    }
  }

  lemma {:induction false} StoredOrigin(s: Store, bs: seq<Block>, h: Hash)
    requires h in Stored(s, bs)
    ensures (Stored(s, bs)[h] in bs && Stored(s, bs)[h].hash == h) || (h in s && Stored(s, bs)[h] == s[h])
    decreases |bs|
  {
    if bs != [] && h != bs[|bs| - 1].hash { StoredOrigin(s, bs[..|bs| - 1], h); }
  }

  lemma StoredLinked(s: Store, h: Hash)
    requires Closed(s) && h in s
    ensures s[h].hash == h && s[h].height >= 1 && Linked(s, s[h]) && Known(s, s[h])
  {
  }

  lemma SameHash(s: Store, x: Block, y: Block, i: nat)
    requires Closed(s) && Linked(s, x) && Known(s, x) && Linked(s, y) && Known(s, y) && y.hash in s && i < x.height && i < y.height
    ensures Line(s, x)[i].hash == Line(s, y)[i].hash ==> Line(s, x)[i] == Line(s, y)[i]
    ensures i == 0 ==> Line(s, x)[i].hash == Line(s, y)[i].hash
  {
    LineInner(s, x, i);
    LineInner(s, y, i);
  }

  lemma BaseOnLine(s: Store, b: Block)
    requires Closed(s) && Linked(s, b) && Known(s, b) && HasBase(s, b)
    ensures Linked(s, Base(s, b)) && OnLine(s, Base(s, b), b)
  {
  }

  /** A block of one chain is at or below the fork exactly when it is on the other chain too. */
  lemma LibUnderFork(s: Store, a: Block, x: Block, y: Block, lib: Block)
    requires Closed(s) && Linked(s, x) && Linked(s, y) && Fork(s, a, x, y) && OnLine(s, lib, x)
    ensures OnLine(s, a, x) && OnLine(s, a, y) && (lib.height <= a.height <==> lib in Line(s, y))
    ensures lib.height <= a.height ==> OnLine(s, lib, y)
  {
    hide Closed, Linked, Line;
    OnLineExact(s, lib, y);
    LinesMeet(s, x, y, a.height - 1);
    if lib.height <= a.height {
      assert Line(s, x)[..a.height][lib.height - 1] == Line(s, y)[..a.height][lib.height - 1];
    }
  }

  // --- storing verified blocks ------------------------------------------------------------

  function Stored(s: Store, bs: seq<Block>): Store
  {
    if bs == [] then s else Stored(s, bs[..|bs| - 1])[bs[|bs| - 1].hash := bs[|bs| - 1]]
  }

  /** Each block is linked to the blocks stored before it, and a hash names one block. */
  ghost predicate Linking(s: Store, bs: seq<Block>)
  {
    forall i :: 0 <= i < |bs| ==> Linked(Stored(s, bs[..i]), bs[i]) && Known(Stored(s, bs[..i]), bs[i])
  }

  lemma StoredMore(s: Store, bs: seq<Block>, i: nat)
    requires i < |bs|
    ensures Stored(s, bs[..i + 1]) == Stored(s, bs[..i])[bs[i].hash := bs[i]]
  {
    assert bs[..i + 1][..i] == bs[..i];
  }

  lemma LinkingPrefix(s: Store, bs: seq<Block>)
    requires Linking(s, bs) && bs != []
    ensures Linking(s, bs[..|bs| - 1])
    ensures Linked(Stored(s, bs[..|bs| - 1]), bs[|bs| - 1]) && Known(Stored(s, bs[..|bs| - 1]), bs[|bs| - 1])
  {
    var cs := bs[..|bs| - 1];
    forall i | 0 <= i < |cs| ensures Linked(Stored(s, cs[..i]), cs[i]) && Known(Stored(s, cs[..i]), cs[i]) {
      assert cs[..i] == bs[..i];
    }
  }

  lemma {:induction false} StoredClosed(s: Store, bs: seq<Block>)
    requires Closed(s) && Linking(s, bs)
    ensures Closed(Stored(s, bs)) && forall h :: h in s ==> h in Stored(s, bs) && Stored(s, bs)[h] == s[h]
    decreases |bs|
  {
    if bs != [] {
      LinkingPrefix(s, bs);
      StoredClosed(s, bs[..|bs| - 1]);
      OneMoreClosed(Stored(s, bs[..|bs| - 1]), bs[|bs| - 1]);
    }
  }

  lemma OneMoreClosed(s: Store, b: Block)
    requires Closed(s) && Linked(s, b) && Known(s, b)
    ensures Closed(s[b.hash := b])
  {
  }

  lemma LinesGrow(s: Store, t: Store)
    requires Closed(s) && Closed(t) && forall h :: h in s ==> h in t && t[h] == s[h]
    ensures forall b :: Linked(s, b) ==> Linked(t, b) && Line(t, b) == Line(s, b)
  {
    forall b | Linked(s, b) ensures Linked(t, b) && Line(t, b) == Line(s, b) { LineGrows(s, t, b); }
  }

  lemma {:induction false} StoredMember(s: Store, bs: seq<Block>, b: Block)
    requires Closed(s) && Linking(s, bs) && b in bs
    ensures b.hash in Stored(s, bs) && Stored(s, bs)[b.hash] == b
    decreases |bs|
  {
    LinkingPrefix(s, bs);
    if b != bs[|bs| - 1] { StoredMember(s, bs[..|bs| - 1], b); }
  }

  lemma {:induction false} StoredKnown(s: Store, bs: seq<Block>, b: Block)
    requires Known(s, b) && forall c :: c in bs ==> c.hash != b.hash || c == b
    ensures Known(Stored(s, bs), b)
    decreases |bs|
  {
    if bs != [] { StoredKnown(s, bs[..|bs| - 1], b); }
  }
}
