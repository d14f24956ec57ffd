/** Minting slots and the proposer of a slot. Times are whole seconds, durations milliseconds. */
module Slots {
  import opened Prelude
  import opened Dpos

  datatype Error = BlockMintedInNextSlot | WaitingBlockInLastSlot | NotBlockForgTime | FoundNilProposer |
                   GenerateNextConsensusState | InvalidBlockProposer | InvalidBlockTimestamp | InvalidBlockInterval
  datatype Result<T> = Ok(value: T) | Err(error: Error)

  // --- slots ------------------------------------------------------------------------------

  function LastSlot(nowInMs: int): int
  {
    Quo(nowInMs - SECOND_IN_MS, BLOCK_INTERVAL_IN_MS) * BLOCK_INTERVAL_IN_MS
  }

  function NextSlot(nowInMs: int): int
  {
    Quo(nowInMs + BLOCK_INTERVAL_IN_MS - SECOND_IN_MS, BLOCK_INTERVAL_IN_MS) * BLOCK_INTERVAL_IN_MS
  }

  ghost predicate LeastSlotFrom(slot: int, nowInMs: int)
  {
    slot % BLOCK_INTERVAL_IN_MS == 0 && nowInMs <= slot && slot - nowInMs < BLOCK_INTERVAL_IN_MS
  }

  /** A slot within one interval is the least one. */
  lemma LeastSlotIsLeast(slot: int, nowInMs: int, other: int)
    requires LeastSlotFrom(slot, nowInMs) && other % BLOCK_INTERVAL_IN_MS == 0 && nowInMs <= other
    ensures slot <= other
  {
  }

  /** The next slot is the least one not before now at every time from fourteen seconds before the epoch on,
      and before that only where the rounding has nothing to round. */
  lemma NextSlotExact(t: int)
    ensures LeastSlotFrom(NextSlot(t * SECOND_IN_MS), t * SECOND_IN_MS) <==> t >= -14 || (t + 14) % 15 == 0
  {
    hide NextSlot, Quo;
    NextSlotSeconds(t);
    QuoBounds(t + 14);
    Shift(0, Quo(t + 14, 15), 15000);
  }

  lemma QuoScaled(a: int)
    ensures Quo(a * 1000, 15000) == Quo(a, 15)
  {
  }

  lemma NextSlotSeconds(t: int)
    ensures NextSlot(t * SECOND_IN_MS) == Quo(t + 14, 15) * 15000
  {
    QuoScaled(t + 14);
  }

  /** Rounding toward zero: down from zero on, up below it. */
  lemma QuoBounds(a: int)
    ensures a >= 0 ==> a - 15 < Quo(a, 15) * 15 <= a
    ensures a < 0 ==> a <= Quo(a, 15) * 15 < a + 15 && (Quo(a, 15) * 15 == a <==> a % 15 == 0)
  {
  }

  /** The last slot is one interval before the next one except in the fourteen seconds up to the epoch. */
  lemma LastSlotExact(t: int)
    ensures LastSlot(t * SECOND_IN_MS) == NextSlot(t * SECOND_IN_MS) - BLOCK_INTERVAL_IN_MS <==> !(-13 <= t <= 0)
  {
  }

  function Deadline(nowInMs: int): int
  {
    var remainInMs := NextSlot(nowInMs) - nowInMs;
    if MAX_MINT_DURATION_IN_MS > remainInMs then NextSlot(nowInMs) else nowInMs + MAX_MINT_DURATION_IN_MS
  }

  /** Minting ends by the slot, and within the longest minting time. */
  lemma DeadlineBounds(t: int)
    requires t >= -14
    ensures t * SECOND_IN_MS <= Deadline(t * SECOND_IN_MS) <= NextSlot(t * SECOND_IN_MS)
    ensures Deadline(t * SECOND_IN_MS) <= t * SECOND_IN_MS + MAX_MINT_DURATION_IN_MS
  {
  }

  function CheckDeadline(tailTimestamp: int, nowInMs: int): Result<int>
  {
    if tailTimestamp * SECOND_IN_MS >= NextSlot(nowInMs) then Err(BlockMintedInNextSlot)
    else if tailTimestamp * SECOND_IN_MS == LastSlot(nowInMs) then Ok(Deadline(nowInMs))
    else if NextSlot(nowInMs) - nowInMs <= MIN_MINT_DURATION_IN_MS then Ok(Deadline(nowInMs))
    else Err(WaitingBlockInLastSlot)
  }

  // --- proposers --------------------------------------------------------------------------

  function FindProposer(now: int, miners: seq<nat>): Result<nat>
  {
    var offsetInMs := Rem(now * SECOND_IN_MS, DYNASTY_INTERVAL_IN_MS);
    if Rem(offsetInMs, BLOCK_INTERVAL_IN_MS) != 0 then Err(NotBlockForgTime)
    else
      var offset := Rem(Quo(offsetInMs, BLOCK_INTERVAL_IN_MS), DYNASTY_SIZE);
      if 0 <= offset < |miners| then Ok(miners[offset]) else Err(FoundNilProposer)
  }

  lemma Scaled(a: int, b: int, c: int)
    requires a >= 0 && b > 0 && c > 0
    ensures (a * c) / (b * c) == a / b && (a * c) % (b * c) == (a % b) * c
  {
    var q, r := a / b, a % b;
    assert a == q * b + r;
    assert a * c == q * (b * c) + r * c;
    assert 0 <= r * c < b * c;
    DivisionUnique(q * (b * c) + r * c, q, r * c, b * c);
  }

  /** From the epoch on, the proposer of a slot is the miner numbered by the slot modulo the dynasty's size,
      across dynasty boundaries too; between slots there is none. */
  lemma ProposerExact(t: int, miners: seq<nat>)
    requires t >= 0
    ensures FindProposer(t, miners) ==
            if t % 15 != 0 then Err(NotBlockForgTime)
            else if (t / 15) % 21 < |miners| then Ok(miners[(t / 15) % 21])
            else Err(FoundNilProposer)
  {
    Scaled(t, 3150, 1000);
    var s := t % 3150;
    assert Rem(t * 1000, 3150000) == s * 1000;
    Scaled(s, 15, 1000);
    assert Rem(s * 1000, 15000) == (s % 15) * 1000;
    assert s % 15 == t % 15 by { assert t == (t / 3150) * 3150 + s; Shift(s, t / 3150 * 210, 15); }
    assert Quo(s * 1000, 15000) == s / 15;
    assert (s / 15) % 21 == (t / 15) % 21 by {
      Shift(s, t / 3150 * 210, 15);
      assert t / 15 == s / 15 + t / 3150 * 210;
      Shift(s / 15, t / 3150 * 10, 21);
    }
  }

  /** Before the epoch only the slots that start a round of the dynasty have a proposer, the first miner. */
  lemma ProposerBeforeEpoch(t: int, miners: seq<nat>)
    requires t < 0
    ensures FindProposer(t, miners) ==
            if t % 15 != 0 then Err(NotBlockForgTime)
            else if t % 315 == 0 && |miners| > 0 then Ok(miners[0])
            else Err(FoundNilProposer)
  {
    var u := -t;
    var s := u % 3150;
    Scaled(u, 3150, 1000);
    assert Rem(t * 1000, 3150000) == -(s * 1000) by { RemNegative(u * 1000, 3150000); }
    Scaled(s, 15, 1000);
    assert Rem(-(s * 1000), 15000) == -((s % 15) * 1000) && Quo(-(s * 1000), 15000) == -(s / 15) by { RemNegative(s * 1000, 15000); }
    Shift(s, u / 3150 * 210, 15);
    Shift(s / 15, u / 3150 * 10, 21);
    assert u / 15 == s / 15 + u / 3150 * 210 && s % 15 == u % 15;
    RemNegative(s / 15, 21);
    Rounds(u);
  }

  lemma RemNegative(a: nat, d: int)
    requires d > 0
    ensures Quo(-(a as int), d) == -(a / d) && Rem(-(a as int), d) == -(a % d)
  {
    if a == 0 { DivisionUnique(0, 0, 0, d); }
    assert a == (a / d) * d + a % d;
  }

  lemma Rounds(u: nat)
    ensures (u % 15 == 0 <==> (-(u as int)) % 15 == 0)
    ensures u % 15 == 0 ==> ((u / 15) % 21 == 0 <==> (-(u as int)) % 315 == 0)
  {
    var k := u / 15;
    NegativeMultiple(u, 15);
    NegativeMultiple(u, 315);
    if u % 15 == 0 { DivisionUnique(k / 21 * 315 + 15 * (k % 21), k / 21, 15 * (k % 21), 315); }
  }

  lemma NegativeMultiple(u: nat, d: int)
    requires d > 0
    ensures (-(u as int)) % d == 0 <==> u % d == 0
  {
    var q, r := u / d, u % d;
    assert u == q * d + r;
    if r == 0 { DivisionUnique((-q) * d, -q, 0, d); assert -(u as int) == (-q) * d; } else { DivisionUnique((-q - 1) * d + (d - r), -q - 1, d - r, d); assert -(u as int) == (-q - 1) * d + (d - r); }
  }

  lemma Shift(a: int, k: int, d: int)
    requires d > 0
    ensures (a + k * d) / d == a / d + k && (a + k * d) % d == a % d
  {
    assert a == (a / d) * d + a % d;
    assert a + k * d == (a / d + k) * d + a % d;
    DivisionUnique((a / d + k) * d + a % d, a / d + k, a % d, d);
  }

  /** The proposer of the `j`-th slot after slot number `slot`. */
  function ProposerAt(slot: nat, j: nat, miners: seq<nat>): Result<nat>
  {
    FindProposer((slot + j) * 15, miners)
  }

  lemma ProposerAtTurn(slot: nat, j: nat, miners: seq<nat>)
    requires |miners| == DYNASTY_SIZE
    ensures ProposerAt(slot, j, miners) == Ok(miners[(slot + j) % 21])
  {
    ProposerExact((slot + j) * 15, miners);
    Shift(0, slot + j, 15);
  }

  lemma TurnOf(slot: nat, j: nat, m: nat)
    requires j < 21 && m < 21
    ensures (slot + j) % 21 == m <==> j == (m - slot) % 21
  {
  }

  /** Over any 21 consecutive slots of a full dynasty each miner proposes exactly once. */
  lemma EachMinerOnce(slot: nat, miners: seq<nat>, m: nat)
    requires |miners| == DYNASTY_SIZE && m < DYNASTY_SIZE
    requires forall x, y :: 0 <= x < y < |miners| ==> miners[x] != miners[y]
    ensures exists j: nat :: j < 21 && ProposerAt(slot, j, miners) == Ok(miners[m]) &&
              forall k: nat :: k < 21 && ProposerAt(slot, k, miners) == Ok(miners[m]) ==> k == j
  {
    hide ProposerAt;
    var j: nat := (m - slot) % 21;
    forall k: nat | k < 21 ensures ProposerAt(slot, k, miners) == Ok(miners[m]) <==> k == j {
      ProposerAtTurn(slot, k, miners);
      TurnOf(slot, k, m);
    }
    assert ProposerAt(slot, j, miners) == Ok(miners[m]);
  }

  // --- minting a block and verifying it -------------------------------------------------------

  datatype ConsensusState = ConsensusState(timestamp: int, proposer: nat)

  /** The state `elapsedSecond` after a state with that timestamp; the dynasty carries over. */
  function NextConsensusState(timestamp: int, miners: seq<nat>, elapsedSecond: int): Result<ConsensusState>
  {
    var elapsedSecondInMs := elapsedSecond * SECOND_IN_MS;
    if elapsedSecondInMs <= 0 || Rem(elapsedSecondInMs, BLOCK_INTERVAL_IN_MS) != 0 then Err(NotBlockForgTime)
    else
      var proposer := FindProposer(timestamp + elapsedSecond, miners);
      if proposer.Err? then Err(proposer.error) else Ok(ConsensusState(timestamp + elapsedSecond, proposer.value))
  }

  function CheckProposer(tailTimestamp: int, miners: seq<nat>, nowInMs: int, miner: nat): Result<ConsensusState>
  {
    var elapsedInMs := NextSlot(nowInMs) - tailTimestamp * SECOND_IN_MS;
    var state := NextConsensusState(tailTimestamp, miners, Quo(elapsedInMs, SECOND_IN_MS));
    if state.Err? then Err(GenerateNextConsensusState)
    else if state.value.proposer != miner then Err(InvalidBlockProposer)
    else state
  }

  /** A block's timestamp, the timestamp in its consensus root, and who signed it. */
  datatype Signed = Signed(timestamp: int, rootTimestamp: int, signer: nat)

  /** The rules a received block has to meet, in the order they are checked. */
  function VerifyBlock(miners: seq<nat>, block: Signed): Result<()>
  {
    var elapsedSecondInMs := block.timestamp * SECOND_IN_MS;
    if block.timestamp != block.rootTimestamp then Err(InvalidBlockTimestamp)
    else if elapsedSecondInMs <= 0 || Rem(elapsedSecondInMs, BLOCK_INTERVAL_IN_MS) != 0 then Err(InvalidBlockInterval)
    else
      var proposer := FindProposer(block.timestamp, miners);
      if proposer.Err? then Err(proposer.error)
      else if proposer.value != block.signer then Err(InvalidBlockProposer)
      else Ok(())
  }

  /** A block is accepted exactly when it is stamped with a slot after the epoch and signed by that slot's miner. */
  lemma VerifyBlockExact(miners: seq<nat>, block: Signed)
    ensures VerifyBlock(miners, block).Ok? <==>
            block.timestamp == block.rootTimestamp && block.timestamp > 0 && block.timestamp % 15 == 0 &&
            (block.timestamp / 15) % 21 < |miners| && miners[(block.timestamp / 15) % 21] == block.signer
    ensures VerifyBlock(miners, block) == Err(InvalidBlockTimestamp) <==> block.timestamp != block.rootTimestamp
    ensures VerifyBlock(miners, block) == Err(InvalidBlockInterval) <==>
            block.timestamp == block.rootTimestamp && !(block.timestamp > 0 && block.timestamp % 15 == 0)
    ensures VerifyBlock(miners, block) == Err(InvalidBlockProposer) <==>
            block.timestamp == block.rootTimestamp && block.timestamp > 0 && block.timestamp % 15 == 0 &&
            (block.timestamp / 15) % 21 < |miners| && miners[(block.timestamp / 15) % 21] != block.signer
  {
    if block.timestamp > 0 {
      Scaled(block.timestamp, 15, 1000);
      ProposerExact(block.timestamp, miners);
    }
  }

  /** Who may mint: the tail is on a slot before the next one, and the next slot is the miner's. */
  lemma CheckProposerExact(tailTimestamp: nat, miners: seq<nat>, t: nat, miner: nat)
    ensures CheckProposer(tailTimestamp, miners, t * SECOND_IN_MS, miner).Ok? <==>
            var slot := NextSlot(t * SECOND_IN_MS) / SECOND_IN_MS;
            tailTimestamp < slot && tailTimestamp % 15 == 0 && (slot / 15) % 21 < |miners| && miners[(slot / 15) % 21] == miner
    ensures CheckProposer(tailTimestamp, miners, t * SECOND_IN_MS, miner) == Err(InvalidBlockProposer) <==>
            var slot := NextSlot(t * SECOND_IN_MS) / SECOND_IN_MS;
            tailTimestamp < slot && tailTimestamp % 15 == 0 && (slot / 15) % 21 < |miners| && miners[(slot / 15) % 21] != miner
    ensures CheckProposer(tailTimestamp, miners, t * SECOND_IN_MS, miner).Ok? ==>
            CheckProposer(tailTimestamp, miners, t * SECOND_IN_MS, miner).value ==
            ConsensusState(NextSlot(t * SECOND_IN_MS) / SECOND_IN_MS, miner)
  {
    hide FindProposer, NextSlot, Quo;
    var n := (t + 14) / 15;
    SlotSeconds(t);
    Shift(0, n, 15);
    var tail: int := tailTimestamp;
    var elapsed := n * 15 - tail;
    QuoExact(elapsed, 1000);
    assert NextSlot(t * SECOND_IN_MS) - tail * SECOND_IN_MS == elapsed * 1000;
    RemScaled(elapsed);
    Shift(-tail, n, 15);
    Negated(tail);
    ProposerExact(n * 15, miners);
  }

  lemma RemScaled(a: int)
    ensures a > 0 ==> (Rem(a * 1000, 15000) == 0 <==> a % 15 == 0)
  {
    if a > 0 { Scaled(a, 15, 1000); }
  }

  lemma SlotSeconds(t: nat)
    ensures NextSlot(t * SECOND_IN_MS) == (t + 14) / 15 * 15 * SECOND_IN_MS
    ensures NextSlot(t * SECOND_IN_MS) / SECOND_IN_MS == (t + 14) / 15 * 15
  {
  }

  lemma QuoExact(a: int, b: int)
    requires b > 0
    ensures Quo(a * b, b) == a
  {
    DivisionUnique(a * b, a, 0, b);
    DivisionUnique((-a) * b, -a, 0, b);
    assert -(a * b) == (-a) * b;
  }

  lemma Negated(a: int)
    ensures (-a) % 15 == 0 <==> a % 15 == 0
  {
  }

  /** A block minted by a miner that passed both checks meets every rule of the verifier, after its tail. */
  lemma MintedIsVerified(tailTimestamp: nat, miners: seq<nat>, t: nat, miner: nat)
    requires CheckDeadline(tailTimestamp, t * SECOND_IN_MS).Ok?
    requires CheckProposer(tailTimestamp, miners, t * SECOND_IN_MS, miner).Ok?
    ensures var state := CheckProposer(tailTimestamp, miners, t * SECOND_IN_MS, miner).value;
            VerifyBlock(miners, Signed(state.timestamp, state.timestamp, miner)).Ok? && tailTimestamp < state.timestamp &&
            t <= state.timestamp < t + 15
  {
    hide CheckProposer, CheckDeadline, VerifyBlock, NextSlot;
    CheckProposerExact(tailTimestamp, miners, t, miner);
    SlotSeconds(t);
    Shift(0, (t + 14) / 15, 15);
    var slot := (t + 14) / 15 * 15;
    VerifyBlockExact(miners, Signed(slot, slot, miner));
  }

  /** The whole seconds from `t` to the next multiple of fifteen. */
  function Left(t: nat): nat
  {
    (15 - t % 15) % 15
  }

  /** Fifteen seconds a slot: minting into the slot ahead is refused once it is taken, and otherwise starts when the
      slot before it is filled or two seconds are left, for what is left of the slot or five and a quarter seconds. */
  lemma CheckDeadlineExact(tailTimestamp: int, t: nat)
    requires t >= 1
    ensures CheckDeadline(tailTimestamp, t * SECOND_IN_MS) ==
            if tailTimestamp >= t + Left(t) then Err(BlockMintedInNextSlot)
            else if tailTimestamp == t + Left(t) - 15 || Left(t) <= 2 then Ok(if Left(t) <= 5 then (t + Left(t)) * 1000 else t * 1000 + 5250)
            else Err(WaitingBlockInLastSlot)
  {
    hide NextSlot, LastSlot, Left;
    SlotSeconds(t);
    LeftSeconds(t);
    LastSlotExact(t);
  }

  /** At any millisecond: minting starts once the slot before is filled, or at most 2250 ms are left. */
  lemma MintWindow(tailTimestamp: int, nowInMs: int)
    ensures CheckDeadline(tailTimestamp, nowInMs).Ok? <==>
            tailTimestamp * 1000 < NextSlot(nowInMs) && (tailTimestamp * 1000 == LastSlot(nowInMs) || NextSlot(nowInMs) - nowInMs <= 2250)
  {
  }

  lemma LeftSeconds(t: nat)
    ensures (t + 14) / 15 * 15 == t + Left(t)
  {
    var q, r := t / 15, t % 15;
    if r == 0 { assert (t + 14) / 15 == q; } else { assert (t + 14) / 15 == q + 1; }
  }
}
