/** The two scheduling drivers of server/src/submitter.rs, one step at a
    time: `run_block` turns each observed block number into a schedule key,
    skips keys the store has nothing at, drains the others and submits what
    it drained; `run_timestamp` drains the key of the current unix second on
    every tick. A submission that fails ends the driver with a panic. */
module Scheduler {
  import opened Types
  import opened Submission

  datatype StoreError = StoreError

  /** What the schedule store answers to a drain of `key`: the batch stored
      there, None when there is none, or an error for an unreadable key. */
  function DrainResult(entries: map<nat, seq<Transaction>>, unreadable: set<nat>, key: nat)
    : (r: Result<Option<seq<Transaction>>, StoreError>)
    ensures r.Err? <==> key in unreadable
    ensures r == Ok(None) <==> key !in unreadable && key !in entries
    ensures r.Ok? && r.value.Some? ==> key in entries && r.value.value == entries[key]
  {
    if key in unreadable then Err(StoreError)
    else if key in entries then Ok(Some(entries[key]))
    else Ok(None)
  }

  /** The store after a drain of `key`: the key is gone unless its read failed. */
  function AfterDrain(entries: map<nat, seq<Transaction>>, unreadable: set<nat>, key: nat)
    : (rest: map<nat, seq<Transaction>>)
    ensures rest.Keys == if key in unreadable then entries.Keys else entries.Keys - {key}
    ensures forall k :: k in rest ==> rest[k] == entries[k]
  {
    if key in unreadable then entries else entries - {key}
  }

  /** The schedule store: pending batches by key (block number or unix
      second). Its implementation is not part of this model; this class
      states what the drivers rely on, a drain that hands out and removes
      the batch at a key in one step. `unreadable` holds the keys whose read
      fails with a storage error. */
  class Database {
    var entries: map<nat, seq<Transaction>>
    const unreadable: set<nat>

    constructor (entries: map<nat, seq<Transaction>>, unreadable: set<nat>)
      ensures this.entries == entries && this.unreadable == unreadable
    {
      this.entries := entries;
      this.unreadable := unreadable;
    }

    predicate Has(key: nat)
      reads this
    {
      key in entries
    }

    method Drain(key: nat) returns (r: Result<Option<seq<Transaction>>, StoreError>)
      modifies this
      ensures r == DrainResult(old(entries), unreadable, key)
      ensures entries == AfterDrain(old(entries), unreadable, key)
    {
      r := DrainResult(entries, unreadable, key);
      entries := AfterDrain(entries, unreadable, key);
    }
  }

  /** A drained key is gone: draining it again at once finds nothing (or
      fails again when the key cannot be read). */
  lemma DrainTwice(entries: map<nat, seq<Transaction>>, unreadable: set<nat>, key: nat)
    ensures key !in unreadable ==>
      DrainResult(AfterDrain(entries, unreadable, key), unreadable, key) == Ok(None)
    ensures key in unreadable ==>
      DrainResult(AfterDrain(entries, unreadable, key), unreadable, key) == Err(StoreError)
  {
  }

  /** What one driver step hands to the submitter, and the store it leaves. */
  datatype Effect = Effect(delivered: seq<Transaction>, rest: map<nat, seq<Transaction>>)

  /** How one driver step ended. */
  datatype StepOutcome = Skipped | Submitted | NothingFound | ReadFailed | Aborted

  /** The block driver at one schedule key: nothing happens when the store
      has nothing at the key; otherwise the key is drained and a drained
      batch is submitted, while a missing batch or a read error only skips
      the block. */
  function BlockEffect(entries: map<nat, seq<Transaction>>, unreadable: set<nat>, key: nat): (e: Effect)
    ensures e.delivered == if key in entries && key !in unreadable then entries[key] else []
    ensures e.rest == AfterDrain(entries, unreadable, key)
  {
    if key !in entries then
      assert entries - {key} == entries;
      Effect([], entries)
    else
      match DrainResult(entries, unreadable, key)
      case Ok(Some(txs)) => Effect(txs, AfterDrain(entries, unreadable, key))
      case _ => Effect([], AfterDrain(entries, unreadable, key))
  }

  /** The timestamp driver at one tick: the key of the current second is
      drained without asking first, and only a drained batch is submitted. */
  function TickEffect(entries: map<nat, seq<Transaction>>, unreadable: set<nat>, now: nat): (e: Effect)
    ensures e.delivered == if now in entries && now !in unreadable then entries[now] else []
    ensures e.rest == AfterDrain(entries, unreadable, now)
  {
    match DrainResult(entries, unreadable, now)
    case Ok(Some(txs)) => Effect(txs, AfterDrain(entries, unreadable, now))
    case _ => Effect([], AfterDrain(entries, unreadable, now))
  }

  /** The existence check of the block driver changes nothing: draining a
      key unconditionally, as the timestamp driver does, delivers the same
      batch and leaves the same store. */
  lemma TickMatchesBlockStep(entries: map<nat, seq<Transaction>>, unreadable: set<nat>, key: nat)
    ensures TickEffect(entries, unreadable, key) == BlockEffect(entries, unreadable, key)
  {
    if key !in entries {
      assert entries - {key} == entries;
    }
  }

  /** The block driver over a sequence of observed blocks, step by step. */
  function RunBlocks(entries: map<nat, seq<Transaction>>, unreadable: set<nat>, blocks: seq<nat>, offset: nat): (e: Effect)
    ensures e.rest.Keys <= entries.Keys
    decreases |blocks|
  {
    if blocks == [] then Effect([], entries)
    else
      var before := RunBlocks(entries, unreadable, blocks[..|blocks| - 1], offset);
      var step := BlockEffect(before.rest, unreadable, blocks[|blocks| - 1] + offset);
      Effect(before.delivered + step.delivered, step.rest)
  }

  /** The schedule keys looked up for the observed blocks. */
  function Keys(blocks: seq<nat>, offset: nat): (keys: seq<nat>)
    ensures |keys| == |blocks|
  {
    seq(|blocks|, i requires 0 <= i < |blocks| => blocks[i] + offset)
  }

  /** Reference definition: the i-th key delivers iff the store holds a
      readable batch there and the key did not occur before. */
  predicate DueAt(keys: seq<nat>, i: nat, entries: map<nat, seq<Transaction>>, unreadable: set<nat>)
    requires i < |keys|
  {
    keys[i] in entries && keys[i] !in unreadable && keys[i] !in keys[..i]
  }

  /** The batches of the keys that are due, in the order of their first
      occurrence. */
  function Due(keys: seq<nat>, entries: map<nat, seq<Transaction>>, unreadable: set<nat>): seq<Transaction>
    decreases |keys|
  {
    if keys == [] then []
    else
      Due(keys[..|keys| - 1], entries, unreadable)
        + if DueAt(keys, |keys| - 1, entries, unreadable) then entries[keys[|keys| - 1]] else []
  }

  /** The keys whose batches have been drained: every readable key looked up. */
  function Drained(keys: seq<nat>, unreadable: set<nat>): set<nat> {
    set k | k in keys && k !in unreadable
  }

  /** The keys of a block sequence are those of its prefix and one more. */
  lemma KeysLast(blocks: seq<nat>, offset: nat)
    requires blocks != []
    ensures Keys(blocks, offset)
      == Keys(blocks[..|blocks| - 1], offset) + [blocks[|blocks| - 1] + offset]
  {
    assert Keys(blocks, offset)[..|blocks| - 1] == Keys(blocks[..|blocks| - 1], offset);
  }

  lemma DueLast(keys: seq<nat>, key: nat, entries: map<nat, seq<Transaction>>, unreadable: set<nat>)
    ensures Due(keys + [key], entries, unreadable)
      == Due(keys, entries, unreadable)
         + if key in entries && key !in unreadable && key !in keys then entries[key] else []
  {
    assert (keys + [key])[..|keys|] == keys;
  }

  lemma DrainedLast(keys: seq<nat>, key: nat, unreadable: set<nat>)
    ensures key in unreadable ==> Drained(keys + [key], unreadable) == Drained(keys, unreadable)
    ensures key !in unreadable ==> Drained(keys + [key], unreadable) == Drained(keys, unreadable) + {key}
    ensures key in Drained(keys, unreadable) <==> key in keys && key !in unreadable
  {
  }

  lemma RemoveAbsent(m: map<nat, seq<Transaction>>, gone: set<nat>, key: nat)
    requires key !in m - gone
    ensures m - gone == m - (gone + {key})
  {
  }

  lemma RemovePresent(m: map<nat, seq<Transaction>>, gone: set<nat>, key: nat)
    requires key in m - gone
    ensures (m - gone) - {key} == m - (gone + {key})
  {
  }

  /** One block step on a store from which the readable keys seen so far are
      gone: it delivers the key's batch iff the key is due, and removes the
      key iff it is readable. */
  lemma BlockStepAfterDrained(keys: seq<nat>, key: nat, entries: map<nat, seq<Transaction>>, unreadable: set<nat>)
    ensures BlockEffect(entries - Drained(keys, unreadable), unreadable, key)
      == Effect(if key in entries && key !in unreadable && key !in keys then entries[key] else [],
                entries - Drained(keys + [key], unreadable))
  {
    DrainedLast(keys, key, unreadable);
    var gone := Drained(keys, unreadable);
    if key !in unreadable {
      if key in entries - gone {
        RemovePresent(entries, gone, key);
      } else {
        RemoveAbsent(entries, gone, key);
      }
    }
  }

  /** The block driver drains every key at most once: it delivers exactly
      the batches of the distinct readable keys it looks up, in the order
      they first come up, and removes exactly those keys from the store. */
  lemma {:induction false} RunBlocksDeliversEachKeyOnce(
    entries: map<nat, seq<Transaction>>, unreadable: set<nat>, blocks: seq<nat>, offset: nat)
    ensures RunBlocks(entries, unreadable, blocks, offset)
      == Effect(Due(Keys(blocks, offset), entries, unreadable),
                entries - Drained(Keys(blocks, offset), unreadable))
    decreases |blocks|
  {
    if blocks == [] {
      assert Drained(Keys(blocks, offset), unreadable) == {};
      assert entries - {} == entries;
    } else {
      var prefix := blocks[..|blocks| - 1];
      var key := blocks[|blocks| - 1] + offset;
      var keys := Keys(prefix, offset);
      RunBlocksDeliversEachKeyOnce(entries, unreadable, prefix, offset);
      var before := RunBlocks(entries, unreadable, prefix, offset);
      var step := BlockEffect(before.rest, unreadable, key);
      assert RunBlocks(entries, unreadable, blocks, offset) == Effect(before.delivered + step.delivered, step.rest);
      KeysLast(blocks, offset);
      DueLast(keys, key, entries, unreadable);
      BlockStepAfterDrained(keys, key, entries, unreadable);
    }
  }

  /** The blocks observed first deliver a prefix of what all of them do. */
  lemma {:induction false} RunBlocksPrefix(
    entries: map<nat, seq<Transaction>>, unreadable: set<nat>, blocks: seq<nat>, offset: nat, i: nat)
    requires i <= |blocks|
    ensures RunBlocks(entries, unreadable, blocks[..i], offset).delivered
      <= RunBlocks(entries, unreadable, blocks, offset).delivered
    decreases |blocks|
  {
    if i < |blocks| {
      var n := |blocks| - 1;
      assert blocks[..n][..i] == blocks[..i];
      RunBlocksPrefix(entries, unreadable, blocks[..n], offset, i);
    } else {
      assert blocks[..i] == blocks;
    }
  }

  /** The run over the first i + 1 blocks is the run over the first i
      followed by one block step. */
  lemma RunBlocksStep(
    entries: map<nat, seq<Transaction>>, unreadable: set<nat>, blocks: seq<nat>, offset: nat, i: nat)
    requires i < |blocks|
    ensures var before := RunBlocks(entries, unreadable, blocks[..i], offset);
      var effect := BlockEffect(before.rest, unreadable, blocks[i] + offset);
      RunBlocks(entries, unreadable, blocks[..i + 1], offset)
        == Effect(before.delivered + effect.delivered, effect.rest)
  {
    assert blocks[..i + 1][..i] == blocks[..i];
  }

  /** Blocks 10, 11, 12 observed with submit_earlier = 2 and one batch
      stored at key 12: the batch goes out when block 10 is seen, and blocks
      11 and 12 add nothing. */
  lemma SubmitEarlierExample(txs: seq<Transaction>, unreadable: set<nat>)
    requires 12 !in unreadable
    ensures RunBlocks(map[12 := txs], unreadable, [10], 2) == Effect(txs, map[])
    ensures RunBlocks(map[12 := txs], unreadable, [10, 11], 2) == Effect(txs, map[])
    ensures RunBlocks(map[12 := txs], unreadable, [10, 11, 12], 2) == Effect(txs, map[])
  {
    var store := map[12 := txs];
    assert store - {12} == map[];
    assert [10, 11, 12][..2] == [10, 11];
    assert [10, 11][..1] == [10];
    assert [10][..0] == [];
  }

  /** The body of run_block's loop for one observed block. */
  method OnBlock(db: Database, sinks: Sinks, block: nat, submitEarlier: nat) returns (step: StepOutcome)
    requires sinks.Valid()
    modifies db, sinks
    ensures sinks.Valid() && sinks.open == old(sinks.open)
    ensures var effect := BlockEffect(old(db.entries), db.unreadable, block + submitEarlier);
      && db.entries == effect.rest
      && (step == Aborted <==> effect.delivered != [] && false in sinks.open)
      && (step != Aborted ==> sinks.queues == Extend(old(sinks.queues), effect.delivered))
      && (step == Aborted ==> forall i :: 0 <= i < |sinks.queues| ==>
            sinks.queues[i] == old(sinks.queues[i]) + if i < Reach(sinks.open) then [effect.delivered[0]] else [])
    ensures step == Skipped <==> block + submitEarlier !in old(db.entries)
    ensures step == ReadFailed <==> block + submitEarlier in old(db.entries) && block + submitEarlier in db.unreadable
    ensures step != NothingFound
  {
    var key := block + submitEarlier;
    if !db.Has(key) {
      ExtendNothing(sinks.queues);
      return Skipped;
    }
    var drained := db.Drain(key);
    if drained.Ok? && drained.value.Some? {
      var c := Submit(sinks, drained.value.value);
      step := if c == Ready then Submitted else Aborted;
    } else {
      // With the store held by this driver alone, a key that was just
      // found cannot drain to nothing; only a read error lands here.
      ExtendNothing(sinks.queues);
      step := if drained.Err? then ReadFailed else NothingFound;
    }
  }

  /** How a driver run ended: the block stream ran out, or a submission
      failed and the driver panicked. */
  datatype RunOutcome = Finished | Panicked

  /** The state run_block leaves when the submission for block
      `blocks[failedAt]` fails: every block before it delivered nothing, its
      batch has already been drained from the store, and its first
      transaction reached only the sinks before the first closed one. */
  ghost predicate PanicState(
    entries: map<nat, seq<Transaction>>, unreadable: set<nat>, blocks: seq<nat>, offset: nat, failedAt: nat,
    entriesAfter: map<nat, seq<Transaction>>, queues: seq<seq<Transaction>>,
    queuesAfter: seq<seq<Transaction>>, open: seq<bool>)
  {
    && failedAt < |blocks|
    && RunBlocks(entries, unreadable, blocks[..failedAt], offset).delivered == []
    && var effect := RunBlocks(entries, unreadable, blocks[..failedAt + 1], offset);
    && effect.delivered != []
    && entriesAfter == effect.rest
    && |queuesAfter| == |queues|
    && forall i :: 0 <= i < |queues| ==>
         queuesAfter[i] == queues[i] + if i < Reach(open) then [effect.delivered[0]] else []
  }

  /** A block step that fails right after a run of blocks that delivered
      nothing leaves the panic state, and the whole stream then delivers
      something. */
  lemma PanicAfterStep(
    entries: map<nat, seq<Transaction>>, unreadable: set<nat>, blocks: seq<nat>, offset: nat, i: nat,
    effect: Effect, entriesAfter: map<nat, seq<Transaction>>, queues: seq<seq<Transaction>>,
    queuesAfter: seq<seq<Transaction>>, open: seq<bool>)
    requires i < |blocks|
    requires RunBlocks(entries, unreadable, blocks[..i], offset).delivered == []
    requires effect == BlockEffect(RunBlocks(entries, unreadable, blocks[..i], offset).rest, unreadable, blocks[i] + offset)
    requires effect.delivered != [] && entriesAfter == effect.rest && |queuesAfter| == |queues|
    requires forall j :: 0 <= j < |queues| ==>
      queuesAfter[j] == queues[j] + if j < Reach(open) then [effect.delivered[0]] else []
    ensures PanicState(entries, unreadable, blocks, offset, i, entriesAfter, queues, queuesAfter, open)
    ensures RunBlocks(entries, unreadable, blocks, offset).delivered != []
  {
    RunBlocksStep(entries, unreadable, blocks, offset, i);
    assert [] + effect.delivered == effect.delivered;
    assert RunBlocks(entries, unreadable, blocks[..i + 1], offset) == effect;
    RunBlocksPrefix(entries, unreadable, blocks, offset, i + 1);
  }

  /** run_block over a finite stream of observed blocks. On a panic,
      `failedAt` is the index of the block whose submission failed: every
      block before it delivered nothing, its batch has already been drained
      from the store, and its first transaction reached only the sinks
      before the first closed one. */
  method RunBlock(db: Database, sinks: Sinks, blocks: seq<nat>, submitEarlier: nat)
    returns (r: RunOutcome, ghost failedAt: nat)
    requires sinks.Valid()
    modifies db, sinks
    ensures sinks.Valid() && sinks.open == old(sinks.open)
    ensures r == Panicked <==>
      RunBlocks(old(db.entries), db.unreadable, blocks, submitEarlier).delivered != [] && false in sinks.open
    ensures r == Finished ==>
      var effect := RunBlocks(old(db.entries), db.unreadable, blocks, submitEarlier);
      db.entries == effect.rest && sinks.queues == Extend(old(sinks.queues), effect.delivered)
    ensures r == Panicked ==>
      PanicState(old(db.entries), db.unreadable, blocks, submitEarlier, failedAt,
                 db.entries, old(sinks.queues), sinks.queues, sinks.open)
  {
    ghost var entries0 := db.entries;
    ghost var queues0 := sinks.queues;
    ExtendNothing(queues0);
    var i := 0;
    while i < |blocks|
      invariant 0 <= i <= |blocks|
      invariant sinks.Valid() && sinks.open == old(sinks.open)
      invariant db.entries == RunBlocks(entries0, db.unreadable, blocks[..i], submitEarlier).rest
      invariant sinks.queues
        == Extend(queues0, RunBlocks(entries0, db.unreadable, blocks[..i], submitEarlier).delivered)
      invariant false in sinks.open ==>
        RunBlocks(entries0, db.unreadable, blocks[..i], submitEarlier).delivered == []
    {
      ghost var before := RunBlocks(entries0, db.unreadable, blocks[..i], submitEarlier);
      ghost var effect := BlockEffect(before.rest, db.unreadable, blocks[i] + submitEarlier);
      ghost var queuesBefore := sinks.queues;
      var step := OnBlock(db, sinks, blocks[i], submitEarlier);
      assert db.entries == effect.rest;
      if step == Aborted {
        assert queuesBefore == queues0;
        PanicAfterStep(entries0, db.unreadable, blocks, submitEarlier, i,
                       effect, db.entries, queues0, sinks.queues, sinks.open);
        return Panicked, i;
      }
      RunBlocksStep(entries0, db.unreadable, blocks, submitEarlier, i);
      ExtendTwice(queues0, before.delivered, effect.delivered);
      i := i + 1;
    }
    assert blocks[..i] == blocks;
    return Finished, i;
  }

  /** The body of run_timestamp's loop for one tick at unix second `now`
      (the clock read, the sleep and the loop itself are not modelled). */
  method OnTick(db: Database, sinks: Sinks, now: nat) returns (step: StepOutcome)
    requires sinks.Valid()
    modifies db, sinks
    ensures sinks.Valid() && sinks.open == old(sinks.open)
    ensures var effect := TickEffect(old(db.entries), db.unreadable, now);
      && db.entries == effect.rest
      && (step == Aborted <==> effect.delivered != [] && false in sinks.open)
      && (step != Aborted ==> sinks.queues == Extend(old(sinks.queues), effect.delivered))
      && (step == Aborted ==> forall i :: 0 <= i < |sinks.queues| ==>
            sinks.queues[i] == old(sinks.queues[i]) + if i < Reach(sinks.open) then [effect.delivered[0]] else [])
    ensures step == ReadFailed <==> now in db.unreadable
    ensures step == NothingFound <==> now !in db.unreadable && now !in old(db.entries)
    ensures step != Skipped
  {
    var drained := db.Drain(now);
    match drained {
      case Ok(Some(txs)) =>
        var c := Submit(sinks, txs);
        step := if c == Ready then Submitted else Aborted;
      case Err(_) =>
        ExtendNothing(sinks.queues);
        step := ReadFailed;
      case Ok(None) =>
        ExtendNothing(sinks.queues);
        step := NothingFound;
    }
  }
}
