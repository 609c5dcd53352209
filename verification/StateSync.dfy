/** Bringing the blockchain back in step with the replica's metadata after a crash. */
module StateSync {
  import opened Common

  /** What a run of the sync returns, and the last block it leaves. */
  datatype Outcome = Outcome(result: Result<nat>, last: nat)

  // ---------- what the two loops are meant to do ----------

  /**
   * How many blocks at the end of [genesis, last] carry a sequence number above the last executed one;
   * seqNum(i) is the number the chain reports while block i is its last block.
   */
  function Unexecuted(seqNum: nat -> nat, genesis: nat, last: nat, lastExecuted: nat): (n: nat)
    ensures n <= last
  {
    if last == 0 || last < genesis || seqNum(last) <= lastExecuted then 0
    else 1 + Unexecuted(seqNum, genesis, last - 1, lastExecuted)
  }

  /** More than max blocks to remove is an error; so is removing the only block left. */
  function SeqNumOutcome(seqNum: nat -> nat, genesis: nat, last: nat, lastExecuted: nat, max: nat): Outcome {
    var n := Unexecuted(seqNum, genesis, last, lastExecuted);
    if lastExecuted == 0 then Outcome(Ok(0), last)
    else if n <= max && n <= last - genesis then Outcome(Ok(n), last - n)
    else if max <= last - genesis then Outcome(Err(RuntimeError), last - max)
    else if n == 0 then Outcome(Ok(0), last)
    else Outcome(Err(LogicError), genesis)
  }

  /** Reaching max removed blocks is an error, even when no block is left to remove. */
  function BlockIdOutcome(genesis: nat, last: nat, persisted: nat, max: nat): Outcome {
    if max == 0 || last <= persisted then Outcome(Ok(0), last)
    else if last - persisted < max && genesis <= persisted then Outcome(Ok(last - persisted), persisted)
    else if max <= last - genesis then Outcome(Err(RuntimeError), last - max)
    else Outcome(Err(LogicError), genesis)
  }

  /** The last block that a sync by sequence number keeps. */
  function Keep(seqNum: nat -> nat, genesis: nat, last: nat, lastExecuted: nat): nat {
    last - Unexecuted(seqNum, genesis, last, lastExecuted)
  }

  /** A block of the chain with a sequence number above the last executed one. */
  predicate Above(seqNum: nat -> nat, genesis: nat, lastExecuted: nat, i: nat) {
    i >= genesis && seqNum(i) > lastExecuted
  }

  /** The suffix that counts as unexecuted: every block in it is above, the block before it is not. */
  lemma {:induction false} UnexecutedIsSuffix(seqNum: nat -> nat, genesis: nat, last: nat, lastExecuted: nat, keep: nat)
    requires keep == Keep(seqNum, genesis, last, lastExecuted)
    ensures forall i :: keep < i <= last ==> Above(seqNum, genesis, lastExecuted, i)
    ensures keep == 0 || keep < genesis || seqNum(keep) <= lastExecuted
  {
    if last != 0 && last >= genesis && seqNum(last) > lastExecuted {
      UnexecutedIsSuffix(seqNum, genesis, last - 1, lastExecuted, keep);
      assert Above(seqNum, genesis, lastExecuted, last);
    }
  }

  lemma {:induction false} UnexecutedStep(seqNum: nat -> nat, genesis: nat, last: nat, lastExecuted: nat, k: nat)
    requires k <= Unexecuted(seqNum, genesis, last, lastExecuted)
    ensures Unexecuted(seqNum, genesis, last - k, lastExecuted) == Unexecuted(seqNum, genesis, last, lastExecuted) - k
  {
    if k > 0 {
      UnexecutedStep(seqNum, genesis, last - 1, lastExecuted, k - 1);
    }
  }

  // ---------- the chain and the sync ----------

  class Blockchain {
    var genesis: nat
    var last: nat
    const seqNum: nat -> nat

    ghost predicate Valid()
      reads this
    {
      (genesis == 0 && last == 0) || 1 <= genesis <= last
    }

    constructor (genesis: nat, last: nat, seqNum: nat -> nat)
      requires (genesis == 0 && last == 0) || 1 <= genesis <= last
      ensures Valid() && this.genesis == genesis && this.last == last && this.seqNum == seqNum
    {
      this.genesis, this.last, this.seqNum := genesis, last, seqNum;
    }

    /** The only block of a chain cannot be deleted. */
    method DeleteLastReachableBlock() returns (r: Result<()>)
      requires Valid()
      modifies `last
      ensures Valid()
      ensures if old(last) == genesis then r == Err(LogicError) && last == old(last)
              else r.Ok? && last == old(last) - 1
    {
      if last == genesis {
        return Err(LogicError);
      }
      last := last - 1;
      r := Ok(());
    }
  }

  /** executeBasedOnBftSeqNum. */
  method ExecuteBasedOnBftSeqNum(blockchain: Blockchain, lastExecuted: nat, max: nat) returns (r: Result<nat>)
    requires blockchain.Valid()
    modifies blockchain`last
    ensures blockchain.Valid()
    ensures Outcome(r, blockchain.last)
         == SeqNumOutcome(blockchain.seqNum, blockchain.genesis, old(blockchain.last), lastExecuted, max)
  {
    if lastExecuted == 0 {
      return Ok(0);
    }
    ghost var all := Unexecuted(blockchain.seqNum, blockchain.genesis, blockchain.last, lastExecuted);
    var removed := 0;
    while blockchain.last != 0 && blockchain.genesis <= blockchain.last
      invariant blockchain.Valid() && removed <= all && removed <= max
      invariant blockchain.last == old(blockchain.last) - removed
      invariant removed <= old(blockchain.last) - blockchain.genesis
      decreases blockchain.last
    {
      UnexecutedStep(blockchain.seqNum, blockchain.genesis, old(blockchain.last), lastExecuted, removed);
      if blockchain.seqNum(blockchain.last) <= lastExecuted {
        return Ok(removed);
      }
      if removed >= max {
        return Err(RuntimeError);
      }
      var deleted := blockchain.DeleteLastReachableBlock();
      if deleted.Err? {
        return Err(deleted.error);
      }
      removed := removed + 1;
    }
    r := Ok(removed);
  }

  /** executeBasedOnBlockId. */
  method ExecuteBasedOnBlockId(blockchain: Blockchain, persisted: nat, max: nat) returns (r: Result<nat>)
    requires blockchain.Valid()
    modifies blockchain`last
    ensures blockchain.Valid()
    ensures Outcome(r, blockchain.last) == BlockIdOutcome(blockchain.genesis, old(blockchain.last), persisted, max)
  {
    if max == 0 {
      return Ok(0);
    }
    var deletedBlocks := 0;
    while blockchain.last > persisted && blockchain.genesis <= blockchain.last
      invariant blockchain.Valid() && deletedBlocks < max
      invariant blockchain.last == old(blockchain.last) - deletedBlocks
      invariant deletedBlocks > 0 ==> blockchain.last >= persisted
      invariant deletedBlocks <= old(blockchain.last) - blockchain.genesis
      decreases blockchain.last
    {
      var deleted := blockchain.DeleteLastReachableBlock();
      if deleted.Err? {
        return Err(deleted.error);
      }
      deletedBlocks := deletedBlocks + 1;
      if deletedBlocks == max {
        return Err(RuntimeError);
      }
    }
    r := Ok(deletedBlocks);
  }

  /** The persisted metadata: the id of the last block, once there is one. */
  class Metadata {
    var lastBlockId: Option<nat>

    constructor ()
      ensures lastBlockId == None
    {
      lastBlockId := None;
    }
  }

  /** execute: by sequence number the first time, by block id from then on. */
  method Execute(blockchain: Blockchain, metadata: Metadata, lastExecuted: nat, max: nat) returns (r: Result<nat>)
    requires blockchain.Valid()
    modifies blockchain`last, metadata
    ensures blockchain.Valid()
    ensures Outcome(r, blockchain.last) == ExecuteOutcome(
      blockchain.seqNum, blockchain.genesis, old(blockchain.last), old(metadata.lastBlockId), lastExecuted, max)
    ensures metadata.lastBlockId ==
      if old(metadata.lastBlockId).None? && r.Ok? then Some(blockchain.last) else old(metadata.lastBlockId)
  {
    if metadata.lastBlockId.None? {
      r := ExecuteBasedOnBftSeqNum(blockchain, lastExecuted, max);
      if r.Ok? {
        metadata.lastBlockId := Some(blockchain.last);
      }
    } else {
      r := ExecuteBasedOnBlockId(blockchain, metadata.lastBlockId.value, max);
    }
  }

  function ExecuteOutcome(
    seqNum: nat -> nat, genesis: nat, last: nat, persisted: Option<nat>, lastExecuted: nat, max: nat): Outcome
  {
    if persisted.None? then SeqNumOutcome(seqNum, genesis, last, lastExecuted, max)
    else BlockIdOutcome(genesis, last, persisted.value, max)
  }

  // ---------- what a normal return means ----------

  /** A chain with or without blocks. */
  predicate ChainIds(genesis: nat, last: nat) {
    (genesis == 0 && last == 0) || 1 <= genesis <= last
  }

  /** A block is removed by a normal return exactly when it was not executed, together with all after it. */
  lemma {:induction false} SeqNumSyncIsExact(seqNum: nat -> nat, genesis: nat, last: nat, lastExecuted: nat, max: nat)
    requires ChainIds(genesis, last) && lastExecuted > 0
    requires SeqNumOutcome(seqNum, genesis, last, lastExecuted, max).result.Ok?
    ensures var end := SeqNumOutcome(seqNum, genesis, last, lastExecuted, max);
      && end.result.value == last - end.last <= max
      && (forall i :: end.last < i <= last ==> Above(seqNum, genesis, lastExecuted, i))
      && (end.last == 0 || (end.last >= genesis && seqNum(end.last) <= lastExecuted))
      && SeqNumOutcome(seqNum, genesis, end.last, lastExecuted, max) == Outcome(Ok(0), end.last)
  {
    UnexecutedIsSuffix(seqNum, genesis, last, lastExecuted, Keep(seqNum, genesis, last, lastExecuted));
  }

  /**
   * How the sync by sequence number ends: it is skipped while nothing was executed; it throws a runtime error exactly
   * when more blocks than the limit are above, and a logic error exactly when the limit allows to remove all blocks
   * and all are above.
   */
  lemma {:induction false} SeqNumSyncFailsIff(seqNum: nat -> nat, genesis: nat, last: nat, lastExecuted: nat, max: nat)
    requires ChainIds(genesis, last)
    ensures var end := SeqNumOutcome(seqNum, genesis, last, lastExecuted, max);
      if lastExecuted == 0 then end == Outcome(Ok(0), last)
      else
        && (end.result == Err(RuntimeError) <==>
             genesis + max <= last && last > 0 && AllAbove(seqNum, genesis, lastExecuted, last - max, last))
        && (end.result == Err(LogicError) <==>
             last < genesis + max && last > 0 && AllAbove(seqNum, genesis, lastExecuted, genesis, last))
        && (end.result.Err? ==> end.result == Err(RuntimeError) || end.result == Err(LogicError))
        && (end.result == Err(RuntimeError) ==> end.last == last - max)
        && (end.result == Err(LogicError) ==> end.last == genesis)
  {
    hide Unexecuted;
    UnexecutedIsSuffix(seqNum, genesis, last, lastExecuted, Keep(seqNum, genesis, last, lastExecuted));
    SuffixInChain(seqNum, genesis, last, lastExecuted);
    var keep := Keep(seqNum, genesis, last, lastExecuted);
    assert keep >= genesis && keep > 0 ==> !Above(seqNum, genesis, lastExecuted, keep);
  }

  /** All blocks of a range are above the last executed number. */
  predicate AllAbove(seqNum: nat -> nat, genesis: nat, lastExecuted: nat, from: nat, to: nat) {
    forall i :: from <= i <= to ==> Above(seqNum, genesis, lastExecuted, i)
  }

  lemma {:induction false} SuffixInChain(seqNum: nat -> nat, genesis: nat, last: nat, lastExecuted: nat)
    ensures last >= genesis ==> Unexecuted(seqNum, genesis, last, lastExecuted) <= last - genesis + 1
  {
    if last > genesis && seqNum(last) > lastExecuted {
      SuffixInChain(seqNum, genesis, last - 1, lastExecuted);
    }
  }

  /**
   * How the sync by block id ends: a limit of 0 turns it off; it throws a runtime error exactly when it has to remove
   * as many blocks as the limit, and a logic error exactly when it would have to remove the only block before that.
   */
  lemma {:induction false} BlockIdSyncFailsIff(genesis: nat, last: nat, persisted: nat, max: nat)
    requires ChainIds(genesis, last)
    ensures var end := BlockIdOutcome(genesis, last, persisted, max);
      if max == 0 then end == Outcome(Ok(0), last)
      else
        && (end.result == Err(RuntimeError) <==> persisted + max <= last && genesis + max <= last)
        && (end.result == Err(LogicError) <==> persisted < genesis && last < genesis + max)
        && (end.result.Err? ==> end.result == Err(RuntimeError) || end.result == Err(LogicError))
        && (end.result == Err(RuntimeError) ==> end.last == last - max)
        && (end.result == Err(LogicError) ==> end.last == genesis)
  {
  }

  /** A normal return of the block id sync leaves no block beyond the persisted one and removes no other. */
  lemma {:induction false} BlockIdSyncIsExact(genesis: nat, last: nat, persisted: nat, max: nat)
    requires ChainIds(genesis, last) && max > 0
    requires BlockIdOutcome(genesis, last, persisted, max).result.Ok?
    ensures var end := BlockIdOutcome(genesis, last, persisted, max);
      && end.last == (if last > persisted then persisted else last)
      && end.result.value == last - end.last < max
      && BlockIdOutcome(genesis, end.last, persisted, max) == Outcome(Ok(0), end.last)
  {
  }

  /** Whatever the metadata was, after a normal return the next run removes nothing. */
  lemma {:induction false} SecondRunRemovesNothing(
    seqNum: nat -> nat, genesis: nat, last: nat, persisted: Option<nat>, lastExecuted: nat, max: nat)
    requires ChainIds(genesis, last)
    requires ExecuteOutcome(seqNum, genesis, last, persisted, lastExecuted, max).result.Ok?
    ensures var end := ExecuteOutcome(seqNum, genesis, last, persisted, lastExecuted, max);
      var persisted' := if persisted.None? then Some(end.last) else persisted;
      ExecuteOutcome(seqNum, genesis, end.last, persisted', lastExecuted, max) == Outcome(Ok(0), end.last)
  {
    if persisted.Some? && max > 0 {
      BlockIdSyncIsExact(genesis, last, persisted.value, max);
    }
  }

  /** With exactly max blocks to remove, one loop returns and the other throws; both remove them. */
  lemma {:induction false} LimitsDiffer(seqNum: nat -> nat, genesis: nat, last: nat, lastExecuted: nat, max: nat)
    requires 1 <= genesis <= last - max && lastExecuted > 0 && max > 0
    requires Unexecuted(seqNum, genesis, last, lastExecuted) == max
    ensures SeqNumOutcome(seqNum, genesis, last, lastExecuted, max) == Outcome(Ok(max), last - max)
    ensures BlockIdOutcome(genesis, last, last - max, max) == Outcome(Err(RuntimeError), last - max)
    ensures BlockIdOutcome(genesis, last - max, last - max, max) == Outcome(Ok(0), last - max)
  {
  }

  // ---------- runs of a replica ----------

  /**
   * A replica adds blocks, prunes its genesis block, persists the id of the last block, and may end and
   * be started again at any point.
   */
  datatype Event<T> = AddBlock(block: T) | Prune | Persist | CrashAndSync

  /** The blocks, pruned ones included, the genesis id, the persisted id, and whether the replica is up. */
  datatype Replica<T> = Replica(chain: seq<T>, genesis: nat, persisted: nat, up: bool)

  /** The ids of a replica, pruned or not. */
  predicate Sound<T>(s: Replica<T>) {
    ChainIds(s.genesis, |s.chain|) && s.persisted <= |s.chain|
  }

  /** A sync that throws has removed its blocks and leaves the replica down until it is started again. */
  function Step<T>(s: Replica<T>, max: nat, e: Event<T>): (s': Replica<T>)
    requires Sound(s)
    ensures Sound(s') && s.persisted <= s'.persisted && s.genesis <= s'.genesis
  {
    match e
    case AddBlock(b) => if s.up then s.(chain := s.chain + [b], genesis := if s.genesis == 0 then 1 else s.genesis) else s
    case Prune => if s.up && 1 <= s.genesis < |s.chain| then s.(genesis := s.genesis + 1) else s
    case Persist => if s.up then s.(persisted := |s.chain|) else s
    case CrashAndSync =>
      var end := BlockIdOutcome(s.genesis, |s.chain|, s.persisted, max);
      s.(chain := s.chain[..end.last], up := end.result.Ok?)
  }

  function Run<T>(s: Replica<T>, max: nat, events: seq<Event<T>>): Replica<T>
    requires Sound(s)
    decreases |events|
  {
    if events == [] then s else Run(Step(s, max, events[0]), max, events[1..])
  }

  /** The blocks that no sync removes: up to the persisted id, and up to the genesis block. */
  function Safe<T>(s: Replica<T>): (n: nat)
    ensures Sound(s) ==> n <= |s.chain|
  {
    if s.genesis <= s.persisted then s.persisted else s.genesis
  }

  /**
   * In every run, pruning and syncs that throw and are tried again included, the blocks up to the
   * persisted id and the genesis block stay as they are, and a sync that lets the replica come up
   * leaves exactly those up to the persisted id, unless the limit is 0, which turns it off.
   */
  lemma {:induction false} PersistedPrefixSurvives<T>(s: Replica<T>, max: nat, events: seq<Event<T>>)
    requires Sound(s)
    ensures var end := Run(s, max, events);
      && Sound(end) && s.persisted <= end.persisted && s.genesis <= end.genesis
      && s.chain[..Safe(s)] <= end.chain
      && (max > 0 && events != [] && events[|events| - 1].CrashAndSync? && end.up ==> |end.chain| == end.persisted)
    decreases |events|
  {
    hide Step, Safe;
    if events != [] {
      var s' := Step(s, max, events[0]);
      SafeStays(s, max, events[0]);
      PersistedPrefixSurvives(s', max, events[1..]);
    }
  }

  lemma {:induction false} SafeStays<T>(s: Replica<T>, max: nat, e: Event<T>)
    requires Sound(s)
    ensures var s' := Step(s, max, e);
      && s.chain[..Safe(s)] <= s'.chain[..Safe(s')]
      && (max > 0 && e.CrashAndSync? && s'.up ==> |s'.chain| == s'.persisted)
  {
    var s' := Step(s, max, e);
    assert s.chain[..Safe(s)] == s'.chain[..Safe(s)];
  }

  /** One start after another, with nothing in between. */
  predicate OnlyStarts<T>(events: seq<Event<T>>) {
    forall i :: 0 <= i < |events| ==> events[i].CrashAndSync?
  }

  /**
   * Starting a replica again and again brings it up if and only if the genesis block is persisted, there
   * is none, or the limit is 0. What is left is all blocks under a limit of 0, otherwise exactly the
   * persisted blocks, and those up to the genesis block when it does not come up.
   */
  lemma {:induction false} StartsComeUpIffPersisted<T>(s: Replica<T>, max: nat, events: seq<Event<T>>)
    requires Sound(s)
    requires OnlyStarts(events) && |events| > |s.chain| - s.persisted
    ensures var end := Run(s, max, events);
      && end.persisted == s.persisted && end.genesis == s.genesis
      && (end.up <==> s.genesis <= s.persisted || max == 0)
      && end.chain == s.chain[..if max == 0 then |s.chain| else Safe(s)]
    decreases |events|
  {
    var s' := Step(s, max, events[0]);
    if max == 0 {
      SyncIsOff(s, events);
    } else if s'.persisted < s'.genesis == |s'.chain| {
      GenesisStays(s', max, events[1..]);
    } else if |events| > 1 {
      StartsComeUpIffPersisted(s', max, events[1..]);
    } else {
      assert events[1..] == [];
    }
  }

  /** Under a limit of 0 the sync removes nothing and the replica comes up as it is. */
  lemma {:induction false} SyncIsOff<T>(s: Replica<T>, events: seq<Event<T>>)
    requires Sound(s) && OnlyStarts(events) && events != []
    ensures Run(s, 0, events) == s.(up := true)
    decreases |events|
  {
    var s' := Step(s, 0, events[0]);
    assert s' == s.(up := true);
    if |events| > 1 {
      SyncIsOff(s', events[1..]);
    } else {
      assert events[1..] == [];
    }
  }

  /** The only block left cannot be removed, and if it is beyond the persisted id no start gets past it. */
  lemma {:induction false} GenesisStays<T>(s: Replica<T>, max: nat, events: seq<Event<T>>)
    requires Sound(s) && s.persisted < s.genesis == |s.chain| && max > 0 && !s.up && OnlyStarts(events)
    ensures Run(s, max, events) == s
    decreases |events|
  {
    if events != [] {
      assert Step(s, max, events[0]) == s;
      GenesisStays(s, max, events[1..]);
    }
  }
}
