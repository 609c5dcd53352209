/** What addRawBlock, deleteBlock and getRawBlock answer: refusals, and the blocks that wait. */
module Answers {
  import opened Common
  import opened SparseTree
  import opened AdapterSpec
  import opened Growth
  import opened Linking
  import opened Recovery
  import opened Crashes
  import opened RawChain
  import opened AdapterRuns
  import opened EveryRun

  // ---------- addBlock ----------

  lemma {:induction false} AddNeverRefusesId(cfg: Config, l: Ledger, updates: map<Key, Value>, deletes: set<Key>)
    ensures AddBlock(cfg, l, updates, deletes) != Err(InvalidArgument)
  {
    hide ActuallyDeleted, Update;
  }

  /**
   * On any database in order addBlock fails exactly when it is asked to delete a non-provable key, or when it reads the
   * latest root and that is not stored; both are runtime errors.
   */
  lemma {:induction false} AddFailsIff(cfg: Config, l: Ledger, updates: map<Key, Value>, deletes: set<Key>)
    requires RawOk(cfg, l)
    ensures var r := AddBlock(cfg, l, updates, deletes);
      && (r.Err? <==>
           || deletes * cfg.nonProvable != {}
           || (&& ReadsRoot(cfg, l, updates, deletes) && l.last > 0
               && RootVersion(l) > 0 && RootAt(l.db, RootVersion(l)).None?))
      && (r.Err? ==> r == Err(RuntimeError))
  {
    hide RawOk, GetRawBlock, Update, ActuallyDeleted;
    RawIds(cfg, l);
    ProvableEmpty(cfg, updates);
    if l.last > 0 {
      KnownNode(l, l.last);
      RawHashChain(cfg, l, map[], l.last);
    }
  }

  /** The tree version of the last block. */
  function RootVersion(l: Ledger): nat {
    match NodeAt(l.db, l.last) case Some(node) => node.version case None => 0
  }

  // ---------- addRawBlock ----------

  /**
   * An id that is on the chain, or below it, is refused as such and nothing else is. Beyond the next place the block
   * waits and the chain stays; at the next place it is added, or the error is that of addBlock or of a failed link.
   */
  lemma {:induction false} AddRawExact(cfg: Config, s: State, block: RawBlock, id: nat)
    ensures var r := AddRawBlock(cfg, s, block, id);
      && (r == Err(InvalidArgument) <==> id <= s.ledger.last)
      && (id > s.ledger.last + 1 ==>
           r.Ok? && r.value.ledger == s.ledger && r.value.temps == s.temps[id := block] && r.value.latestTemp.Some?)
      && (id == s.ledger.last + 1 ==>
           match Adding(cfg)(s.ledger, block)
           case Err(e) => r == Err(e)
           case Ok(l) => r == Err(Aborted) || (r.Ok? && r.value.ledger.last >= id))
  {
    hide AddBlock, LinkLoop, Waits, LinkedPast;
    AddNeverRefusesId(cfg, s.ledger, block.updates, block.deletes);
    if id == s.ledger.last + 1 && Adding(cfg)(s.ledger, block).Ok? {
      LinkAdvances(cfg, s.ledger, block);
      var s1 := s.(ledger := Adding(cfg)(s.ledger, block).value);
      if LinkLoop(Linked(cfg), s1, id + 1, LatestBlockId(s1)).Ok? {
        LinkLoopTemps(cfg, s1, id + 1, LatestBlockId(s1), 0);
      }
    }
  }

  // ---------- deleting at an end ----------

  /** Pruning is refused, as a failed assertion, exactly for an empty chain and the only block. */
  lemma {:induction false} PruneFailsIff(cfg: Config, l: Ledger)
    requires IdsOk(l)
    ensures DeleteGenesis(cfg, l).Err? <==> l.genesis == l.last
    ensures DeleteGenesis(cfg, l).Err? ==> DeleteGenesis(cfg, l) == Err(Aborted)
  {
    hide DiesWithGenesis;
    if l.genesis > 0 {
      KnownNode(l, l.genesis);
    }
  }

  /** A rollback never fails; of an empty chain it does nothing. */
  lemma {:induction false} RollbackNeverFails(cfg: Config, l: Ledger)
    requires IdsOk(l)
    ensures DeleteLast(cfg, l).Ok? && DeleteLast(cfg, l).value.tree == l.tree
    ensures l.last == 0 ==> DeleteLast(cfg, l).value == l
    ensures l.last > 0 ==>
      DeleteLast(cfg, l).value.last == (if l.genesis == l.last then 0 else l.last - 1)
      && DeleteLast(cfg, l).value.genesis == (if l.genesis == l.last then 0 else l.genesis)
  {
    hide DiesWithLast;
    if l.last > 0 {
      KnownNode(l, l.last);
    }
  }

  // ---------- deleteBlock ----------

  /** An id that the adapter knows of. */
  predicate Known(s: State, id: nat) {
    1 <= id <= LatestBlockId(s)
  }

  /** The block nodes after block id, at either end, is deleted: that one is gone and the others are the same. */
  ghost predicate RemovesNode(db: Db, db': Db, id: nat) {
    forall i: nat :: NodeAt(db', i) == if i == id then None else NodeAt(db, i)
  }

  lemma {:induction false} LastNodeGoes(cfg: Config, l: Ledger)
    requires IdsOk(l) && l.last > 0
    ensures DeleteLast(cfg, l).Ok? && RemovesNode(l.db, DeleteLast(cfg, l).value.db, l.last)
  {
    assert InRange(l.last, l.genesis, l.last) && BlockKey(l.last) in l.db;
    var db' := DeleteLast(cfg, l).value.db;
    forall i: nat
      ensures NodeAt(db', i) == if i == l.last then None else NodeAt(l.db, i)
    {
      assert Lookup(db', BlockKey(i)) == if i == l.last then None else Lookup(l.db, BlockKey(i));
    }
  }

  lemma {:induction false} FirstNodeGoes(cfg: Config, l: Ledger)
    requires IdsOk(l) && 0 < l.genesis < l.last
    ensures DeleteGenesis(cfg, l).Ok? && RemovesNode(l.db, DeleteGenesis(cfg, l).value.db, l.genesis)
  {
    assert InRange(l.genesis, l.genesis, l.last) && BlockKey(l.genesis) in l.db;
    var node, db' := NodeAt(l.db, l.genesis).value, DeleteGenesis(cfg, l).value.db;
    forall i: nat
      ensures NodeAt(db', i) == if i == l.genesis then None else NodeAt(l.db, i)
    {
      assert StaleKey(node.version, BlockKey(i)) !in l.db && NpStaleKey(l.genesis, BlockKey(i)) !in l.db;
      assert Lookup(db', BlockKey(i)) == if i == l.genesis then None else Lookup(l.db, BlockKey(i));
    }
  }

  /**
   * Of the ids the adapter knows of, deleteBlock refuses exactly those inside the chain or below it, and the only
   * block. Any other is removed, from the chain or from the waiting blocks, and nothing else is; unknown ids are
   * ignored.
   */
  lemma {:induction false} DeleteBlockExact(cfg: Config, s: State, id: nat)
    requires IdsOk(s.ledger)
    ensures var r, l := DeleteBlock(cfg, s, id), s.ledger;
      && (r == Err(InvalidArgument) <==> Known(s, id) && id < l.last && id != l.genesis)
      && (r == Err(LogicError) <==> Known(s, id) && id == l.genesis == l.last)
      && (r.Err? ==> r == Err(InvalidArgument) || r == Err(LogicError))
      && (r.Ok? && !Known(s, id) ==> r.value == s)
      && (r.Ok? && Known(s, id) && id > l.last ==>
           r.value == State(l, s.temps - {id}, LatestTemp(s.temps - {id})))
      && (r.Ok? && Known(s, id) && id <= l.last ==>
           r.value.temps == s.temps && RemovesNode(l.db, r.value.ledger.db, id) && NodeAt(l.db, id).Some?)
  {
    hide DeleteLast, DeleteGenesis, RemovesNode, NodeAt;
    var l := s.ledger;
    if Known(s, id) && id == l.last && id != l.genesis {
      LastNodeGoes(cfg, l);
      KnownNode(l, id);
    }
    if Known(s, id) && id == l.genesis && id < l.last {
      FirstNodeGoes(cfg, l);
      KnownNode(l, id);
    }
  }

  lemma {:induction false} KnownNode(l: Ledger, i: nat)
    requires IdsOk(l) && InRange(i, l.genesis, l.last)
    ensures NodeAt(l.db, i).Some?
  {
    assert BlockKey(i) in l.db;
  }

  /** While no block can be linked, every block is known, and after a normal return block id is stored nowhere. */
  lemma {:induction false} DeletedIsGone(cfg: Config, s: State, id: nat)
    requires IdsOk(s.ledger) && Settled(s)
    ensures var r, l := DeleteBlock(cfg, s, id), s.ledger;
      && (r == Err(InvalidArgument) <==> 1 <= id < l.last && id != l.genesis)
      && (r == Err(LogicError) <==> id == l.genesis == l.last > 0)
      && (r.Err? ==> r == Err(InvalidArgument) || r == Err(LogicError))
      && (r.Ok? && id > 0 ==> NodeAt(r.value.ledger.db, id).None? && id !in r.value.temps)
  {
    hide DeleteBlock, NodeAt;
    DeleteBlockExact(cfg, s, id);
    SettledKnows(s, id);
    if id > s.ledger.last {
      NothingBeyondLast(s.ledger, id);
    }
  }

  lemma {:induction false} SettledKnows(s: State, id: nat)
    requires Settled(s)
    ensures s.ledger.last <= LatestBlockId(s)
    ensures id > LatestBlockId(s) || id <= s.ledger.last ==> id !in s.temps
  {
    if s.temps != map[] {
      assert MaxOf(s.temps.Keys) in s.temps;
    }
  }

  lemma {:induction false} NothingBeyondLast(l: Ledger, i: nat)
    requires IdsOk(l) && i > l.last
    ensures NodeAt(l.db, i).None?
  {
    assert !InRange(i, l.genesis, l.last) && BlockKey(i) !in l.db;
  }

  // ---------- getRawBlock on the chain ----------

  /**
   * On any database, whatever is missing in it, a raw block that is returned lists exactly the keys of its node, every
   * key the node does not flag as deleted with a value; a value that is not found, or a node of another block, aborts.
   */
  lemma {:induction false} RawBlockComplete(cfg: Config, db: Db, temps: map<nat, RawBlock>, i: nat)
    requires NodeAt(db, i).Some?
    ensures var r, node := GetRawBlock(cfg, db, temps, i), NodeAt(db, i).value;
      && (r.Err? ==> r == Err(Aborted))
      && (r.Ok? ==>
           && node.id == i && r.value.updates.Keys !! r.value.deletes
           && r.value.updates.Keys + r.value.deletes == node.keys.Keys
           && (forall k :: k in node.keys && !node.keys[k] ==> k in r.value.updates)
           && r.value.parentDigest == node.parentDigest && r.value.stateHash == node.stateHash)
  {
    var r, node := GetRawBlock(cfg, db, temps, i), NodeAt(db, i).value;
    if r.Ok? {
      assert r.value.updates.Keys <= node.keys.Keys;
    }
  }

  // ---------- the blocks that wait ----------

  /** The block waiting under an id. */
  function Waits(temps: map<nat, RawBlock>, id: nat): Option<RawBlock> {
    if id in temps then Some(temps[id]) else None
  }

  /** A block stops waiting when the chain is linked past it. */
  function LinkedPast(was: Option<RawBlock>, id: nat, from: nat, to: nat): Option<RawBlock> {
    if from < id <= to then None else was
  }

  lemma {:induction false} LinkLoopTemps(cfg: Config, s: State, i: nat, latest: nat, id: nat)
    requires i == s.ledger.last + 1 && LinkLoop(Linked(cfg), s, i, latest).Ok?
    ensures var s' := LinkLoop(Linked(cfg), s, i, latest).value;
      && s.ledger.last <= s'.ledger.last
      && Waits(s'.temps, id) == LinkedPast(Waits(s.temps, id), id, s.ledger.last, s'.ledger.last)
    decreases latest + 1 - i
  {
    hide LinkBlock;
    if i <= latest && i in s.temps {
      LinkAdvances(cfg, s.ledger, s.temps[i]);
      var s1 := s.(ledger := Linked(cfg)(s.ledger, s.temps[i]).value, temps := s.temps - {i});
      LinkLoopTemps(cfg, s1, i + 1, latest, id);
    }
  }

  lemma {:induction false} LinkAdvances(cfg: Config, l: Ledger, b: RawBlock)
    ensures Linked(cfg)(l, b).Ok? ==> Linked(cfg)(l, b).value.last == l.last + 1
    ensures Adding(cfg)(l, b).Ok? ==> Adding(cfg)(l, b).value.last == l.last + 1
  {
    hide BlockUpdates;
  }

  lemma {:induction false} LinkUpToTemps(cfg: Config, s: State, n: nat, id: nat)
    ensures var s' := LinkUpTo(Adding(cfg), s, n);
      && s.ledger.last <= s'.ledger.last
      && Waits(s'.temps, id) == LinkedPast(Waits(s.temps, id), id, s.ledger.last, s'.ledger.last)
    decreases n
  {
    hide AddBlock;
    if n > 0 && CanStep(Adding(cfg), s) {
      LinkAdvances(cfg, s.ledger, s.temps[s.ledger.last + 1]);
      LinkUpToTemps(cfg, Step(Adding(cfg), s).value, n - 1, id);
    }
  }

  /** However often a start is interrupted, it takes from the waiting blocks exactly those it links. */
  lemma {:induction false} RestartsTemps(
    cfg: Config, l: Ledger, temps: map<nat, RawBlock>, restarts: seq<nat>, id: nat)
    requires RawOk(cfg, l) && TempsBeyond(temps) && Restarts(cfg, l.db, temps, restarts).Ok?
    ensures var s' := Restarts(cfg, l.db, temps, restarts).value;
      && l.last <= s'.ledger.last
      && Waits(s'.temps, id) == LinkedPast(Waits(temps, id), id, l.last, s'.ledger.last)
    decreases |restarts|
  {
    hide Load, LinkLoop, LinkUpTo, LatestTemp, LatestBlockId, RawOk, Carries, Keeps, Reloads;
    LoadKeepsRaw(cfg, l);
    var s := State(Load(l.db).value, temps, LatestTemp(temps));
    if restarts == [] {
      LinkLoopTemps(cfg, s, s.ledger.last + 1, LatestBlockId(s), id);
    } else {
      AddersOk(cfg);
      RawIds(cfg, s.ledger);
      LinkUpToSame(Adding(cfg), Linked(cfg), s, restarts[0]);
      LinkUpToTemps(cfg, s, restarts[0], id);
      LinkedInOrder(cfg, s, restarts[0]);
      var d := LinkUpTo(Linked(cfg), s, restarts[0]);
      RestartsTemps(cfg, d.ledger, d.temps, restarts[1..], id);
    }
  }

  lemma {:induction false} LinkedInOrder(cfg: Config, s: State, n: nat)
    requires RawOk(cfg, s.ledger) && TempsBeyond(s.temps)
    ensures RawOk(cfg, LinkUpTo(Adding(cfg), s, n).ledger) && TempsBeyond(LinkUpTo(Adding(cfg), s, n).temps)
  {
    hide RawOk, LinkUpTo, Keeps, KeepsBlocks;
    AddCarries(cfg, s.ledger.db);
    CarriesSelf(cfg, s.ledger);
    LinkUpToKeeps(cfg, l => Carries(cfg, s.ledger.db, l), s, n);
  }

  /** What a call does to the block waiting under an id, from the calls and the reported last block alone. */
  function After(cfg: Config, s: State, op: Op, last': nat, id: nat, was: Option<RawBlock>): Option<RawBlock> {
    var last := s.ledger.last;
    match op
    case AddRawOp(b, i) =>
      if i > last + 1 then (if i == id then Some(b) else was) else LinkedPast(was, id, last + 1, last')
    case CrashOp(b, i, _, _) =>
      if i > last + 1 then LinkedPast(if i == id then Some(b) else was, id, last, last')
      else LinkedPast(was, id, if i == last + 1 && Adding(cfg)(s.ledger, b).Ok? then i else last, last')
    case RestartOp(_) => LinkedPast(was, id, last, last')
    case DeleteOp(i) => if i == id && last < id <= LatestBlockId(s) then None else was
    case _ => was
  }

  lemma {:induction false} StepTemps(cfg: Config, s: State, op: Op, id: nat)
    requires Sane(cfg, s) && Apply(cfg, s, op).Ok?
    ensures var s' := Apply(cfg, s, op).value;
      Waits(s'.temps, id) == After(cfg, s, op, s'.ledger.last, id, Waits(s.temps, id))
  {
    hide RawOk, AddBlock, Restarts, LinkLoop, LinkUpTo, DeleteLast, DeleteGenesis, LatestTemp, LatestBlockId;
    match op
    case AddRawOp(b, i) =>
      if i == s.ledger.last + 1 {
        LinkAdvances(cfg, s.ledger, b);
        var s1 := s.(ledger := Adding(cfg)(s.ledger, b).value);
        LinkLoopTemps(cfg, s1, i + 1, LatestBlockId(s1), id);
      }
    case RestartOp(restarts) => RestartsTemps(cfg, s.ledger, s.temps, restarts, id);
    case CrashOp(b, i, n, restarts) =>
      var d := Crashed(cfg, s, b, i, n);
      CrashedSane(cfg, s, b, i, n);
      RestartsTemps(cfg, d.ledger, d.temps, restarts, id);
      if i == s.ledger.last + 1 && Adding(cfg)(s.ledger, b).Ok? {
        LinkAdvances(cfg, s.ledger, b);
        LinkUpToTemps(cfg, s.(ledger := Adding(cfg)(s.ledger, b).value), n, id);
      }
    case _ =>
  }

  lemma {:induction false} CrashedSane(cfg: Config, s: State, b: RawBlock, i: nat, n: nat)
    requires Sane(cfg, s)
    ensures Sane(cfg, Crashed(cfg, s, b, i, n))
  {
    hide RawOk, AddBlock, LinkUpTo, Keeps, KeepsBlocks, Crashed;
    AddCarries(cfg, s.ledger.db);
    CarriesSelf(cfg, s.ledger);
    CrashedKeeps(cfg, l => Carries(cfg, s.ledger.db, l), s, b, i, n);
  }

  /** The block received last under an id that has neither been linked nor deleted since. */
  function Received(cfg: Config, s: State, ops: seq<Op>, id: nat, was: Option<RawBlock>): Option<RawBlock>
    decreases |ops|
  {
    if ops == [] then was
    else match Apply(cfg, s, ops[0])
      case Ok(s') => Received(cfg, s', ops[1..], id, After(cfg, s, ops[0], s'.ledger.last, id, was))
      case Err(_) => Received(cfg, s, ops[1..], id, was)
  }

  lemma {:induction false} WaitingOnEveryRun(cfg: Config, s: State, ops: seq<Op>, id: nat)
    requires Sane(cfg, s) && Run(cfg, s, ops).Some?
    ensures Waits(Run(cfg, s, ops).value.temps, id) == Received(cfg, s, ops, id, Waits(s.temps, id))
    decreases |ops|
  {
    hide Sane, Apply, After;
    if ops != [] {
      match Apply(cfg, s, ops[0])
      case Ok(s') =>
        StepKeepsRaw(cfg, s, ops[0]);
        StepTemps(cfg, s, ops[0], id);
        WaitingOnEveryRun(cfg, s', ops[1..], id);
      case Err(_) => WaitingOnEveryRun(cfg, s, ops[1..], id);
    }
  }

  /** Off the chain, getRawBlock answers from the blocks that wait. */
  lemma {:induction false} OffChainRead(cfg: Config, s: State, id: nat)
    requires IdsOk(s.ledger) && !InRange(id, s.ledger.genesis, s.ledger.last)
    ensures GetRawBlock(cfg, s.ledger.db, s.temps, id)
         == match Waits(s.temps, id) case Some(b) => Ok(b) case None => Err(NotFound)
  {
    assert BlockKey(id) !in s.ledger.db;
  }

  /**
   * On every run from the empty database, getRawBlock of an id outside [genesis, last] returns the block that was
   * received last under it as long as that waits, and NotFound if and only if none does.
   */
  lemma {:induction false} RawBlockOffChain(cfg: Config, s: State, ops: seq<Op>, id: nat)
    requires IsEmpty(s) && Run(cfg, s, ops).Some?
    requires !InRange(id, Run(cfg, s, ops).value.ledger.genesis, Run(cfg, s, ops).value.ledger.last)
    ensures GetRawBlock(cfg, Run(cfg, s, ops).value.ledger.db, Run(cfg, s, ops).value.temps, id)
         == match Received(cfg, s, ops, id, None) case Some(b) => Ok(b) case None => Err(NotFound)
  {
    hide Run, Received, GetRawBlock, Sane, IdsOk;
    EmptyIsSane(cfg, s);
    WaitingOnEveryRun(cfg, s, ops, id);
    IdsOnEveryRun(cfg, s, ops);
    OffChainRead(cfg, Run(cfg, s, ops).value, id);
  }

  /** In particular a block that has just been received and has to wait is read back. */
  lemma {:induction false} WaitingIsRead(cfg: Config, s: State, block: RawBlock, id: nat)
    requires IdsOk(s.ledger) && id > s.ledger.last + 1
    ensures Apply(cfg, s, AddRawOp(block, id)).Ok?
    ensures var s' := Apply(cfg, s, AddRawOp(block, id)).value;
      GetRawBlock(cfg, s'.ledger.db, s'.temps, id) == Ok(block)
  {
    hide GetRawBlock, AddBlock, LinkLoop, IdsOk;
    AddRawExact(cfg, s, block, id);
    OffChainRead(cfg, Apply(cfg, s, AddRawOp(block, id)).value, id);
  }
}
