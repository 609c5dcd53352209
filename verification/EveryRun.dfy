/** Raw blocks and the hash chain over every run, whatever it deletes, rolls back or crashes in. */
module EveryRun {
  import opened Common
  import opened SparseTree
  import opened AdapterSpec
  import opened Linking
  import opened Recovery
  import opened Crashes
  import opened RawChain
  import opened AdapterRuns

  // ---------- linking ----------

  /** Temporary blocks never wait for the first place. */
  predicate TempsBeyond(temps: map<nat, RawBlock>) {
    forall i :: i in temps ==> i >= 2
  }

  /** A property of ledgers whose ids are in order that reloading the tree root keeps. */
  ghost predicate Reloads(good: Ledger -> bool) {
    forall l: Ledger :: good(l) ==>
      IdsOk(l) && (Load(l.db).Ok? ==> Load(l.db).value == l.(tree := Load(l.db).value.tree) && good(Load(l.db).value))
  }

  /** The linking loop keeps what adding a block keeps, whatever else waits. */
  lemma {:induction false} LinkLoopKeeps(cfg: Config, good: Ledger -> bool, s: State, i: nat, latest: nat)
    requires Keeps(Adding(cfg), good) && good(s.ledger) && (s.ledger.genesis != 0 || i !in s.temps)
    requires LinkLoop(Linked(cfg), s, i, latest).Ok?
    ensures good(LinkLoop(Linked(cfg), s, i, latest).value.ledger)
    ensures LinkLoop(Linked(cfg), s, i, latest).value.temps.Keys <= s.temps.Keys
    decreases latest + 1 - i
  {
    hide AddBlock, LinkBlock;
    AddersOk(cfg);
    if i <= latest && i in s.temps {
      assert Linked(cfg)(s.ledger, s.temps[i]) == Adding(cfg)(s.ledger, s.temps[i]);
      var s' := s.(ledger := Adding(cfg)(s.ledger, s.temps[i]).value, temps := s.temps - {i});
      LinkLoopKeeps(cfg, good, s', i + 1, latest);
    }
  }

  lemma {:induction false} LinkUpToKeeps(cfg: Config, good: Ledger -> bool, s: State, n: nat)
    requires Keeps(Adding(cfg), good) && good(s.ledger)
    ensures var d := LinkUpTo(Adding(cfg), s, n);
      good(d.ledger) && d.temps.Keys <= s.temps.Keys
    decreases n
  {
    hide AddBlock;
    if n > 0 && CanStep(Adding(cfg), s) {
      LinkUpToKeeps(cfg, good, Step(Adding(cfg), s).value, n - 1);
    }
  }

  /** What is loaded, with nothing to link unless there is a chain. */
  lemma {:induction false} Loaded(good: Ledger -> bool, l: Ledger, temps: map<nat, RawBlock>)
    requires Reloads(good) && good(l) && TempsBeyond(temps) && Load(l.db).Ok?
    ensures var l' := Load(l.db).value;
      good(l') && (l'.genesis != 0 || l'.last + 1 !in temps)
  {
    hide Load;
    assert IdsOk(l);
  }

  /** However often a start is interrupted, what adding and reloading keep is kept. */
  lemma {:induction false} RestartsKeep(
    cfg: Config, good: Ledger -> bool, l: Ledger, temps: map<nat, RawBlock>, restarts: seq<nat>)
    requires Keeps(Adding(cfg), good) && Reloads(good) && good(l) && TempsBeyond(temps)
    requires Restarts(cfg, l.db, temps, restarts).Ok?
    ensures var s := Restarts(cfg, l.db, temps, restarts).value;
      good(s.ledger) && TempsBeyond(s.temps)
    decreases |restarts|
  {
    hide Load, LinkLoop, LinkUpTo, LatestTemp, LatestBlockId, Reloads, Keeps;
    Loaded(good, l, temps);
    var s := State(Load(l.db).value, temps, LatestTemp(temps));
    if restarts == [] {
      LinkLoopKeeps(cfg, good, s, s.ledger.last + 1, LatestBlockId(s));
    } else {
      AddersOk(cfg);
      LinkUpToSame(Adding(cfg), Linked(cfg), s, restarts[0]);
      LinkUpToKeeps(cfg, good, s, restarts[0]);
      var d := LinkUpTo(Linked(cfg), s, restarts[0]);
      RestartsKeep(cfg, good, d.ledger, d.temps, restarts[1..]);
    }
  }

  /** What a crash inside addRawBlock leaves on disk. */
  lemma {:induction false} CrashedKeeps(cfg: Config, good: Ledger -> bool, s: State, block: RawBlock, id: nat, n: nat)
    requires Keeps(Adding(cfg), good) && good(s.ledger) && TempsBeyond(s.temps)
    ensures var d := Crashed(cfg, s, block, id, n);
      good(d.ledger) && TempsBeyond(d.temps)
  {
    hide AddBlock, LinkUpTo;
    if id == s.ledger.last + 1 && Adding(cfg)(s.ledger, block).Ok? {
      LinkUpToKeeps(cfg, good, s.(ledger := Adding(cfg)(s.ledger, block).value), n);
    }
  }

  lemma {:induction false} ReceiveKeeps(cfg: Config, good: Ledger -> bool, s: State, block: RawBlock, id: nat)
    requires Keeps(Adding(cfg), good) && good(s.ledger) && TempsBeyond(s.temps) && AddRawBlock(cfg, s, block, id).Ok?
    ensures var s' := AddRawBlock(cfg, s, block, id).value;
      good(s'.ledger) && TempsBeyond(s'.temps)
  {
    hide AddBlock, LinkBlock, LinkLoop;
    if id == s.ledger.last + 1 {
      AddersOk(cfg);
      var s1 := s.(ledger := Adding(cfg)(s.ledger, block).value);
      LinkLoopKeeps(cfg, good, s1, id + 1, LatestBlockId(s1));
    }
  }

  /** An operation that deletes no block keeps what adding and reloading keep. */
  lemma {:induction false} GrowingStepKeeps(cfg: Config, good: Ledger -> bool, s: State, op: Op)
    requires Keeps(Adding(cfg), good) && Reloads(good) && good(s.ledger) && TempsBeyond(s.temps)
    requires !op.DeleteOp? && !op.DeleteLastOp? && Apply(cfg, s, op).Ok?
    ensures good(Apply(cfg, s, op).value.ledger) && TempsBeyond(Apply(cfg, s, op).value.temps)
  {
    hide AddBlock, AddRawWith, Restarts, Crashed, Reloads;
    match op
    case AddOp(updates, deletes) =>
      assert good(Adding(cfg)(s.ledger, RawBlock(updates, deletes, ZeroDigest, StateHash(map[]))).value);
    case AddRawOp(block, id) => ReceiveKeeps(cfg, good, s, block, id);
    case RestartOp(restarts) => RestartsKeep(cfg, good, s.ledger, s.temps, restarts);
    case CrashOp(block, id, links, restarts) =>
      CrashedKeeps(cfg, good, s, block, id, links);
      var d := Crashed(cfg, s, block, id, links);
      RestartsKeep(cfg, good, d.ledger, d.temps, restarts);
  }

  // ---------- the blocks of a database stay ----------

  /** The ledger is in order and still has every block of a database. */
  ghost predicate Carries(cfg: Config, db: Db, l: Ledger) {
    RawOk(cfg, l) && KeepsBlocks(cfg, db, l.db)
  }

  lemma {:induction false} AddCarries(cfg: Config, db: Db)
    ensures Keeps(Adding(cfg), l => Carries(cfg, db, l))
  {
    hide RawOk, GetRawBlock, NodeAt, AddBlock;
    forall l: Ledger, b: RawBlock | Carries(cfg, db, l) && Adding(cfg)(l, b).Ok?
      ensures Carries(cfg, db, Adding(cfg)(l, b).value)
    {
      AddKeepsRaw(cfg, l, b);
    }
  }

  /** Loading the root changes nothing but the cached tree, which is that of the last block. */
  lemma {:induction false} LoadKeepsRaw(cfg: Config, l: Ledger)
    requires RawOk(cfg, l) && Load(l.db).Ok?
    ensures Load(l.db).value == l.(tree := Load(l.db).value.tree) && RawOk(cfg, Load(l.db).value)
  {
    hide NodeOk, Apart, DigestOk, RootsOk, StalesOk, NpIndexOk, LeavesOk, RootNodesOk, GetRawBlock, LatestRoot,
         LoadLast, LoadGenesis;
    LoadedSynced(l);
    CachedIdsReload(l);
    ReadRootOk(l.db, l.last);
    var l' := Load(l.db).value;
    forall i: nat, j: nat | i <= j && NodeAt(l.db, i).Some? && NodeAt(l.db, j).Some?
      ensures NodeAt(l.db, i).value.version <= NodeAt(l.db, j).value.version <= l'.tree.version
    {
      assert BlockKey(j) in l.db;
      assert InRange(j, l.genesis, l.last) && BlockKey(l.last) in l.db;
      assert NodeAt(l.db, l.last).Some?;
    }
  }

  lemma {:induction false} LoadCarries(cfg: Config, db: Db)
    ensures Reloads(l => Carries(cfg, db, l))
  {
    hide RawOk, Load, KeepsBlocks;
    forall l: Ledger | Carries(cfg, db, l)
      ensures IdsOk(l)
      ensures Load(l.db).Ok? ==>
        Load(l.db).value == l.(tree := Load(l.db).value.tree) && Carries(cfg, db, Load(l.db).value)
    {
      RawIds(cfg, l);
      if Load(l.db).Ok? {
        LoadKeepsRaw(cfg, l);
      }
    }
  }

  lemma {:induction false} RawIds(cfg: Config, l: Ledger)
    requires RawOk(cfg, l)
    ensures IdsOk(l) && RootsOk(l.db)
  {
  }

  lemma {:induction false} CarriesSelf(cfg: Config, l: Ledger)
    requires RawOk(cfg, l)
    ensures Carries(cfg, l.db, l)
  {
  }

  lemma {:induction false} CarriedIsSame(cfg: Config, db: Db, l: Ledger)
    requires Carries(cfg, db, l)
    ensures RawOk(cfg, l) && SameRaw(cfg, db, l.db)
  {
    hide RawOk, GetRawBlock, NodeAt;
  }

  // ---------- one operation ----------

  lemma {:induction false} DeleteBlockKeepsRaw(cfg: Config, s: State, id: nat)
    requires RawOk(cfg, s.ledger) && DeleteBlock(cfg, s, id).Ok?
    ensures RawOk(cfg, DeleteBlock(cfg, s, id).value.ledger)
    ensures SameRaw(cfg, s.ledger.db, DeleteBlock(cfg, s, id).value.ledger.db)
    ensures DeleteBlock(cfg, s, id).value.temps.Keys <= s.temps.Keys
  {
    hide RawOk, GetRawBlock, NodeAt, DeleteLast, DeleteGenesis, LatestTemp;
    if DeleteLast(cfg, s.ledger).Ok? {
      RollbackKeepsRaw(cfg, s.ledger);
    }
    if DeleteGenesis(cfg, s.ledger).Ok? {
      PruneKeepsRaw(cfg, s.ledger);
    }
  }

  /** A state of a run: a ledger in order, and temporary blocks beyond the first place. */
  ghost predicate Sane(cfg: Config, s: State) {
    RawOk(cfg, s.ledger) && TempsBeyond(s.temps)
  }

  /** Every operation keeps the invariant, and no block that it leaves on the chain is rebuilt differently. */
  lemma {:induction false} StepKeepsRaw(cfg: Config, s: State, op: Op)
    requires Sane(cfg, s) && Apply(cfg, s, op).Ok?
    ensures Sane(cfg, Apply(cfg, s, op).value)
    ensures SameRaw(cfg, s.ledger.db, Apply(cfg, s, op).value.ledger.db)
  {
    hide RawOk, SameRaw, Carries, DeleteLast, AddBlock, AddRawWith, DeleteBlock, Restarts, Crashed, Keeps, Reloads;
    if op.DeleteOp? {
      DeleteBlockKeepsRaw(cfg, s, op.id);
    } else if op.DeleteLastOp? {
      RollbackKeepsRaw(cfg, s.ledger);
    } else {
      var db := s.ledger.db;
      AddCarries(cfg, db);
      LoadCarries(cfg, db);
      CarriesSelf(cfg, s.ledger);
      GrowingStepKeeps(cfg, l => Carries(cfg, db, l), s, op);
      CarriedIsSame(cfg, db, Apply(cfg, s, op).value.ledger);
    }
  }

  // ---------- runs ----------

  lemma {:induction false} EmptyIsSane(cfg: Config, s: State)
    requires IsEmpty(s)
    ensures Sane(cfg, s)
  {
  }

  lemma {:induction false} RunKeepsRaw(cfg: Config, s: State, ops: seq<Op>)
    requires Sane(cfg, s) && Run(cfg, s, ops).Some?
    ensures Sane(cfg, Run(cfg, s, ops).value)
    decreases |ops|
  {
    hide Sane, Apply;
    if ops != [] {
      if Apply(cfg, s, ops[0]).Ok? {
        StepKeepsRaw(cfg, s, ops[0]);
        RunKeepsRaw(cfg, Apply(cfg, s, ops[0]).value, ops[1..]);
      } else {
        RunKeepsRaw(cfg, s, ops[1..]);
      }
    }
  }

  /** On every run the block nodes are exactly [genesis, last], and the cached ids are what a restart would load. */
  lemma {:induction false} IdsOnEveryRun(cfg: Config, s: State, ops: seq<Op>)
    requires IsEmpty(s) && Run(cfg, s, ops).Some?
    ensures var l := Run(cfg, s, ops).value.ledger;
      IdsOk(l) && LoadGenesis(l.db) == l.genesis && LoadLast(l.db) == l.last
  {
    hide Run, RawOk, LoadGenesis, LoadLast, IdsOk;
    EmptyIsSane(cfg, s);
    RunKeepsRaw(cfg, s, ops);
    RawIds(cfg, Run(cfg, s, ops).value.ledger);
    CachedIdsReload(Run(cfg, s, ops).value.ledger);
  }

  /** On every run each stored root has exactly the internal nodes that its keys call for. */
  lemma {:induction false} NodesOnEveryRun(cfg: Config, s: State, ops: seq<Op>, w: nat)
    requires IsEmpty(s) && Run(cfg, s, ops).Some?
    ensures var root := RootAt(Run(cfg, s, ops).value.ledger.db, w);
      root.Some? ==> root.value.version == w && TreeOk(root.value) && NodesExact(cfg.hashPath, root.value)
  {
    hide Run, TreeOk, NodesExact, IdsOk, StalesOk, NpIndexOk, VersionsOk, LeavesOk, NodeOk, Apart, DigestOk;
    EmptyIsSane(cfg, s);
    RunKeepsRaw(cfg, s, ops);
  }

  /**
   * The hash chain on every run from the empty database, whatever the run adds, receives, deletes,
   * rolls back, prunes or crashes in: every block on the chain is rebuilt, and each above the genesis
   * block stores the digest of its rebuilt parent.
   */
  lemma {:induction false} HashChainOnEveryRun(cfg: Config, s: State, ops: seq<Op>, i: nat)
    requires IsEmpty(s) && Run(cfg, s, ops).Some?
    ensures var end := Run(cfg, s, ops).value;
      1 <= i && end.ledger.genesis <= i <= end.ledger.last ==>
        var raw := GetRawBlock(cfg, end.ledger.db, end.temps, i);
        && raw.Ok?
        && (end.ledger.genesis < i ==>
             var parent := GetRawBlock(cfg, end.ledger.db, end.temps, i - 1);
             && parent.Ok?
             && NodeAt(end.ledger.db, i).Some?
             && NodeAt(end.ledger.db, i).value.parentDigest == DigestOf(i - 1, parent.value)
             && raw.value.parentDigest == DigestOf(i - 1, parent.value))
  {
    hide Run, GetRawBlock, RawOk;
    EmptyIsSane(cfg, s);
    RunKeepsRaw(cfg, s, ops);
    var end := Run(cfg, s, ops).value;
    if 1 <= i && end.ledger.genesis <= i <= end.ledger.last {
      RawIds(cfg, end.ledger);
      assert InRange(i, end.ledger.genesis, end.ledger.last) && BlockKey(i) in end.ledger.db;
      RawHashChain(cfg, end.ledger, end.temps, i);
    }
  }

  /** Block i is on the chain before and after every operation of a run. */
  predicate StaysOn(cfg: Config, s: State, ops: seq<Op>, i: nat)
    decreases |ops|
  {
    && NodeAt(s.ledger.db, i).Some?
    && (ops != [] ==>
         match Apply(cfg, s, ops[0])
         case Ok(s') => StaysOn(cfg, s', ops[1..], i)
         case Err(e) => Ends(ops[0], e) || StaysOn(cfg, s, ops[1..], i))
  }

  /** On every run, a block is rebuilt the same for as long as it is on the chain. */
  lemma {:induction false} RawBlocksNeverChange(cfg: Config, s: State, ops: seq<Op>, i: nat)
    requires Sane(cfg, s) && Run(cfg, s, ops).Some? && StaysOn(cfg, s, ops, i)
    ensures GetRawBlock(cfg, Run(cfg, s, ops).value.ledger.db, Run(cfg, s, ops).value.temps, i)
         == GetRawBlock(cfg, s.ledger.db, s.temps, i)
    decreases |ops|
  {
    hide Sane, Apply, NodeAt, BlockKeyValue;
    if ops != [] {
      if Apply(cfg, s, ops[0]).Ok? {
        var s' := Apply(cfg, s, ops[0]).value;
        StepKeepsRaw(cfg, s, ops[0]);
        RawBlocksNeverChange(cfg, s', ops[1..], i);
        OnChainRaw(cfg, s, s', ops, i);
      } else {
        RawBlocksNeverChange(cfg, s, ops[1..], i);
      }
    }
  }

  lemma {:induction false} OnChainRaw(cfg: Config, s: State, s': State, ops: seq<Op>, i: nat)
    requires NodeAt(s.ledger.db, i).Some? && ops != [] && StaysOn(cfg, s', ops[1..], i)
    requires SameRaw(cfg, s.ledger.db, s'.ledger.db)
    ensures GetRawBlock(cfg, s'.ledger.db, s'.temps, i) == GetRawBlock(cfg, s.ledger.db, s.temps, i)
  {
    hide BlockKeyValue;
    assert RawAt(cfg, s'.ledger.db, i) == RawAt(cfg, s.ledger.db, i);
  }

  /** A block added at any point of a run is rebuilt as it was added for as long as it is on the chain. */
  lemma {:induction false} AddedBlockForGood(
    cfg: Config, s: State, updates: map<Key, Value>, deletes: set<Key>, ops: seq<Op>)
    requires Sane(cfg, s) && Apply(cfg, s, AddOp(updates, deletes)).Ok?
    requires var s1 := Apply(cfg, s, AddOp(updates, deletes)).value;
      Run(cfg, s1, ops).Some? && StaysOn(cfg, s1, ops, s.ledger.last + 1)
    ensures var s1 := Apply(cfg, s, AddOp(updates, deletes)).value;
      var end := Run(cfg, s1, ops).value;
      var raw := GetRawBlock(cfg, end.ledger.db, end.temps, s.ledger.last + 1);
      && raw.Ok? && raw.value.updates == updates
      && raw.value.deletes == ActuallyDeleted(s.ledger.db, s.ledger.tree.version, deletes - updates.Keys)
      && raw.value.stateHash == StateHash(s1.ledger.tree.vals)
  {
    hide RawOk, Run, StaysOn, AddBlock, ActuallyDeleted;
    StepKeepsRaw(cfg, s, AddOp(updates, deletes));
    var s1 := Apply(cfg, s, AddOp(updates, deletes)).value;
    RawBlocksNeverChange(cfg, s1, ops, s.ledger.last + 1);
    RebuiltAsAdded(cfg, s.ledger, updates, deletes);
    OnChainIs(cfg, s1, ops, s.ledger.last + 1);
  }

  lemma {:induction false} OnChainIs(cfg: Config, s: State, ops: seq<Op>, i: nat)
    requires StaysOn(cfg, s, ops, i)
    ensures GetRawBlock(cfg, s.ledger.db, s.temps, i) == RawAt(cfg, s.ledger.db, i)
  {
    hide BlockKeyValue, Apply;
  }

  // ---------- pruning ----------

  /**
   * On every run pruning changes no raw block after the genesis block and not the latest root,
   * whatever was deleted or rolled back before.
   */
  lemma {:induction false} PruningKeepsRawBlocks(cfg: Config, s: State, ops: seq<Op>, i: nat)
    requires IsEmpty(s) && Run(cfg, s, ops).Some?
    requires DeleteGenesis(cfg, Run(cfg, s, ops).value.ledger).Ok?
    ensures var end := Run(cfg, s, ops).value;
      var pruned := DeleteGenesis(cfg, end.ledger).value;
      && (end.ledger.genesis < i <= end.ledger.last ==>
           && GetRawBlock(cfg, end.ledger.db, end.temps, i).Ok?
           && GetRawBlock(cfg, pruned.db, end.temps, i) == GetRawBlock(cfg, end.ledger.db, end.temps, i))
      && LatestRoot(pruned.db, end.ledger.last) == LatestRoot(end.ledger.db, end.ledger.last)
  {
    hide Run, GetRawBlock, RawOk, LatestRoot, DeleteGenesis;
    EmptyIsSane(cfg, s);
    RunKeepsRaw(cfg, s, ops);
    var end := Run(cfg, s, ops).value;
    var pruned := DeleteGenesis(cfg, end.ledger).value;
    PruneKeepsRaw(cfg, end.ledger);
    PruneKeepsRoot(cfg, end.ledger);
    PrunedIds(cfg, end.ledger);
    if end.ledger.genesis < i <= end.ledger.last {
      RawHashChain(cfg, end.ledger, end.temps, i);
      RawHashChain(cfg, pruned, end.temps, i);
      RawIds(cfg, end.ledger);
      RawIds(cfg, pruned);
      assert InRange(i, end.ledger.genesis, end.ledger.last) && BlockKey(i) in end.ledger.db;
      assert InRange(i, pruned.genesis, pruned.last) && BlockKey(i) in pruned.db;
      assert NodeAt(end.ledger.db, i).Some? && NodeAt(pruned.db, i).Some?;
    }
  }

  lemma {:induction false} PrunedIds(cfg: Config, l: Ledger)
    requires DeleteGenesis(cfg, l).Ok?
    ensures DeleteGenesis(cfg, l).value.last == l.last && DeleteGenesis(cfg, l).value.genesis == l.genesis + 1
  {
  }

  lemma {:induction false} PruneKeepsRoot(cfg: Config, l: Ledger)
    requires RawOk(cfg, l) && DeleteGenesis(cfg, l).Ok?
    ensures LatestRoot(DeleteGenesis(cfg, l).value.db, l.last) == LatestRoot(l.db, l.last)
  {
    hide NodeOk, Apart, DigestOk, RootsOk, GetRawBlock;
    var first := NodeAt(l.db, l.genesis).value;
    assert BlockKey(l.genesis) in l.db;
    assert InRange(l.last, l.genesis, l.last) && BlockKey(l.last) in l.db;
    var node := NodeAt(l.db, l.last).value;
    assert first.version <= node.version;
    assert StaleKey(first.version, BlockKey(l.last)) !in l.db && NpStaleKey(l.genesis, BlockKey(l.last)) !in l.db;
    var root := InternalKey(node.version, []);
    assert StaleKey(first.version, root) !in l.db && NpStaleKey(l.genesis, root) !in l.db;
  }
}
