/** Runs from the empty database into the cases that the exact conditions shut out. */
module Witnesses {
  import opened Common
  import opened SparseTree
  import opened AdapterSpec
  import opened ChainView
  import opened Reading
  import opened Growth
  import opened OnlyBlock
  import opened Pruning
  import opened Rollback
  import opened Linking
  import opened Recovery
  import opened Crashes
  import opened RawChain
  import opened AdapterRuns
  import opened Export
  import opened Import
  import opened RepeatedDelete
  import opened PrunedReads

  lemma {:induction false} RunCons(cfg: Config, s: State, op: Op, ops: seq<Op>)
    requires Apply(cfg, s, op).Ok?
    ensures Run(cfg, s, [op] + ops) == Run(cfg, Apply(cfg, s, op).value, ops)
  {
    hide Apply;
    assert ([op] + ops)[1..] == ops;
  }

  lemma {:induction false} RunTwo(cfg: Config, s: State, s1: State, s2: State, a: Op, b: Op, ops: seq<Op>)
    requires Apply(cfg, s, a) == Ok(s1) && Apply(cfg, s1, b) == Ok(s2)
    ensures Run(cfg, s, [a, b] + ops) == Run(cfg, s2, ops)
  {
    hide Apply, Run;
    RunCons(cfg, s, a, [b] + ops);
    RunCons(cfg, s1, b, ops);
    assert [a, b] + ops == [a] + ([b] + ops);
  }

  lemma {:induction false} RunThree(
    cfg: Config, s: State, s1: State, s2: State, s3: State, a: Op, b: Op, d: Op, ops: seq<Op>)
    requires Apply(cfg, s, a) == Ok(s1) && Apply(cfg, s1, b) == Ok(s2) && Apply(cfg, s2, d) == Ok(s3)
    ensures Run(cfg, s, [a, b, d] + ops) == Run(cfg, s3, ops)
  {
    hide Apply, Run;
    RunTwo(cfg, s, s1, s2, a, b, [d] + ops);
    RunCons(cfg, s2, d, ops);
    assert [a, b, d] + ops == [a, b] + ([d] + ops);
  }

  /** A state that stands for a chain, with nothing waiting and the chain's own tree cached. */
  ghost predicate Stands(cfg: Config, s: State, c: Chain) {
    Represents(cfg, s, View(c, s.ledger.genesis, map[])) && s.ledger.tree == LastTree(c)
  }

  lemma {:induction false} EmptyStands(cfg: Config, s: State)
    requires IsEmpty(s)
    ensures Stands(cfg, s, []) && s.ledger.genesis == 0
  {
    EmptyRepresents(cfg, s);
  }

  lemma {:induction false} AddStands(cfg: Config, s: State, c: Chain, updates: map<Key, Value>, deletes: set<Key>)
    requires Stands(cfg, s, c) && deletes !! cfg.nonProvable && DeletesLive(s.ledger, updates, deletes)
    ensures var r := Apply(cfg, s, AddOp(updates, deletes));
      && r.Ok? && Stands(cfg, r.value, Extend(cfg, c, EffectiveBlk(c, updates, deletes)))
      && r.value.ledger.genesis == GenesisAfterAdd(s.ledger.genesis)
  {
    hide ChainOk, Holds, AddBlock;
    AddBlockExtends(cfg, s.ledger, c, updates, deletes);
  }

  /** A block that writes one provable key. */
  function Single(cfg: Config, c: Chain, k: Key, x: Value): Chain {
    Extend(cfg, c, Blk(map[k := x], {}))
  }

  lemma {:induction false} AddSingle(cfg: Config, s: State, c: Chain, k: Key, x: Value)
    requires Stands(cfg, s, c) && k !in cfg.nonProvable
    ensures var r := Apply(cfg, s, AddOp(map[k := x], {}));
      && r.Ok? && Stands(cfg, r.value, Single(cfg, c, k, x)) && |Single(cfg, c, k, x)| == |c| + 1
      && r.value.ledger.genesis == GenesisAfterAdd(s.ledger.genesis)
    ensures var t := LastTree(Single(cfg, c, k, x));
      && k in t.vals && t.vals[k] == x
      && HasItem(t, LeafItem(k), t.version) && t.version == LastTree(c).version + 1
  {
    hide Apply, ChainOk, Holds;
    assert EffectiveBlk(c, map[k := x], {}) == Blk(map[k := x], {});
    AddStands(cfg, s, c, map[k := x], {});
    var ups := map[k := x] - cfg.nonProvable;
    assert k in ups;
    TreesOk(cfg, c, |c|);
    assert TreeAt(c, |c|) == LastTree(c);
    UpdateFollows(cfg.hashPath, LastTree(c), ups, {});
    assert k in Touched(LastTree(c), ups, {});
    UpdatedVal(cfg, LastTree(c), ups, {}, k);
  }

  // ---------- rolling back the only block of a pruned chain ----------

  /** Two blocks, of which the first is pruned. */
  lemma {:induction false} TwoThenPrune(
    cfg: Config, s: State, k: Key, x: Value, l: Key, y: Value, ops: seq<Op>) returns (s': State)
    requires IsEmpty(s) && k !in cfg.nonProvable && l !in cfg.nonProvable
    ensures Inv(cfg, s'.ledger, Single(cfg, Single(cfg, [], k, x), l, y)) && s'.ledger.genesis == 2
    ensures Run(cfg, s, [AddOp(map[k := x], {}), AddOp(map[l := y], {}), DeleteOp(1)] + ops) == Run(cfg, s', ops)
  {
    hide Run, Inv, Apply, Stands, Single, IsEmpty;
    var c1 := Single(cfg, [], k, x);
    EmptyStands(cfg, s);
    AddSingle(cfg, s, [], k, x);
    var s1 := Apply(cfg, s, AddOp(map[k := x], {})).value;
    AddSingle(cfg, s1, c1, l, y);
    var s2 := Apply(cfg, s1, AddOp(map[l := y], {})).value;
    PruneFirst(cfg, s2, Single(cfg, c1, l, y));
    s' := Apply(cfg, s2, DeleteOp(1)).value;
    RunThree(cfg, s, s1, s2, s', AddOp(map[k := x], {}), AddOp(map[l := y], {}), DeleteOp(1), ops);
  }

  lemma {:induction false} PruneFirst(cfg: Config, s: State, c: Chain)
    requires Stands(cfg, s, c) && s.ledger.genesis == 1 && |c| > 1
    ensures var r := Apply(cfg, s, DeleteOp(1));
      && r.Ok? && Inv(cfg, r.value.ledger, c) && r.value.ledger.genesis == 2
      && r.value.latestTemp == None
  {
    hide ChainOk, Holds, DeleteGenesis;
    DeleteGenesisPrunes(cfg, s.ledger, c);
  }

  /**
   * A run after which the chain has one block, which wrote only l, and yet k is read back at it with
   * the value of a block that was pruned.
   */
  lemma {:induction false} StrayRun(cfg: Config, s: State, k: Key, x: Value, l: Key, y: Value, z: Value)
    requires IsEmpty(s) && k !in cfg.nonProvable && l !in cfg.nonProvable && k != l
    ensures var end := Run(cfg, s,
        [AddOp(map[k := x], {}), AddOp(map[l := y], {}), DeleteOp(1)] + [DeleteLastOp, AddOp(map[l := z], {})]);
      && end.Some? && end.value.ledger.genesis == end.value.ledger.last == 1
      && GetValue(cfg, end.value.ledger.db, k, 1).Ok?
      && ReadHistory(FirstBlock(cfg, l, z), k, 1) == Err(NotFound)
  {
    hide Run, ChainOk, Holds, GetValue, ReadHistory, DeleteLast, AddBlock, Update, IsEmpty;
    var last2 := [DeleteLastOp, AddOp(map[l := z], {})];
    var s3 := TwoThenPrune(cfg, s, k, x, l, y, last2);
    var c1 := Single(cfg, [], k, x);
    var c2 := Single(cfg, c1, l, y);
    EmptyStands(cfg, s);
    AddSingle(cfg, s, [], k, x);
    assert c2 == c1 + [c2[1]];
    StrayValueRead(cfg, s3.ledger, c1, c2[1], k, l, z);
    var s4 := s3.(ledger := DeleteLast(cfg, s3.ledger).value);
    var s5 := s4.(ledger := AddBlock(cfg, s4.ledger, map[l := z], {}).value);
    RunTwo(cfg, s3, s4, s5, DeleteLastOp, AddOp(map[l := z], {}), []);
    assert last2 + [] == last2;
    RunNothing(cfg, s5);
  }

  lemma {:induction false} RunNothing(cfg: Config, s: State)
    ensures Run(cfg, s, []) == Some(s)
  {
  }

  // ---------- deleting a key twice ----------

  /** After adding a key and deleting it, its leaf is dead. */
  lemma {:induction false} AddThenDelete(
    cfg: Config, s: State, k: Key, x: Value, ops: seq<Op>) returns (s': State, c: Chain)
    requires IsEmpty(s) && k !in cfg.nonProvable
    ensures |c| == 2 && Stands(cfg, s', c) && s'.ledger.genesis == 1 && DeadLeaf(s'.ledger, k)
    ensures c == Extend(cfg, Single(cfg, [], k, x), EffectiveBlk(Single(cfg, [], k, x), map[], {k}))
    ensures Run(cfg, s, [AddOp(map[k := x], {}), AddOp(map[], {k})] + ops) == Run(cfg, s', ops)
  {
    hide Run, Inv, Apply, Stands, Single, IsEmpty, DeadLeaf;
    var c1 := Single(cfg, [], k, x);
    EmptyStands(cfg, s);
    AddSingle(cfg, s, [], k, x);
    var s1 := Apply(cfg, s, AddOp(map[k := x], {})).value;
    DeletedIsDead(cfg, s1, c1, k);
    s' := Apply(cfg, s1, AddOp(map[], {k})).value;
    c := Extend(cfg, c1, EffectiveBlk(c1, map[], {k}));
    RunTwo(cfg, s, s1, s', AddOp(map[k := x], {}), AddOp(map[], {k}), ops);
  }

  /** Deleting a live key leaves a dead leaf. */
  lemma {:induction false} DeletedIsDead(cfg: Config, s: State, c: Chain, k: Key)
    requires Stands(cfg, s, c) && k in LastTree(c).vals && k !in cfg.nonProvable
    ensures var r := Apply(cfg, s, AddOp(map[], {k}));
      && r.Ok? && Stands(cfg, r.value, Extend(cfg, c, EffectiveBlk(c, map[], {k})))
      && r.value.ledger.genesis == GenesisAfterAdd(s.ledger.genesis) && DeadLeaf(r.value.ledger, k)
  {
    hide ChainOk, Holds, AddBlock, Update, MakePlan, ReadsRoot;
    var l := s.ledger;
    LiveFound(cfg, l, c, k);
    var w := LeafAtMost(l.db, k, l.tree.version).value;
    AddSucceeds(cfg, l, c, map[], {k});
    var plan := MakePlan(cfg, l, map[], {k}).value;
    assert k in plan.deleted;
    TreesOk(cfg, c, |c|);
    UpdateFollows(cfg.hashPath, LastTree(c), map[] - cfg.nonProvable, plan.deleted);
    assert k in Touched(LastTree(c), map[] - cfg.nonProvable, plan.deleted);
    AddStands(cfg, s, c, map[], {k});
    var l' := AddBlock(cfg, l, map[], {k}).value;
    AddedTree(cfg, l, map[], {k});
    forall u: nat
      ensures LeafAt(l'.db, k, u)
           == if u == w then Some(LeafAt(l.db, k, u).value.(deletedIn := Some(plan.id))) else LeafAt(l.db, k, u)
    {
      LeafAfterDelete(cfg, l, map[], {k}, plan, k, u);
    }
    LeafAtMostSame(l.db, l'.db, k, l.tree.version);
    CachedVersionHarmless(cfg, l.(tree := l'.tree), c, k);
    LeafAtMostSame(l.db, l'.db, k, l'.tree.version);
  }

  lemma {:induction false} AddedTree(cfg: Config, l: Ledger, updates: map<Key, Value>, deletes: set<Key>)
    requires MakePlan(cfg, l, updates, deletes).Ok?
    ensures AddBlock(cfg, l, updates, deletes).Ok?
    ensures AddBlock(cfg, l, updates, deletes).value.tree == MakePlan(cfg, l, updates, deletes).value.newTree
  {
    hide MakePlan, Writes;
  }

  /** A run that deletes a key twice: the second delete brings its value back at the block that deleted it first. */
  lemma {:induction false} RevivedRun(cfg: Config, s: State, k: Key, x: Value) returns (s': State, c: Chain)
    requires IsEmpty(s) && k !in cfg.nonProvable
    ensures Run(cfg, s, [AddOp(map[k := x], {}), AddOp(map[], {k})]) == Some(s')
    ensures |c| == 2 && Inv(cfg, s'.ledger, c) && DeadLeaf(s'.ledger, k) && ReadHistory(c, k, 2) == Err(NotFound)
    ensures var end := Run(cfg, s, [AddOp(map[k := x], {}), AddOp(map[], {k})] + [AddOp(map[], {k})]);
      && end.Some? && end.value.ledger.genesis == 1 && end.value.ledger.last == 3
      && GetValue(cfg, end.value.ledger.db, k, 2).Ok?
  {
    hide Run, ChainOk, Holds, GetValue, ReadHistory, AddBlock;
    s', c := AddThenDelete(cfg, s, k, x, []);
    DeadLeafIsDead(cfg, s'.ledger, c, k);
    RunNothing(cfg, s');
    assert [AddOp(map[k := x], {}), AddOp(map[], {k})] + [] == [AddOp(map[k := x], {}), AddOp(map[], {k})];
    var s2, c2 := AddThenDelete(cfg, s, k, x, [AddOp(map[], {k})]);
    DeadKeyRevived(cfg, s2.ledger, c2, map[], {k}, k);
    AddedLedger(cfg, s2.ledger, map[], {k});
    var s3 := s2.(ledger := AddBlock(cfg, s2.ledger, map[], {k}).value);
    RunCons(cfg, s2, AddOp(map[], {k}), []);
    assert [AddOp(map[], {k})] + [] == [AddOp(map[], {k})];
    RunNothing(cfg, s3);
  }

  // ---------- a crash after a rollback ----------

  /** Rolling back a block that wrote a provable key leaves the chain before it and the tree after it. */
  lemma {:induction false} RollbackSingle(cfg: Config, s: State, c: Chain, k: Key, y: Value)
    requires Stands(cfg, s, Single(cfg, c, k, y)) && k !in cfg.nonProvable && c != [] && s.ledger.genesis == 1
    requires LastTree(Single(cfg, c, k, y)).version > LastTree(c).version
    ensures var r := Apply(cfg, s, DeleteLastOp);
      && r.Ok? && Represents(cfg, r.value, View(c, 1, map[])) && r.value.ledger.tree != LastTree(c)
      && r.value.ledger.tree == LastTree(Single(cfg, c, k, y))
  {
    hide ChainOk, Holds, DeleteLast, Traceless, Update;
    var c' := Single(cfg, c, k, y);
    assert c' == c + [c'[|c|]];
    assert k in c'[|c|].blk.updates;
    assert Revertible(cfg, c'[|c|].blk, LastTree(c).version);
    RollbackKeepsInv(cfg, s.ledger, c, c'[|c|]);
    DeleteLastExact(cfg, s.ledger, c, c'[|c|]);
  }

  /** Two blocks, of which the second is rolled back: the tree of the second stays cached. */
  lemma {:induction false} AddThenRollback(
    cfg: Config, s: State, k: Key, x: Value, y: Value, ops: seq<Op>) returns (s': State)
    requires IsEmpty(s) && k !in cfg.nonProvable
    ensures var c := Single(cfg, [], k, x);
      && |c| == 1 && Represents(cfg, s', View(c, 1, map[])) && s'.ledger.tree != LastTree(c)
      && (x != y ==> s'.ledger.tree.vals != LastTree(c).vals)
    ensures Run(cfg, s, [AddOp(map[k := x], {}), AddOp(map[k := y], {}), DeleteLastOp] + ops) == Run(cfg, s', ops)
  {
    hide Run, Inv, Apply, Stands, Single, IsEmpty, Represents;
    var c := Single(cfg, [], k, x);
    EmptyStands(cfg, s);
    AddSingle(cfg, s, [], k, x);
    var s1 := Apply(cfg, s, AddOp(map[k := x], {})).value;
    AddSingle(cfg, s1, c, k, y);
    var s2 := Apply(cfg, s1, AddOp(map[k := y], {})).value;
    RollbackSingle(cfg, s2, c, k, y);
    s' := Apply(cfg, s2, DeleteLastOp).value;
    RunThree(cfg, s, s1, s2, s', AddOp(map[k := x], {}), AddOp(map[k := y], {}), DeleteLastOp, ops);
  }

  /**
   * A run that rolls back a block and then receives one that leaves the tree alone. The call itself
   * succeeds, but after a crash, or a restart, the adapter does not open any more.
   */
  lemma {:induction false} CrashRun(
    cfg: Config, s: State, k: Key, x: Value, y: Value, block: RawBlock, n: nat, restarts: seq<nat>)
    requires IsEmpty(s) && k !in cfg.nonProvable && block.updates == map[] && block.deletes == {}
    ensures var ops := [AddOp(map[k := x], {}), AddOp(map[k := y], {}), DeleteLastOp];
      && Run(cfg, s, ops + [AddRawOp(block, 2)]).Some?
      && Run(cfg, s, ops + [CrashOp(block, 2, n, restarts)]) == None
  {
    hide Run, Inv, Apply, Single, IsEmpty, Represents;
    var c := Single(cfg, [], k, x);
    var s1 := AddThenRollback(cfg, s, k, x, y, [AddRawOp(block, 2)]);
    StaleTreeLosesRoot(cfg, s1, c, 1, block, n, restarts);
    RunCons(cfg, s1, AddRawOp(block, 2), []);
    assert [AddRawOp(block, 2)] + [] == [AddRawOp(block, 2)];
    RunNothing(cfg, Apply(cfg, s1, AddRawOp(block, 2)).value);
    var s2 := AddThenRollback(cfg, s, k, x, y, [CrashOp(block, 2, n, restarts)]);
    StaleTreeLosesRoot(cfg, s2, c, 1, block, n, restarts);
    RunEnds(cfg, s2, CrashOp(block, 2, n, restarts));
  }

  /** With a tree cached that is not the chain's, a block that leaves the tree alone is taken, and no adapter opens on it. */
  lemma {:induction false} StaleTreeLosesRoot(
    cfg: Config, s: State, c: Chain, g: nat, block: RawBlock, n: nat, restarts: seq<nat>)
    requires Represents(cfg, s, View(c, g, map[])) && s.ledger.tree != LastTree(c)
    requires block.updates == map[] && block.deletes == {}
    ensures Apply(cfg, s, AddRawOp(block, |c| + 1)).Ok?
    ensures Apply(cfg, s, CrashOp(block, |c| + 1, n, restarts)) == Err(RuntimeError)
  {
    hide ChainOk, Holds, AddBlock, LinkBlock, Open, Restarts, Crashed;
    var l := s.ledger;
    RepresentsIds(cfg, l, c);
    AddSucceeds(cfg, l, c, map[], {});
    ReadsNothing(cfg, l);
    AddOk(cfg, l, map[], {});
    SyncedAfterAdd(cfg, l, c, map[], {});
    var s1 := s.(ledger := AddBlock(cfg, l, map[], {}).value);
    AddersOk(cfg);
    AddKeepsIds(cfg, l, block);
    NothingWaits(cfg, s, block, n);
    LostRootNotOpened(cfg, s1, 0);
    CrashRestartsRefine(cfg, s, View(c, g, map[]), block, |c| + 1, n, restarts);
  }

  lemma {:induction false} NothingWaits(cfg: Config, s: State, block: RawBlock, n: nat)
    requires s.temps == map[] && AddBlock(cfg, s.ledger, block.updates, block.deletes).Ok?
    ensures Crashed(cfg, s, block, s.ledger.last + 1, n)
         == s.(ledger := AddBlock(cfg, s.ledger, block.updates, block.deletes).value)
  {
    hide AddBlock;
  }

  lemma {:induction false} AddOk(cfg: Config, l: Ledger, updates: map<Key, Value>, deletes: set<Key>)
    requires MakePlan(cfg, l, updates, deletes).Ok?
    ensures AddBlock(cfg, l, updates, deletes).Ok?
  {
  }

  lemma {:induction false} ReadsNothing(cfg: Config, l: Ledger)
    ensures !ReadsRoot(cfg, l, map[], {})
  {
  }

  lemma {:induction false} RunEnds(cfg: Config, s: State, op: Op)
    requires Apply(cfg, s, op).Err? && Ends(op, Apply(cfg, s, op).error)
    ensures Run(cfg, s, [op]) == None
  {
  }

  // ---------- exporting a block recorded under a stale root ----------

  /**
   * A run after which the exported block 2 carries the state hash of the tree that was rolled back:
   * imported in any order, blocks 1 and 2 give another block 2.
   */
  lemma {:induction false} ImportRun(
    cfg: Config, s: State, k: Key, x: Value, y: Value, blocks: seq<RawBlock>, target: State, ds: seq<Delivery>)
    requires IsEmpty(s) && k !in cfg.nonProvable && x != y && IsEmpty(target)
    requires |blocks| == 2 && NewIds(target, ds) && AsMap(ds) == Numbered(blocks, 1)
    requires var end := Run(cfg, s,
        [AddOp(map[k := x], {}), AddOp(map[k := y], {}), DeleteLastOp] + [AddOp(map[], {})]);
      end.Some? ==> Exported(cfg, end.value.ledger.db, blocks)
    ensures var end := Run(cfg, s,
        [AddOp(map[k := x], {}), AddOp(map[k := y], {}), DeleteLastOp] + [AddOp(map[], {})]);
      var r := DeliverAll(Adding(cfg), Linked(cfg), target, ds);
      && end.Some? && end.value.ledger.genesis == 1 && end.value.ledger.last == 2
      && r.Ok? && r.value.ledger.last == 2
      && RawAt(cfg, r.value.ledger.db, 2) != RawAt(cfg, end.value.ledger.db, 2)
  {
    hide Run, Inv, Single, Represents, AddBlock, DeliverAll, NewIds, GetRawBlock;
    var c := Single(cfg, [], k, x);
    var s1 := AddThenRollback(cfg, s, k, x, y, [AddOp(map[], {})]);
    EmptyBlockOn(cfg, s1, c, 1);
    ReadsNothing(cfg, s1.ledger);
    var s2 := s1.(ledger := AddBlock(cfg, s1.ledger, map[], {}).value);
    RunCons(cfg, s1, AddOp(map[], {}), []);
    assert [AddOp(map[], {})] + [] == [AddOp(map[], {})];
    RunNothing(cfg, s2);
    ImportExact(cfg, s1.ledger, c, map[], {}, blocks, target, ds);
  }

  lemma {:induction false} EmptyBlockOn(cfg: Config, s: State, c: Chain, g: nat)
    requires Represents(cfg, s, View(c, g, map[]))
    ensures Inv(cfg, s.ledger, c) && s.ledger.genesis == g && s.ledger.last == |c|
    ensures var r := AddBlock(cfg, s.ledger, map[], {});
      r.Ok? && r.value.genesis == GenesisAfterAdd(g) && r.value.last == |c| + 1
  {
    hide Holds, ChainOk, MakePlan;
    AddSucceeds(cfg, s.ledger, c, map[], {});
    AddOk(cfg, s.ledger, map[], {});
    AddedLedger(cfg, s.ledger, map[], {});
  }

  // ---------- exporting a delete of a key that no block of the chain wrote ----------

  /** A block that deletes k on an empty chain, with a leaf of k left behind, records the delete. */
  lemma {:induction false} StrayDelete(cfg: Config, l: Ledger, k: Key)
    requires RawOk(cfg, l) && l.last == 0 && l.genesis == 0 && k !in cfg.nonProvable
    requires LeafAt(l.db, k, 1).Some? && l.tree.version >= 1
    ensures var r := AddBlock(cfg, l, map[], {k});
      && r.Ok? && r.value.genesis == r.value.last == 1 && RawOk(cfg, r.value)
      && RawAt(cfg, r.value.db, 1).Ok? && RawAt(cfg, r.value.db, 1).value.deletes == {k}
  {
    hide RawOk, GetRawBlock, LeafAtMost, Writes, Update, AddBlock, ActuallyDeleted;
    assert {k} * cfg.nonProvable == {};
    AddOk(cfg, l, map[], {k});
    AddedLedger(cfg, l, map[], {k});
    AddKeepsRaw(cfg, l, RawBlock(map[], {k}, ZeroDigest, StateHash(map[])));
    RebuiltAsAdded(cfg, l, map[], {k});
    var none: map<Key, Value> := map[];
    assert {k} - none.Keys == {k};
    OnlyKeyDeleted(l, k);
  }

  lemma {:induction false} OnlyKeyDeleted(l: Ledger, k: Key)
    requires LeafAt(l.db, k, 1).Some? && l.tree.version >= 1
    ensures ActuallyDeleted(l.db, l.tree.version, {k}) == {k}
  {
  }

  lemma {:induction false} TwoSingles(cfg: Config, k: Key, x: Value, l: Key, y: Value)
    requires k !in cfg.nonProvable && l !in cfg.nonProvable && k != l
    ensures var c1 := Single(cfg, [], k, x);
      var c2 := Single(cfg, c1, l, y);
      && |c1| == 1 && |c2| == 2 && c2 == c1 + [c2[1]] && k !in c2[1].blk.updates
      && k in LastTree(c1).vals && HasItem(LastTree(c1), LeafItem(k), 1) && LastTree(c2).version == 2
  {
    hide Apply, Stands, Update;
    var s0 := State(EMPTY_LEDGER, map[], None);
    EmptyStands(cfg, s0);
    AddSingle(cfg, s0, [], k, x);
    AddSingle(cfg, Apply(cfg, s0, AddOp(map[k := x], {})).value, Single(cfg, [], k, x), l, y);
  }

  /** The first three calls, and the rollback of the only block left: the chain is empty, the leaf of k is still there. */
  lemma {:induction false} LeftBehind(cfg: Config, s: State, k: Key, x: Value, l: Key, y: Value)
    requires k !in cfg.nonProvable && l !in cfg.nonProvable && k != l
    requires Inv(cfg, s.ledger, Single(cfg, Single(cfg, [], k, x), l, y)) && s.ledger.genesis == 2
    ensures var r := Apply(cfg, s, DeleteLastOp);
      && r.Ok? && RawOk(cfg, r.value.ledger) && r.value.ledger.genesis == r.value.ledger.last == 0
      && LeafAt(r.value.ledger.db, k, 1).Some? && r.value.ledger.tree.version >= 1
  {
    hide ChainOk, Holds, DeleteLast, RawOk, Single, LastTree, LeafAt, HasItem, Traceless;
    var c1 := Single(cfg, [], k, x);
    var c2 := Single(cfg, c1, l, y);
    TwoSingles(cfg, k, x, l, y);
    StrayLeaf(cfg, s.ledger, c1, c2[1], k);
    OnlyBlockExact(cfg, s.ledger, c1, c2[1]);
    InvIsRaw(cfg, s.ledger, c2);
    RollbackKeepsRaw(cfg, s.ledger);
  }

  /**
   * A run after which the exported block 1 lists as deleted a key that no block of the chain wrote:
   * imported, block 1 lists no deletes.
   */
  lemma {:induction false} StrayImportRun(
    cfg: Config, s: State, k: Key, x: Value, l: Key, y: Value, blocks: seq<RawBlock>, target: State, ds: seq<Delivery>)
    requires IsEmpty(s) && k !in cfg.nonProvable && l !in cfg.nonProvable && k != l && IsEmpty(target)
    requires |blocks| == 1 && NewIds(target, ds) && AsMap(ds) == Numbered(blocks, 1)
    requires var end := Run(cfg, s,
        [AddOp(map[k := x], {}), AddOp(map[l := y], {}), DeleteOp(1)] + [DeleteLastOp, AddOp(map[], {k})]);
      end.Some? ==> Exported(cfg, end.value.ledger.db, blocks)
    ensures var end := Run(cfg, s,
        [AddOp(map[k := x], {}), AddOp(map[l := y], {}), DeleteOp(1)] + [DeleteLastOp, AddOp(map[], {k})]);
      var r := DeliverAll(Adding(cfg), Linked(cfg), target, ds);
      && end.Some? && end.value.ledger.genesis == end.value.ledger.last == 1 && blocks[0].deletes == {k}
      && r.Ok? && r.value.ledger.last == 1
      && RawAt(cfg, r.value.ledger.db, 1).Ok? && RawAt(cfg, r.value.ledger.db, 1).value.deletes == {}
  {
    hide Run, Inv, Single, AddBlock, DeliverAll, NewIds, GetRawBlock, RawOk, DeleteLast, Replays;
    var last2 := [DeleteLastOp, AddOp(map[], {k})];
    var s3 := TwoThenPrune(cfg, s, k, x, l, y, last2);
    LeftBehind(cfg, s3, k, x, l, y);
    var s4 := Apply(cfg, s3, DeleteLastOp).value;
    StrayDelete(cfg, s4.ledger, k);
    var s5 := s4.(ledger := AddBlock(cfg, s4.ledger, map[], {k}).value);
    RunTwo(cfg, s3, s4, s5, DeleteLastOp, AddOp(map[], {k}), []);
    assert last2 + [] == last2;
    RunNothing(cfg, s5);
    assert Ok(blocks[0]) == RawAt(cfg, s5.ledger.db, 0 + 1);
    ImportIff(cfg, s5.ledger, blocks, target, ds);
    assert ImportedRaw(cfg, blocks, 0).deletes == {};
    assert RawAt(cfg, DeliverAll(Adding(cfg), Linked(cfg), target, ds).value.ledger.db, 0 + 1)
        == Ok(ImportedRaw(cfg, blocks, 0));
  }

  // ---------- pruning after a key was deleted twice ----------

  /** Block 1 writes k, block 2 deletes it, block 3 writes l. */
  function DeadChain(cfg: Config, k: Key, x: Value, l: Key, y: Value): Chain {
    var c := Single(cfg, [], k, x);
    Single(cfg, Extend(cfg, c, EffectiveBlk(c, map[], {k})), l, y)
  }

  /** The trees after k is written and after it is deleted. */
  lemma {:induction false} DeadStart(cfg: Config, k: Key, x: Value)
    requires k !in cfg.nonProvable
    ensures var c1 := Single(cfg, [], k, x);
      var c2 := Extend(cfg, c1, EffectiveBlk(c1, map[], {k}));
      && |c1| == 1 && |c2| == 2 && c2[0] == c1[0] && TreeOk(LastTree(c2))
      && HasItem(LastTree(c1), LeafItem(k), 1) && LastTree(c2).version == 2
      && LeafItem(k) !in LastTree(c2).items && k !in LastTree(c2).vals
  {
    hide Update;
    var c1 := Single(cfg, [], k, x);
    var ups := map[k := x] - cfg.nonProvable;
    assert k in ups;
    UpdateFollows(cfg.hashPath, EMPTY_TREE, ups, {});
    assert k in Touched(EMPTY_TREE, ups, {});
    var t1 := LastTree(c1);
    assert t1 == Update(cfg.hashPath, EMPTY_TREE, ups, {});
    UpdatedVal(cfg, EMPTY_TREE, ups, {}, k);
    var blk := EffectiveBlk(c1, map[], {k});
    assert blk.deletes == {k};
    UpdateFollows(cfg.hashPath, t1, map[] - cfg.nonProvable, {k});
    assert k in Touched(t1, map[] - cfg.nonProvable, {k});
  }

  lemma {:induction false} DeadTrees(cfg: Config, k: Key, x: Value, l: Key, y: Value)
    requires k !in cfg.nonProvable && l !in cfg.nonProvable && k != l
    ensures var c := DeadChain(cfg, k, x, l, y);
      && |c| == 3
      && HasItem(TreeAt(c, 1), LeafItem(k), 1) && TreeAt(c, 2).version == 2
      && LeafItem(k) !in TreeAt(c, 2).items && LeafItem(k) !in TreeAt(c, 3).items
      && k !in TreeAt(c, 3).vals && TreeAt(c, 3).version == 3
  {
    hide Update, EffectiveBlk;
    var c1 := Single(cfg, [], k, x);
    var c2 := Extend(cfg, c1, EffectiveBlk(c1, map[], {k}));
    DeadStart(cfg, k, x);
    var ups := map[l := y] - cfg.nonProvable;
    assert l in ups && l in Touched(LastTree(c2), ups, {});
    UpdateFollows(cfg.hashPath, LastTree(c2), ups, {});
    var c := DeadChain(cfg, k, x, l, y);
    assert TreeAt(c, 1) == LastTree(c1) && TreeAt(c, 2) == LastTree(c2);
  }

  /** With block 1 pruned, the dead leaf of k is indexed as stale since block 2, the genesis block. */
  lemma {:induction false} DeadIsExposed(cfg: Config, s: Ledger, k: Key, x: Value, l: Key, y: Value)
    requires k !in cfg.nonProvable && l !in cfg.nonProvable && k != l
    requires Inv(cfg, s, DeadChain(cfg, k, x, l, y)) && s.genesis == 2
    ensures k in DeadDeletes(s, map[], {k}) && Exposed(s, k)
  {
    hide Update, ChainOk, DeadChain;
    var c := DeadChain(cfg, k, x, l, y);
    DeadTrees(cfg, k, x, l, y);
    LiveFound(cfg, s, c, k);
    OnlyLeaf(cfg, s, c, k);
    assert LeftIn(c, 2, LeafItem(k), 1);
    assert StaleSince(c, 2, 2, LeafItem(k), 1);
    assert Lookup(s.db, StaleKey(2, LeafKey(k, 1))) == Expect(cfg, c, 2, StaleKey(2, LeafKey(k, 1)));
    InvNode(cfg, s, c, 2);
  }

  lemma {:induction false} OnlyLeaf(cfg: Config, s: Ledger, c: Chain, k: Key)
    requires Inv(cfg, s, c) && s.genesis == 2 && |c| == 3
    requires HasItem(TreeAt(c, 1), LeafItem(k), 1)
    requires LeafItem(k) !in TreeAt(c, 2).items && LeafItem(k) !in TreeAt(c, 3).items
    ensures LeafAtMost(s.db, k, s.tree.version) == Some(1)
    ensures forall u: nat :: LeafAt(s.db, k, u).Some? <==> u == 1
  {
    hide ChainOk;
    forall u: nat
      ensures LeafAt(s.db, k, u).Some? <==> u == 1
    {
      assert Lookup(s.db, LeafKey(k, u)) == Expect(cfg, c, 2, LeafKey(k, u));
      if Kept(c, 2, LeafItem(k), u) {
        var i :| OldestTree(2) <= i <= |c| && HasItem(TreeAt(c, i), LeafItem(k), u);
        assert i == 1;
      }
      if u == 1 {
        assert Kept(c, 2, LeafItem(k), 1);
        KeptLeaf(cfg, c, 2, k, 1);
      }
    }
    TreesOk(cfg, c, 1);
    VersionsGrow(cfg, c, 1, 3);
    FoundNewest(s.db, k, s.tree.version, 1);
  }

  /** The state before the second delete. */
  lemma {:induction false} DeadAndPruned(
    cfg: Config, s: State, k: Key, x: Value, l: Key, y: Value, ops: seq<Op>) returns (s': State)
    requires IsEmpty(s) && k !in cfg.nonProvable && l !in cfg.nonProvable && k != l
    ensures Inv(cfg, s'.ledger, DeadChain(cfg, k, x, l, y)) && s'.ledger.genesis == 2 && s'.latestTemp == None
    ensures Run(cfg, s, [AddOp(map[k := x], {}), AddOp(map[], {k})] + ([AddOp(map[l := y], {}), DeleteOp(1)] + ops))
         == Run(cfg, s', ops)
  {
    hide Run, Inv, Apply, Stands, Single, IsEmpty, DeadLeaf;
    var s2, c2 := AddThenDelete(cfg, s, k, x, [AddOp(map[l := y], {}), DeleteOp(1)] + ops);
    AddSingle(cfg, s2, c2, l, y);
    var s3 := Apply(cfg, s2, AddOp(map[l := y], {})).value;
    PruneFirst(cfg, s3, Single(cfg, c2, l, y));
    s' := Apply(cfg, s3, DeleteOp(1)).value;
    RunTwo(cfg, s2, s3, s', AddOp(map[l := y], {}), DeleteOp(1), ops);
  }

  /**
   * A run in which pruning is seen: after k is written, deleted, and deleted again behind another
   * block, it reads as present at block 3 before block 2 is pruned and as absent after.
   */
  lemma {:induction false} PruneRun(cfg: Config, s: State, k: Key, x: Value, l: Key, y: Value)
    requires IsEmpty(s) && k !in cfg.nonProvable && l !in cfg.nonProvable && k != l
    ensures var ops := [AddOp(map[k := x], {}), AddOp(map[], {k})];
      var before := Run(cfg, s, ops + ([AddOp(map[l := y], {}), DeleteOp(1)] + [AddOp(map[], {k})]));
      var after := Run(cfg, s, ops + ([AddOp(map[l := y], {}), DeleteOp(1)] + [AddOp(map[], {k}), DeleteOp(2)]));
      && before.Some? && after.Some? && before.value.ledger.genesis == 2 && after.value.ledger.genesis == 3
      && GetValue(cfg, before.value.ledger.db, k, 3).Ok?
      && GetValue(cfg, after.value.ledger.db, k, 3) == Err(NotFound)
  {
    hide Run, Inv, Apply, IsEmpty, GetValue, DeadChain;
    var s1 := DeadAndPruned(cfg, s, k, x, l, y, [AddOp(map[], {k})]);
    DeleteAgain(cfg, s1, k, x, l, y);
    var a := Apply(cfg, s1, AddOp(map[], {k})).value;
    RunCons(cfg, s1, AddOp(map[], {k}), []);
    assert [AddOp(map[], {k})] + [] == [AddOp(map[], {k})];
    RunNothing(cfg, a);
    var s2 := DeadAndPruned(cfg, s, k, x, l, y, [AddOp(map[], {k}), DeleteOp(2)]);
    DeleteAgain(cfg, s2, k, x, l, y);
    var b := Apply(cfg, s2, AddOp(map[], {k})).value;
    var e := Apply(cfg, b, DeleteOp(2)).value;
    RunTwo(cfg, s2, b, e, AddOp(map[], {k}), DeleteOp(2), []);
    assert [AddOp(map[], {k}), DeleteOp(2)] + [] == [AddOp(map[], {k}), DeleteOp(2)];
    RunNothing(cfg, e);
  }

  lemma {:induction false} DeleteAgain(cfg: Config, s: State, k: Key, x: Value, l: Key, y: Value)
    requires k !in cfg.nonProvable && l !in cfg.nonProvable && k != l
    requires Inv(cfg, s.ledger, DeadChain(cfg, k, x, l, y)) && s.ledger.genesis == 2 && s.latestTemp == None
    ensures var r := Apply(cfg, s, AddOp(map[], {k}));
      && r.Ok? && r.value.ledger.genesis == 2 && GetValue(cfg, r.value.ledger.db, k, 3).Ok?
      && var p := Apply(cfg, r.value, DeleteOp(2));
      p.Ok? && p.value.ledger.genesis == 3 && GetValue(cfg, p.value.ledger.db, k, 3) == Err(NotFound)
  {
    hide Holds, ChainOk, GetValue, DeadChain, AddBlock, DeleteGenesis, PrunedDb, WithBlock, DeleteLast;
    var c := DeadChain(cfg, k, x, l, y);
    DeadTrees(cfg, k, x, l, y);
    DeadIsExposed(cfg, s.ledger, k, x, l, y);
    PruningFlipsRead(cfg, s.ledger, c, map[], {k}, k);
    PrunedIs(cfg, s.ledger, c, map[], {k});
    AddedLedger(cfg, s.ledger, map[], {k});
    PrunedGenesis(cfg, AddBlock(cfg, s.ledger, map[], {k}).value);
  }

  lemma {:induction false} PrunedGenesis(cfg: Config, l: Ledger)
    requires DeleteGenesis(cfg, l).Ok?
    ensures DeleteGenesis(cfg, l).value.genesis == l.genesis + 1
  {
  }

  // ---------- pruning after the second delete was rolled back ----------

  /** The block that deletes k again, and its rollback: only the leaf of k at version 1, with the stamp of block 4. */
  lemma {:induction false} StampSurvives(cfg: Config, s: Ledger, k: Key, x: Value, l: Key, y: Value)
    requires k !in cfg.nonProvable && l !in cfg.nonProvable && k != l
    requires Inv(cfg, s, DeadChain(cfg, k, x, l, y)) && s.genesis == 2
    ensures var r := AddBlock(cfg, s, map[], {k});
      && r.Ok? && r.value.genesis == 2 && r.value.last == 4 && RawOk(cfg, r.value)
      && (forall u: nat :: LeafAt(r.value.db, k, u).Some? <==> u == 1)
      && LeafAt(r.value.db, k, 1).value.deletedIn == Some(4)
  {
    hide Holds, ChainOk, DeadChain, AddBlock, Update, MakePlan, LeafAtMost, RawOk, LeafAt;
    var c := DeadChain(cfg, k, x, l, y);
    DeadTrees(cfg, k, x, l, y);
    OnlyLeaf(cfg, s, c, k);
    AddSucceeds(cfg, s, c, map[], {k});
    var plan := MakePlan(cfg, s, map[], {k}).value;
    assert k in plan.deleted;
    NotInTree(cfg, c, plan, k);
    forall u: nat
      ensures AddBlock(cfg, s, map[], {k}).Ok?
      ensures LeafAt(AddBlock(cfg, s, map[], {k}).value.db, k, u)
           == if u == 1 then Some(LeafAt(s.db, k, 1).value.(deletedIn := Some(4))) else LeafAt(s.db, k, u)
    {
      LeafAfterDelete(cfg, s, map[], {k}, plan, k, u);
    }
    assert AddBlock(cfg, s, map[], {k}).Ok?;
    AddedLedger(cfg, s, map[], {k});
    InvIsRaw(cfg, s, c);
    AddKeepsRaw(cfg, s, RawBlock(map[], {k}, ZeroDigest, StateHash(map[])));
  }

  lemma {:induction false} NotInTree(cfg: Config, c: Chain, plan: Plan, k: Key)
    requires ChainOk(cfg, c) && k in plan.deleted
    requires plan.newTree == Update(cfg.hashPath, LastTree(c), map[] - cfg.nonProvable, plan.deleted)
    ensures LeafItem(k) !in plan.newTree.items
  {
    hide Update, ChainOk;
    TreesOk(cfg, c, |c|);
    assert TreeAt(c, |c|) == LastTree(c);
    UpdateFollows(cfg.hashPath, LastTree(c), map[] - cfg.nonProvable, plan.deleted);
  }

  /** What a rollback leaves of an older leaf, its index entry and the block nodes. */
  lemma {:induction false} OldStays(cfg: Config, l: Ledger, y: DbKey)
    requires RawOk(cfg, l) && l.last == 4 && l.genesis == 2 && NodeAt(l.db, 3).Some? && NodeAt(l.db, 3).value.version == 3
    requires match y
      case BlockKey(i) => i < 4
      case LeafKey(_, w) => w < 3
      case StaleKey(since, _) => since < 3
      case _ => false
    ensures DeleteLast(cfg, l).Ok? && Lookup(DeleteLast(cfg, l).value.db, y) == Lookup(l.db, y)
    ensures DeleteLast(cfg, l).value.genesis == 2 && DeleteLast(cfg, l).value.last == 3
  {
    hide RootsOk, StalesOk, NpIndexOk, LeavesOk, RootNodesOk, NodeOk, Apart, DigestOk;
    assert InRange(4, 2, 4) && BlockKey(4) in l.db;
    assert NodeAt(l.db, 3).value.version <= NodeAt(l.db, 4).value.version;
  }

  /** Before the second delete: k has one leaf, indexed as stale since the version of the genesis block. */
  lemma {:induction false} DeadIndexed(cfg: Config, s: Ledger, k: Key, x: Value, l: Key, y: Value)
    requires k !in cfg.nonProvable && l !in cfg.nonProvable && k != l
    requires Inv(cfg, s, DeadChain(cfg, k, x, l, y)) && s.genesis == 2
    ensures NodeAt(s.db, 2).Some? && NodeAt(s.db, 2).value.version == 2 && StaleKey(2, LeafKey(k, 1)) in s.db
    ensures NodeAt(s.db, 3).Some? && NodeAt(s.db, 3).value.version == 3 && s.last == 3
  {
    hide Holds, ChainOk, DeadChain, LeafAtMost, NodeAt;
    var c := DeadChain(cfg, k, x, l, y);
    DeadTrees(cfg, k, x, l, y);
    DeadIsExposed(cfg, s, k, x, l, y);
    OnlyLeaf(cfg, s, c, k);
    InvNode(cfg, s, c, 2);
    InvNode(cfg, s, c, 3);
  }

  /** A block takes no node and no index entry away. */
  lemma {:induction false} AddLeaves(cfg: Config, s: Ledger, updates: map<Key, Value>, deletes: set<Key>, y: DbKey)
    requires AddBlock(cfg, s, updates, deletes).Ok? && y in s.db
    ensures y.BlockKey? && y.id <= s.last ==> Lookup(AddBlock(cfg, s, updates, deletes).value.db, y) == Lookup(s.db, y)
    ensures y.StaleKey? ==> Lookup(AddBlock(cfg, s, updates, deletes).value.db, y).Some?
  {
    hide AddBlock, MakePlan, Writes;
    AddPlanned(cfg, s, updates, deletes);
    var plan := MakePlan(cfg, s, updates, deletes).value;
    PlanIds(cfg, s, updates, deletes, plan);
    AddedAt(cfg, s, updates, deletes, plan, y);
  }

  lemma {:induction false} AddPlanned(cfg: Config, s: Ledger, updates: map<Key, Value>, deletes: set<Key>)
    requires AddBlock(cfg, s, updates, deletes).Ok?
    ensures MakePlan(cfg, s, updates, deletes).Ok?
  {
  }

  lemma {:induction false} RolledBackLedger(cfg: Config, s: Ledger, k: Key, x: Value, l: Key, y: Value)
    requires k !in cfg.nonProvable && l !in cfg.nonProvable && k != l
    requires Inv(cfg, s, DeadChain(cfg, k, x, l, y)) && s.genesis == 2
    ensures AddBlock(cfg, s, map[], {k}).Ok? && DeleteLast(cfg, AddBlock(cfg, s, map[], {k}).value).Ok?
    ensures var b := DeleteLast(cfg, AddBlock(cfg, s, map[], {k}).value).value;
      && Prunable(cfg, b) && b.genesis == 2 && b.last == 3 && Lost(b, k, 1)
      && (forall u: nat :: LeafAt(b.db, k, u).Some? <==> u == 1) && !Stamped(LeafAt(b.db, k, 1).value, 3)
  {
    hide Inv, DeadChain, AddBlock, DeleteLast, RawOk;
    StampSurvives(cfg, s, k, x, l, y);
    DeadIndexed(cfg, s, k, x, l, y);
    var a := AddBlock(cfg, s, map[], {k}).value;
    AddLeaves(cfg, s, map[], {k}, BlockKey(2));
    AddLeaves(cfg, s, map[], {k}, BlockKey(3));
    AddLeaves(cfg, s, map[], {k}, StaleKey(2, LeafKey(k, 1)));
    OldStays(cfg, a, BlockKey(2));
    OldStays(cfg, a, StaleKey(2, LeafKey(k, 1)));
    OldStays(cfg, a, LeafKey(k, 1));
    var b := DeleteLast(cfg, a).value;
    RollbackKeepsRaw(cfg, a);
    forall u: nat
      ensures LeafAt(b.db, k, u).Some? <==> u == 1
    {
      RolledBackAt(cfg, a, LeafKey(k, u));
      assert LeafAt(a.db, k, u).Some? <==> u == 1;
    }
  }

  lemma {:induction false} RolledBackAt(cfg: Config, l: Ledger, y: DbKey)
    requires DeleteLast(cfg, l).Ok?
    ensures Lookup(DeleteLast(cfg, l).value.db, y).Some? ==> Lookup(DeleteLast(cfg, l).value.db, y) == Lookup(l.db, y)
  {
    hide DiesWithLast;
  }

  lemma {:induction false} DeleteAgainRolledBack(cfg: Config, s: State, k: Key, x: Value, l: Key, y: Value)
    requires k !in cfg.nonProvable && l !in cfg.nonProvable && k != l
    requires Inv(cfg, s.ledger, DeadChain(cfg, k, x, l, y)) && s.ledger.genesis == 2 && s.latestTemp == None
    ensures var a := Apply(cfg, s, AddOp(map[], {k}));
      && a.Ok? && Apply(cfg, a.value, DeleteLastOp).Ok?
      && var b := Apply(cfg, a.value, DeleteLastOp).value;
      && b.ledger.genesis == 2 && GetValue(cfg, b.ledger.db, k, 3).Ok?
      && var p := Apply(cfg, b, DeleteOp(2));
      p.Ok? && p.value.ledger.genesis == 3 && GetValue(cfg, p.value.ledger.db, k, 3) == Err(NotFound)
  {
    hide Inv, GetValue, DeadChain, AddBlock, DeleteGenesis, DeleteLast, RawOk, Lost, LeafAt;
    RolledBackLedger(cfg, s.ledger, k, x, l, y);
    var b := DeleteLast(cfg, AddBlock(cfg, s.ledger, map[], {k}).value).value;
    LostReadFlips(cfg, b, k, 1, 3);
    PrunedGenesis(cfg, b);
  }

  /**
   * A run in which pruning is seen although no block of the chain deletes a dead key: the block that
   * deleted k again was rolled back, and its stamp stayed.
   */
  lemma {:induction false} RollbackPruneRun(cfg: Config, s: State, k: Key, x: Value, l: Key, y: Value)
    requires IsEmpty(s) && k !in cfg.nonProvable && l !in cfg.nonProvable && k != l
    ensures var ops := [AddOp(map[k := x], {}), AddOp(map[], {k})];
      var again := [AddOp(map[], {k}), DeleteLastOp];
      var before := Run(cfg, s, ops + ([AddOp(map[l := y], {}), DeleteOp(1)] + again));
      var after := Run(cfg, s, ops + ([AddOp(map[l := y], {}), DeleteOp(1)] + (again + [DeleteOp(2)])));
      && before.Some? && after.Some? && before.value.ledger.genesis == 2 && after.value.ledger.genesis == 3
      && GetValue(cfg, before.value.ledger.db, k, 3).Ok?
      && GetValue(cfg, after.value.ledger.db, k, 3) == Err(NotFound)
  {
    hide Run, Inv, Apply, IsEmpty, GetValue, DeadChain;
    var again := [AddOp(map[], {k}), DeleteLastOp];
    var s1 := DeadAndPruned(cfg, s, k, x, l, y, again);
    DeleteAgainRolledBack(cfg, s1, k, x, l, y);
    var a := Apply(cfg, s1, AddOp(map[], {k})).value;
    var b := Apply(cfg, a, DeleteLastOp).value;
    RunTwo(cfg, s1, a, b, AddOp(map[], {k}), DeleteLastOp, []);
    assert again + [] == again;
    RunNothing(cfg, b);
    var s2 := DeadAndPruned(cfg, s, k, x, l, y, again + [DeleteOp(2)]);
    DeleteAgainRolledBack(cfg, s2, k, x, l, y);
    var a2 := Apply(cfg, s2, AddOp(map[], {k})).value;
    var b2 := Apply(cfg, a2, DeleteLastOp).value;
    var e := Apply(cfg, b2, DeleteOp(2)).value;
    RunThree(cfg, s2, a2, b2, e, AddOp(map[], {k}), DeleteLastOp, DeleteOp(2), []);
    assert again + [DeleteOp(2)] == [AddOp(map[], {k}), DeleteLastOp, DeleteOp(2)] + [];
    RunNothing(cfg, e);
  }
}
