/** Opening an adapter on an existing database: the cached ids, the tree root, and interrupted linking. */
module Recovery {
  import opened Common
  import opened SparseTree
  import opened AdapterSpec
  import opened Linking

  function Adding(cfg: Config): Adder {
    (l: Ledger, b: RawBlock) => AddBlock(cfg, l, b.updates, b.deletes)
  }

  function Linked(cfg: Config): Adder {
    (l: Ledger, b: RawBlock) => LinkBlock(cfg, l, b)
  }

  lemma {:induction false} AddersOk(cfg: Config)
    ensures AddsBlocks(Adding(cfg), Linked(cfg))
  {
  }

  /** addRawBlock. */
  function AddRawBlock(cfg: Config, s: State, block: RawBlock, id: nat): Result<State> {
    AddRawWith(Adding(cfg), Linked(cfg), s, block, id)
  }

  /**
   * State transfer into the adapter: raw blocks last + 1 .. N received in any order leave exactly the
   * database, ids and tree that addBlock on them in ascending order leaves, and no temporary block.
   */
  lemma {:induction false} AdapterTransferOrderIndependent(
    cfg: Config, s: State, blocks: seq<RawBlock>, ds: seq<Delivery>)
    requires AddAll(Adding(cfg), s.ledger, blocks).Ok? && s.temps == map[] && s.latestTemp == None
    requires NewIds(s, ds) && AsMap(ds) == Numbered(blocks, s.ledger.last + 1)
    ensures var end := DeliverAll(Adding(cfg), Linked(cfg), s, ds);
      && end.Ok? && end.value.temps == map[]
      && end.value.ledger == AddAll(Adding(cfg), s.ledger, blocks).value
      && LatestBlockId(end.value) == end.value.ledger.last == s.ledger.last + |blocks|
  {
    hide AddBlock, LinkBlock, AddAll, DeliverAll;
    AddersOk(cfg);
    TransferOrderIndependent(Adding(cfg), Linked(cfg), s, blocks, ds);
  }

  /** The constructor: reload the cached values and finish an interrupted linking. */
  function Open(cfg: Config, db: Db, temps: map<nat, RawBlock>): Result<State> {
    var l :- Load(db);
    var s := State(l, temps, LatestTemp(temps));
    LinkLoop(Linked(cfg), s, l.last + 1, LatestBlockId(s))
  }

  // ---------- cached values ----------

  predicate InRange(i: nat, genesis: nat, last: nat) {
    1 <= i && genesis <= i <= last
  }

  /** Block nodes are exactly [genesis, last], and stale entries point to what can become stale. */
  ghost predicate IdsOk(l: Ledger) {
    && (l.genesis == 0 <==> l.last == 0) && l.genesis <= l.last
    && (forall i: nat :: BlockKey(i) in l.db <==> InRange(i, l.genesis, l.last))
    && (forall i: nat :: BlockKey(i) in l.db ==> l.db[BlockKey(i)].NodeVal?)
    && (forall since: nat, y :: StaleKey(since, y) in l.db ==> KeyItem(y).Some?)
    && (forall since: nat, y :: NpStaleKey(since, y) in l.db ==> y.NpKey?)
  }

  /** The cached tree root is the one the last block node leads to. */
  ghost predicate Synced(l: Ledger) {
    && TreeOk(l.tree)
    && LatestRoot(l.db, l.last) == Ok(l.tree)
    && (l.last > 0 ==> NodeAt(l.db, l.last).Some? && NodeAt(l.db, l.last).value.version == l.tree.version)
  }

  lemma {:induction false} BlockIdsAre(l: Ledger, i: nat)
    requires IdsOk(l)
    ensures i in BlockIds(l.db) <==> 1 <= i && l.genesis <= i <= l.last
  {
    assert BlockKey(i) in l.db <==> 1 <= i && l.genesis <= i <= l.last;
  }

  /** The load functions recompute the cached ids. */
  lemma {:induction false} CachedIdsReload(l: Ledger)
    requires IdsOk(l)
    ensures LoadGenesis(l.db) == l.genesis && LoadLast(l.db) == l.last
  {
    forall i: nat
      ensures i in BlockIds(l.db) <==> 1 <= i && l.genesis <= i <= l.last
    {
      BlockIdsAre(l, i);
    }
    if l.last > 0 {
      assert l.genesis in BlockIds(l.db) && l.last in BlockIds(l.db);
    } else {
      assert BlockIds(l.db) == {};
    }
  }

  lemma {:induction false} LoadIs(l: Ledger)
    requires IdsOk(l) && Synced(l)
    ensures Load(l.db) == Ok(l)
  {
    CachedIdsReload(l);
  }

  // ---------- every operation keeps the ids ----------

  /** The keys a block writes outside the tree. */
  lemma {:induction false} WrittenKinds(cfg: Config, db: Db, plan: Plan)
    ensures forall i: nat :: WriteAt(cfg, db, plan, BlockKey(i)) == if i == plan.id then Some(NodeVal(PlanNode(plan))) else None
    ensures forall since: nat, y :: WriteAt(cfg, db, plan, StaleKey(since, y)).Some? ==> KeyItem(y).Some?
    ensures forall since: nat, y :: WriteAt(cfg, db, plan, NpStaleKey(since, y)).Some? ==> y.NpKey?
  {
  }

  /** Membership in the database after a block is added. */
  lemma {:induction false} InAfterAdd(cfg: Config, l: Ledger, plan: Plan, y: DbKey)
    ensures y in l.db + Writes(cfg, l.db, plan) <==> y in l.db || WriteAt(cfg, l.db, plan, y).Some?
    ensures WriteAt(cfg, l.db, plan, y).Some? ==>
      y in l.db + Writes(cfg, l.db, plan) && (l.db + Writes(cfg, l.db, plan))[y] == WriteAt(cfg, l.db, plan, y).value
    ensures WriteAt(cfg, l.db, plan, y).None? && y in l.db ==> (l.db + Writes(cfg, l.db, plan))[y] == l.db[y]
  {
    WritesAt(cfg, l.db, plan, y);
  }

  lemma {:induction false} AddKeepsIds(cfg: Config, l: Ledger, b: RawBlock)
    requires IdsOk(l) && Adding(cfg)(l, b).Ok?
    ensures IdsOk(Adding(cfg)(l, b).value)
  {
    hide ParentDigest, Below, WriteAt, Update;
    var plan := MakePlan(cfg, l, b.updates, b.deletes).value;
    PlanKeepsIds(cfg, l, plan, Adding(cfg)(l, b).value);
  }

  lemma {:induction false} PlanKeepsIds(cfg: Config, l: Ledger, plan: Plan, l': Ledger)
    requires IdsOk(l) && plan.id == l.last + 1
    requires l'.db == l.db + Writes(cfg, l.db, plan) && l'.last == plan.id
    requires l'.genesis == if l.genesis == 0 then 1 else l.genesis
    ensures IdsOk(l')
  {
    WrittenKinds(cfg, l.db, plan);
    forall i: nat
      ensures BlockKey(i) in l'.db <==> InRange(i, l'.genesis, l'.last)
      ensures BlockKey(i) in l'.db ==> l'.db[BlockKey(i)].NodeVal?
    {
      InAfterAdd(cfg, l, plan, BlockKey(i));
    }
    forall since: nat, y | StaleKey(since, y) in l'.db
      ensures KeyItem(y).Some?
    {
      InAfterAdd(cfg, l, plan, StaleKey(since, y));
    }
    forall since: nat, y | NpStaleKey(since, y) in l'.db
      ensures y.NpKey?
    {
      InAfterAdd(cfg, l, plan, NpStaleKey(since, y));
    }
  }

  /** Deleting a block keeps the ids; the cached tree plays no role. */
  lemma {:induction false} DeleteKeepsIds(cfg: Config, l: Ledger)
    requires IdsOk(l)
    ensures DeleteLast(cfg, l).Ok? ==> IdsOk(DeleteLast(cfg, l).value)
    ensures DeleteGenesis(cfg, l).Ok? ==> IdsOk(DeleteGenesis(cfg, l).value)
  {
    if l.last > 0 {
      assert BlockKey(l.last) in l.db && BlockKey(l.genesis) in l.db;
      var last, genesis := NodeAt(l.db, l.last).value, NodeAt(l.db, l.genesis).value;
      RemovedKeepsIds(l, y => DiesWithLast(cfg, last, l.last, y), l.last,
                      if l.last == l.genesis then 0 else l.genesis, if l.last == l.genesis then 0 else l.last - 1);
      if l.genesis != l.last {
        forall i: nat
          ensures DiesWithGenesis(l.db, genesis, l.genesis, BlockKey(i)) <==> i == l.genesis
        {
          assert StaleKey(genesis.version, BlockKey(i)) !in l.db;
          assert NpStaleKey(l.genesis, BlockKey(i)) !in l.db;
        }
        RemovedKeepsIds(l, y => DiesWithGenesis(l.db, genesis, l.genesis, y), l.genesis, l.genesis + 1, l.last);
      }
    }
  }

  lemma {:induction false} RemovedKeepsIds(l: Ledger, dead: DbKey -> bool, id: nat, genesis: nat, last: nat)
    requires IdsOk(l) && l.last > 0
    requires forall i: nat :: dead(BlockKey(i)) <==> i == id
    requires (genesis == 0 <==> last == 0) && genesis <= last
    requires forall i: nat :: InRange(i, genesis, last) <==> InRange(i, l.genesis, l.last) && i != id
    ensures IdsOk(l.(db := Without(l.db, dead), genesis := genesis, last := last))
  {
    var l' := l.(db := Without(l.db, dead), genesis := genesis, last := last);
    forall y
      ensures y in l'.db <==> y in l.db && !dead(y)
      ensures y in l'.db ==> l'.db[y] == l.db[y]
    {
      assert Lookup(l'.db, y) == if dead(y) then None else Lookup(l.db, y);
    }
    forall i: nat
      ensures BlockKey(i) in l'.db <==> InRange(i, l'.genesis, l'.last)
    {
      assert InRange(i, genesis, last) <==> InRange(i, l.genesis, l.last) && i != id;
    }
  }

  // ---------- the tree root after adding a block ----------

  /** A block added to a ledger in sync leaves a ledger in sync. */
  lemma {:induction false} AddKeepsSync(cfg: Config, l: Ledger, b: RawBlock)
    requires Synced(l) && Adding(cfg)(l, b).Ok?
    ensures Synced(Adding(cfg)(l, b).value)
  {
    hide WriteAt, WriteKeys, LeafAtMost, Update;
    var plan := MakePlan(cfg, l, b.updates, b.deletes).value;
    assert plan.oldTree == l.tree;
    UpdateFollows(cfg.hashPath, l.tree, b.updates - cfg.nonProvable, plan.deleted);
    PlanKeepsSync(cfg, l, plan, Adding(cfg)(l, b).value);
  }

  lemma {:induction false} PlanKeepsSync(cfg: Config, l: Ledger, plan: Plan, l': Ledger)
    requires Synced(l) && plan.id == l.last + 1 && plan.oldTree == l.tree && TreeOk(plan.newTree)
    requires plan.newTree == l.tree || plan.newTree.version > l.tree.version
    requires l'.db == l.db + Writes(cfg, l.db, plan) && l'.last == plan.id && l'.tree == plan.newTree
    ensures Synced(l')
  {
    hide WriteKeys, LeafAtMost, NpAtMost;
    var w := plan.newTree.version;
    WritesAt(cfg, l.db, plan, BlockKey(plan.id));
    WritesAt(cfg, l.db, plan, InternalKey(w, []));
    assert NodeAt(l'.db, l'.last) == Some(PlanNode(plan));
    if w == 0 {
      assert plan.newTree.vals == map[];
    } else if plan.newTree.version > l.tree.version {
      assert Fresh(plan, ROOT, w);
    }
  }

  // ---------- crash recovery ----------

  /** Opening on the database of a state finishes whatever linking was under way. */
  lemma {:induction false} OpenAbsorbs(cfg: Config, s: State)
    requires IdsOk(s.ledger) && Synced(s.ledger) && TempsAhead(s)
    requires s.ledger.genesis != 0 || s.ledger.last + 1 !in s.temps
    ensures Open(cfg, s.ledger.db, s.temps) == Absorb(Adding(cfg), s)
  {
    hide AddBlock, LinkBlock;
    AddersOk(cfg);
    LoadIs(s.ledger);
    var s' := s.(latestTemp := LatestTemp(s.temps));
    LinkIsAbsorb(Adding(cfg), Linked(cfg), s', LatestBlockId(s'));
    AbsorbIgnoresLatest(Adding(cfg), s, LatestTemp(s.temps));
  }

  /** Opening on the database of a settled state gives back that state. */
  lemma {:induction false} OpenIsIdentity(cfg: Config, s: State)
    requires IdsOk(s.ledger) && Synced(s.ledger) && Settled(s)
    ensures Open(cfg, s.ledger.db, s.temps) == Ok(s)
  {
    OpenAbsorbs(cfg, s);
  }

  /** A nonempty chain whose cached values can be reloaded. */
  ghost predicate Recoverable(l: Ledger) {
    IdsOk(l) && Synced(l) && l.genesis != 0
  }

  lemma {:induction false} AddKeepsRecoverable(cfg: Config)
    ensures Keeps(Adding(cfg), l => Recoverable(l))
  {
    AddersOk(cfg);
    forall l: Ledger, b: RawBlock | Recoverable(l) && Adding(cfg)(l, b).Ok?
      ensures Recoverable(Adding(cfg)(l, b).value)
    {
      AddKeepsIds(cfg, l, b);
      AddKeepsSync(cfg, l, b);
    }
  }

  /**
   * Crash recovery. When addRawBlock closes a gap it writes the block and then one link
   * transaction per waiting block. A crash after any number of them, followed by opening
   * the adapter again, ends in the state of the call that did not crash, provided the block
   * itself left the cached tree root and the database in step.
   */
  lemma {:induction false} CrashWhileLinking(cfg: Config, s: State, block: RawBlock, n: nat)
    requires IdsOk(s.ledger) && Settled(s)
    requires AddRawBlock(cfg, s, block, s.ledger.last + 1).Ok?
    requires Adding(cfg)(s.ledger, block).Ok? && Synced(Adding(cfg)(s.ledger, block).value)
    requires LinkSteps(Adding(cfg), s.(ledger := Adding(cfg)(s.ledger, block).value), n).Ok?
    ensures var crashed := LinkSteps(Adding(cfg), s.(ledger := Adding(cfg)(s.ledger, block).value), n).value;
      Open(cfg, crashed.ledger.db, crashed.temps) == AddRawBlock(cfg, s, block, s.ledger.last + 1)
  {
    AddersOk(cfg);
    AddKeepsIds(cfg, s.ledger, block);
    AddKeepsRecoverable(cfg);
    CrashedIsFinished(s, Adding(cfg), Linked(cfg), block, n);
    OpenAbsorbs(cfg, LinkSteps(Adding(cfg), s.(ledger := Adding(cfg)(s.ledger, block).value), n).value);
  }

  lemma {:induction false} CrashedIsFinished(s: State, add: Adder, link: Adder, block: RawBlock, n: nat)
    requires AddsBlocks(add, link) && Keeps(add, l => Recoverable(l)) && Settled(s)
    requires AddRawWith(add, link, s, block, s.ledger.last + 1).Ok?
    requires Recoverable(add(s.ledger, block).value)
    requires LinkSteps(add, s.(ledger := add(s.ledger, block).value), n).Ok?
    ensures var crashed := LinkSteps(add, s.(ledger := add(s.ledger, block).value), n).value;
      && Recoverable(crashed.ledger) && TempsAhead(crashed)
      && Absorb(add, crashed) == AddRawWith(add, link, s, block, s.ledger.last + 1)
  {
    hide Recoverable;
    var s1 := s.(ledger := add(s.ledger, block).value);
    StepsThenAbsorb(add, link, l => Recoverable(l), s1, n);
    LinkIsAbsorb(add, link, s1, LatestBlockId(s1));
  }
}
