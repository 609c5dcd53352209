/**
 * Raw blocks and the hash chain without any condition on what was deleted or rolled back: an
 * invariant that every operation keeps, and that the raw blocks of the chain do not change.
 */
module RawChain {
  import opened Common
  import opened SparseTree
  import opened AdapterSpec
  import opened Growth
  import opened Linking
  import opened Recovery
  import opened Crashes

  // ---------- the invariant ----------

  /** Index entries point at what was written before them. */
  ghost predicate StalesOk(db: Db) {
    && (forall since: nat, y :: StaleKey(since, y) in db ==> KeyItem(y).Some? && KeyItem(y).value.1 < since)
    && (forall since: nat, y :: NpStaleKey(since, y) in db ==> y.NpKey? && y.id < since)
  }

  /** A non-provable entry becomes stale in a block of the chain that writes the key again. */
  ghost predicate NpIndexOk(db: Db) {
    forall since: nat, y :: NpStaleKey(since, y) in db ==>
      y.NpKey? && NodeAt(db, since).Some? && NpAt(db, y.key, since).Some?
  }

  /** Non-provable keys have no leaves. */
  ghost predicate LeavesOk(cfg: Config, db: Db) {
    forall k, u: nat :: LeafAt(db, k, u).Some? ==> k !in cfg.nonProvable
  }

  /** Versions do not decrease along the chain, and the cached tree is at least as new. */
  ghost predicate VersionsOk(l: Ledger) {
    forall i: nat, j: nat :: i <= j && NodeAt(l.db, i).Some? && NodeAt(l.db, j).Some? ==>
      NodeAt(l.db, i).value.version <= NodeAt(l.db, j).value.version <= l.tree.version
  }

  /** A key that the block of a node updated and the tree holds. */
  predicate Wrote(cfg: Config, node: Node, k: Key) {
    k in node.keys && !node.keys[k] && k !in cfg.nonProvable
  }

  function RootAt(db: Db, w: nat): Option<Tree> {
    match Lookup(db, InternalKey(w, [])) case Some(InternalVal(t)) => Some(t) case _ => None
  }

  /** The stored roots have exactly the internal nodes that their keys call for. */
  ghost predicate RootNodesOk(cfg: Config, db: Db) {
    forall w: nat :: RootAt(db, w).Some? ==> NodesExact(cfg.hashPath, RootAt(db, w).value)
  }

  /** A listed key has what getRawBlock needs; an updated one is in the root of its version, if that is stored. */
  ghost predicate KeyOk(cfg: Config, db: Db, node: Node, k: Key)
    requires k in node.keys
  {
    if k in cfg.nonProvable then !node.keys[k] && NpAt(db, k, node.id).Some?
    else Wrote(cfg, node, k) ==>
      && node.version > 0
      && LeafAt(db, k, node.version).Some? && LeafAt(db, k, node.version).value.addedIn == node.id
      && (RootAt(db, node.version).Some? ==> k in RootAt(db, node.version).value.vals)
  }

  ghost predicate NodeOk(cfg: Config, db: Db, i: nat) {
    NodeAt(db, i).Some? ==>
      NodeAt(db, i).value.id == i && forall k :: k in NodeAt(db, i).value.keys ==> KeyOk(cfg, db, NodeAt(db, i).value, k)
  }

  /** A block that shares its version with an earlier one lists none of the keys that one wrote to the tree. */
  ghost predicate Apart(cfg: Config, db: Db, i: nat, j: nat) {
    i < j && NodeAt(db, i).Some? && NodeAt(db, j).Some? && NodeAt(db, i).value.version == NodeAt(db, j).value.version ==>
      forall k :: k in NodeAt(db, j).value.keys ==> !Wrote(cfg, NodeAt(db, i).value, k)
  }

  function RawAt(cfg: Config, db: Db, i: nat): Result<RawBlock> {
    GetRawBlock(cfg, db, map[], i)
  }

  /** Block i stores the digest of the raw block rebuilt for its parent, and block 1 that of no block. */
  ghost predicate DigestOk(cfg: Config, db: Db, i: nat) {
    && (i == 1 && NodeAt(db, 1).Some? ==> NodeAt(db, 1).value.parentDigest == ZeroDigest)
    && (i > 0 && NodeAt(db, i - 1).Some? && NodeAt(db, i).Some? ==>
      RawAt(cfg, db, i - 1).Ok? && NodeAt(db, i).value.parentDigest == DigestOf(i - 1, RawAt(cfg, db, i - 1).value))
  }

  ghost predicate RawOk(cfg: Config, l: Ledger) {
    && IdsOk(l) && RootsOk(l.db) && StalesOk(l.db) && NpIndexOk(l.db) && VersionsOk(l)
    && LeavesOk(cfg, l.db) && RootNodesOk(cfg, l.db)
    && (forall i: nat :: NodeOk(cfg, l.db, i))
    && (forall i: nat, j: nat :: Apart(cfg, l.db, i, j))
    && (forall i: nat :: DigestOk(cfg, l.db, i))
  }

  // ---------- rebuilding a block ----------

  /** A block that is in order can be rebuilt. */
  lemma {:induction false} Rebuilds(cfg: Config, db: Db, i: nat)
    requires NodeOk(cfg, db, i) && NodeAt(db, i).Some?
    ensures RawAt(cfg, db, i).Ok? && RawAt(cfg, db, i).value.parentDigest == NodeAt(db, i).value.parentDigest
  {
    var node := NodeAt(db, i).value;
    forall k | k in node.keys && !node.keys[k]
      ensures BlockKeyValue(cfg, db, node, k).Some?
    {
      assert KeyOk(cfg, db, node, k);
    }
  }

  /** Rebuilding a block depends on its node and the entries of the keys it lists. */
  lemma {:induction false} SameRebuild(cfg: Config, db: Db, db': Db, i: nat)
    requires NodeAt(db, i).Some? && NodeAt(db', i) == NodeAt(db, i)
    requires forall k :: k in NodeAt(db, i).value.keys ==>
      BlockKeyValue(cfg, db', NodeAt(db, i).value, k) == BlockKeyValue(cfg, db, NodeAt(db, i).value, k)
    ensures RawAt(cfg, db', i) == RawAt(cfg, db, i)
  {
    hide BlockKeyValue;
    var node := NodeAt(db, i).value;
    assert (map k | k in node.keys && BlockKeyValue(cfg, db', node, k).Some? :: BlockKeyValue(cfg, db', node, k).value)
        == (map k | k in node.keys && BlockKeyValue(cfg, db, node, k).Some? :: BlockKeyValue(cfg, db, node, k).value);
  }

  /** What an operation must leave in place for a block that stays. */
  ghost predicate Spares(cfg: Config, db: Db, db': Db, i: nat)
    requires NodeAt(db, i).Some?
  {
    var node := NodeAt(db, i).value;
    && NodeAt(db', i) == NodeAt(db, i)
    && (forall k :: k in node.keys && k in cfg.nonProvable ==> NpAt(db', k, i) == NpAt(db, k, i))
    && (forall k :: Wrote(cfg, node, k) ==>
         match LeafAt(db, k, node.version)
         case None => true
         case Some(leaf) =>
           && LeafAt(db', k, node.version).Some?
           && LeafAt(db', k, node.version).value.addedIn == leaf.addedIn
           && LeafAt(db', k, node.version).value.value == leaf.value)
    && (RootAt(db', node.version).Some? ==> RootAt(db', node.version) == RootAt(db, node.version))
  }

  /** A spared block stays in order and is rebuilt the same. */
  lemma {:induction false} SparedStays(cfg: Config, db: Db, db': Db, i: nat)
    requires NodeOk(cfg, db, i) && NodeAt(db, i).Some? && Spares(cfg, db, db', i)
    ensures NodeOk(cfg, db', i) && RawAt(cfg, db', i) == RawAt(cfg, db, i)
  {
    hide NodeAt, LeafAt, NpAt, RootAt, GetRawBlock;
    var node := NodeAt(db, i).value;
    forall k | k in node.keys
      ensures KeyOk(cfg, db', node, k)
      ensures BlockKeyValue(cfg, db', node, k) == BlockKeyValue(cfg, db, node, k)
    {
      assert KeyOk(cfg, db, node, k);
    }
    SameRebuild(cfg, db, db', i);
  }

  /** Blocks of both databases are rebuilt the same. */
  ghost predicate SameRaw(cfg: Config, db: Db, db': Db) {
    forall i: nat :: NodeAt(db, i).Some? && NodeAt(db', i).Some? ==> RawAt(cfg, db', i) == RawAt(cfg, db, i)
  }

  // ---------- removing blocks ----------

  /**
   * An operation that only removes keys, whose stored nodes are those of before and which spares
   * every block that stays, keeps the invariant.
   */
  lemma {:induction false} RemovalKeeps(cfg: Config, l: Ledger, l': Ledger)
    requires RawOk(cfg, l) && IdsOk(l') && NpIndexOk(l'.db) && l'.tree == l.tree
    requires forall y :: Lookup(l'.db, y).Some? ==> Lookup(l'.db, y) == Lookup(l.db, y)
    requires forall i: nat :: NodeAt(l'.db, i).Some? ==> NodeAt(l.db, i).Some? && Spares(cfg, l.db, l'.db, i)
    ensures RawOk(cfg, l') && SameRaw(cfg, l.db, l'.db)
  {
    hide NodeOk, Spares, GetRawBlock, IdsOk, NpIndexOk, LeavesOk, RootNodesOk;
    forall i: nat | NodeAt(l'.db, i).Some?
      ensures NodeAt(l'.db, i) == NodeAt(l.db, i)
      ensures NodeOk(cfg, l'.db, i) && RawAt(cfg, l'.db, i) == RawAt(cfg, l.db, i)
    {
      SparedNode(cfg, l.db, l'.db, i);
      SparedStays(cfg, l.db, l'.db, i);
    }
    RemovalRoots(l.db, l'.db);
    RemovalLeaves(cfg, l.db, l'.db);
    RemovalNodes(cfg, l.db, l'.db);
    forall i: nat
      ensures NodeOk(cfg, l'.db, i)
    {
      AbsentOk(cfg, l'.db, i);
    }
    forall i: nat, j: nat
      ensures Apart(cfg, l'.db, i, j)
    {
      assert Apart(cfg, l.db, i, j);
    }
    forall i: nat
      ensures DigestOk(cfg, l'.db, i)
    {
      assert DigestOk(cfg, l.db, i);
    }
  }

  lemma {:induction false} SparedNode(cfg: Config, db: Db, db': Db, i: nat)
    requires NodeAt(db, i).Some? && Spares(cfg, db, db', i)
    ensures NodeAt(db', i) == NodeAt(db, i)
  {
  }

  lemma {:induction false} AbsentOk(cfg: Config, db: Db, i: nat)
    ensures NodeAt(db, i).None? ==> NodeOk(cfg, db, i)
  {
  }

  lemma {:induction false} RemovalRoots(db: Db, db': Db)
    requires RootsOk(db) && StalesOk(db)
    requires forall y :: Lookup(db', y).Some? ==> Lookup(db', y) == Lookup(db, y)
    ensures RootsOk(db') && StalesOk(db')
  {
    forall y | y in db'
      ensures y in db && db'[y] == db[y]
    {
      assert Lookup(db', y).Some?;
    }
  }

  lemma {:induction false} RemovalLeaves(cfg: Config, db: Db, db': Db)
    requires LeavesOk(cfg, db)
    requires forall y :: Lookup(db', y).Some? ==> Lookup(db', y) == Lookup(db, y)
    ensures LeavesOk(cfg, db')
  {
    forall k, u: nat | LeafAt(db', k, u).Some?
      ensures k !in cfg.nonProvable
    {
      assert Lookup(db', LeafKey(k, u)) == Lookup(db, LeafKey(k, u));
      assert LeafAt(db, k, u).Some?;
    }
  }

  lemma {:induction false} RemovalNodes(cfg: Config, db: Db, db': Db)
    requires RootNodesOk(cfg, db)
    requires forall y :: Lookup(db', y).Some? ==> Lookup(db', y) == Lookup(db, y)
    ensures RootNodesOk(cfg, db')
  {
    hide NodesExact;
    forall w: nat | RootAt(db', w).Some?
      ensures NodesExact(cfg.hashPath, RootAt(db', w).value)
    {
      assert Lookup(db', InternalKey(w, [])) == Lookup(db, InternalKey(w, []));
      assert RootAt(db, w) == RootAt(db', w);
    }
  }

  /** Pruning spares the blocks after the genesis block: what it removes is older than they are. */
  lemma {:induction false} PruneSpares(cfg: Config, l: Ledger, i: nat)
    requires RawOk(cfg, l) && DeleteGenesis(cfg, l).Ok? && NodeAt(l.db, i).Some? && l.genesis < i
    ensures Spares(cfg, l.db, DeleteGenesis(cfg, l).value.db, i)
  {
    hide IdsOk, GetRawBlock, DigestOk, Apart, RootsOk;
    var g := l.genesis;
    var first, node := NodeAt(l.db, g).value, NodeAt(l.db, i).value;
    assert first.version <= node.version;
    assert NodeOk(cfg, l.db, i);
    assert !DiesWithGenesis(l.db, first, g, BlockKey(i));
    forall k | k in node.keys && k in cfg.nonProvable
      ensures !DiesWithGenesis(l.db, first, g, NpKey(k, i))
    {
      assert NpStaleKey(g, NpKey(k, i)) !in l.db;
    }
    forall k
      ensures !DiesWithGenesis(l.db, first, g, LeafKey(k, node.version))
    {
      assert StaleKey(first.version, LeafKey(k, node.version)) !in l.db;
    }
  }

  /** Rolling back spares the blocks before the last one. */
  lemma {:induction false} RollbackSpares(cfg: Config, l: Ledger, i: nat)
    requires RawOk(cfg, l) && l.last > 0 && DeleteLast(cfg, l).Ok? && NodeAt(l.db, i).Some? && i < l.last
    ensures Spares(cfg, l.db, DeleteLast(cfg, l).value.db, i)
  {
    hide IdsOk, GetRawBlock, DigestOk, RootsOk, StalesOk;
    var node, last := NodeAt(l.db, i).value, NodeAt(l.db, l.last).value;
    assert NodeOk(cfg, l.db, i);
    assert Apart(cfg, l.db, i, l.last);
    forall k | Wrote(cfg, node, k)
      ensures !DiesWithLast(cfg, last, l.last, LeafKey(k, node.version))
    {
    }
  }

  /** Pruning removes the index of the pruned block, and no entry that a later one speaks of. */
  lemma {:induction false} PruneIndex(cfg: Config, l: Ledger)
    requires RawOk(cfg, l) && DeleteGenesis(cfg, l).Ok?
    ensures NpIndexOk(DeleteGenesis(cfg, l).value.db)
  {
    hide GetRawBlock, NodeOk, Apart, DigestOk, RootsOk, VersionsOk;
    var g, first := l.genesis, NodeAt(l.db, l.genesis).value;
    var db' := DeleteGenesis(cfg, l).value.db;
    forall since: nat, y | NpStaleKey(since, y) in db'
      ensures y.NpKey? && NodeAt(db', since).Some? && NpAt(db', y.key, since).Some?
    {
      assert Lookup(db', NpStaleKey(since, y)) == Lookup(l.db, NpStaleKey(since, y));
      assert BlockKey(since) in l.db && since > g;
      assert StaleKey(first.version, BlockKey(since)) !in l.db && NpStaleKey(g, BlockKey(since)) !in l.db;
      assert StaleKey(first.version, NpKey(y.key, since)) !in l.db && NpStaleKey(g, NpKey(y.key, since)) !in l.db;
    }
  }

  lemma {:induction false} RollbackIndex(cfg: Config, l: Ledger)
    requires RawOk(cfg, l) && DeleteLast(cfg, l).Ok?
    ensures NpIndexOk(DeleteLast(cfg, l).value.db)
  {
    hide GetRawBlock, NodeOk, Apart, DigestOk, RootsOk, VersionsOk, StalesOk, IdsOk;
    var db' := DeleteLast(cfg, l).value.db;
    forall since: nat, y | NpStaleKey(since, y) in db'
      ensures y.NpKey? && NodeAt(db', since).Some? && NpAt(db', y.key, since).Some?
    {
      assert Lookup(db', NpStaleKey(since, y)) == Lookup(l.db, NpStaleKey(since, y));
    }
  }

  lemma {:induction false} PruneKeepsRaw(cfg: Config, l: Ledger)
    requires RawOk(cfg, l) && DeleteGenesis(cfg, l).Ok?
    ensures RawOk(cfg, DeleteGenesis(cfg, l).value) && SameRaw(cfg, l.db, DeleteGenesis(cfg, l).value.db)
  {
    hide Spares, DiesWithGenesis, GetRawBlock, NodeOk, RootsOk, StalesOk, NpIndexOk, LeavesOk, RootNodesOk;
    var l' := DeleteGenesis(cfg, l).value;
    PruneIndex(cfg, l);
    DeleteKeepsIds(cfg, l);
    forall i: nat | NodeAt(l'.db, i).Some?
      ensures NodeAt(l.db, i).Some? && Spares(cfg, l.db, l'.db, i)
    {
      assert BlockKey(i) in l'.db;
      assert Lookup(l'.db, BlockKey(i)) == Lookup(l.db, BlockKey(i));
      PruneSpares(cfg, l, i);
    }
    RemovalKeeps(cfg, l, l');
  }

  lemma {:induction false} RollbackKeepsRaw(cfg: Config, l: Ledger)
    requires RawOk(cfg, l) && DeleteLast(cfg, l).Ok?
    ensures RawOk(cfg, DeleteLast(cfg, l).value) && SameRaw(cfg, l.db, DeleteLast(cfg, l).value.db)
  {
    hide Spares, DiesWithLast, GetRawBlock, NodeOk, RootsOk, StalesOk, NpIndexOk, LeavesOk, RootNodesOk;
    var l' := DeleteLast(cfg, l).value;
    RollbackIndex(cfg, l);
    if l.last > 0 {
      DeleteKeepsIds(cfg, l);
      forall i: nat | NodeAt(l'.db, i).Some?
        ensures NodeAt(l.db, i).Some? && Spares(cfg, l.db, l'.db, i)
      {
        assert BlockKey(i) in l'.db;
        assert Lookup(l'.db, BlockKey(i)) == Lookup(l.db, BlockKey(i));
        RollbackSpares(cfg, l, i);
      }
      RemovalKeeps(cfg, l, l');
    }
  }

  // ---------- adding a block ----------

  /** A plan made on a ledger that is in order. */
  ghost predicate Planned(cfg: Config, l: Ledger, updates: map<Key, Value>, deletes: set<Key>, plan: Plan) {
    RawOk(cfg, l) && MakePlan(cfg, l, updates, deletes) == Ok(plan)
  }

  lemma {:induction false} PlanIds(cfg: Config, l: Ledger, updates: map<Key, Value>, deletes: set<Key>, plan: Plan)
    requires MakePlan(cfg, l, updates, deletes) == Ok(plan)
    ensures plan.id == l.last + 1 && plan.updates == updates
    ensures plan.deleted == ActuallyDeleted(l.db, l.tree.version, deletes - updates.Keys)
    ensures plan.deleted !! cfg.nonProvable && plan.deleted !! updates.Keys
    ensures ParentDigest(cfg, l.db, l.last + 1) == Ok(plan.digest)
  {
    hide ParentDigest, Update, LatestRoot, LeafAtMost;
    assert forall k :: k in deletes && k in cfg.nonProvable ==> k in deletes * cfg.nonProvable;
  }

  /** The new version is at least that of every block, and beyond it when anything is written to the tree. */
  lemma {:induction false} PlanVersion(
    cfg: Config, l: Ledger, updates: map<Key, Value>, deletes: set<Key>, plan: Plan, i: nat)
    requires Planned(cfg, l, updates, deletes, plan) && NodeAt(l.db, i).Some?
    ensures NodeAt(l.db, i).value.version <= plan.newTree.version
    ensures plan.newTree.version > plan.oldTree.version ==> NodeAt(l.db, i).value.version < plan.newTree.version
  {
    hide MakePlan, NodeOk, GetRawBlock, Apart, DigestOk, StalesOk, LatestRoot, RootsOk;
    PlanTrees(cfg, l, updates, deletes, plan);
    assert BlockKey(i) in l.db;
    assert i <= l.last;
    if ReadsRoot(cfg, l, updates, deletes) {
      ReadRootOk(l.db, l.last);
    } else {
      assert NodeAt(l.db, i).value.version <= l.tree.version;
    }
  }

  /** Adding a block spares all blocks. */
  lemma {:induction false} AddSpares(
    cfg: Config, l: Ledger, updates: map<Key, Value>, deletes: set<Key>, plan: Plan, i: nat)
    requires Planned(cfg, l, updates, deletes, plan) && NodeAt(l.db, i).Some?
    ensures AddBlock(cfg, l, updates, deletes).Ok?
    ensures Spares(cfg, l.db, AddBlock(cfg, l, updates, deletes).value.db, i)
  {
    hide MakePlan, NodeOk, GetRawBlock, Apart, DigestOk, StalesOk, RootsOk, Writes, LeafAtMost, NpAtMost, AddBlock,
         VersionsOk;
    PlanIds(cfg, l, updates, deletes, plan);
    PlanVersion(cfg, l, updates, deletes, plan, i);
    var node := NodeAt(l.db, i).value;
    assert BlockKey(i) in l.db;
    assert i != plan.id;
    AddedAt(cfg, l, updates, deletes, plan, BlockKey(i));
    AddedAt(cfg, l, updates, deletes, plan, InternalKey(node.version, []));
    forall k
      ensures NpAt(AddBlock(cfg, l, updates, deletes).value.db, k, i) == NpAt(l.db, k, i)
    {
      AddedAt(cfg, l, updates, deletes, plan, NpKey(k, i));
    }
    forall k | LeafAt(l.db, k, node.version).Some?
      ensures var leaf := LeafAt(AddBlock(cfg, l, updates, deletes).value.db, k, node.version);
        && leaf.Some? && leaf.value.addedIn == LeafAt(l.db, k, node.version).value.addedIn
        && leaf.value.value == LeafAt(l.db, k, node.version).value.value
    {
      AddedAt(cfg, l, updates, deletes, plan, LeafKey(k, node.version));
    }
  }

  /** The node a plan writes. */
  lemma {:induction false} NewNode(cfg: Config, l: Ledger, updates: map<Key, Value>, deletes: set<Key>, plan: Plan)
    requires Planned(cfg, l, updates, deletes, plan)
    ensures AddBlock(cfg, l, updates, deletes).Ok?
    ensures NodeAt(AddBlock(cfg, l, updates, deletes).value.db, l.last + 1) == Some(PlanNode(plan))
    ensures forall k :: k in PlanNode(plan).keys <==> k in updates || k in plan.deleted
    ensures forall k :: k in PlanNode(plan).keys ==> (PlanNode(plan).keys[k] <==> k !in updates)
  {
    hide MakePlan, RawOk, Writes, AddBlock;
    PlanIds(cfg, l, updates, deletes, plan);
    AddedAt(cfg, l, updates, deletes, plan, BlockKey(plan.id));
  }

  /** A provable key that the block updates gets its leaf at the new version, and is in the new tree. */
  lemma {:induction false} NewLeaf(
    cfg: Config, l: Ledger, updates: map<Key, Value>, deletes: set<Key>, plan: Plan, k: Key)
    requires Planned(cfg, l, updates, deletes, plan) && k in updates && k !in cfg.nonProvable
    ensures AddBlock(cfg, l, updates, deletes).Ok? && plan.newTree.version > 0
    ensures var db' := AddBlock(cfg, l, updates, deletes).value.db;
      && LeafAt(db', k, plan.newTree.version) == Some(Leaf(plan.id, updates[k], None))
      && RootAt(db', plan.newTree.version) == Some(plan.newTree) && k in plan.newTree.vals
  {
    hide MakePlan, RawOk, Writes, AddBlock, LeafAtMost, Update;
    RootsOf(cfg, l);
    PlanIds(cfg, l, updates, deletes, plan);
    PlanTrees(cfg, l, updates, deletes, plan);
    var ups := updates - cfg.nonProvable;
    assert k in ups;
    assert k in Touched(plan.oldTree, ups, plan.deleted);
    UpdateFollows(cfg.hashPath, plan.oldTree, ups, plan.deleted);
    UpdatedVal(cfg, plan.oldTree, ups, plan.deleted, k);
    AddedAt(cfg, l, updates, deletes, plan, LeafKey(k, plan.newTree.version));
    AddedAt(cfg, l, updates, deletes, plan, InternalKey(plan.newTree.version, []));
    assert Fresh(plan, LeafItem(k), plan.newTree.version) && Fresh(plan, ROOT, plan.newTree.version);
  }

  /** The leaves after a block: the old ones, and one at the new version for every provable key it updates. */
  lemma {:induction false} NewLeaves(
    cfg: Config, l: Ledger, updates: map<Key, Value>, deletes: set<Key>, plan: Plan, k: Key, u: nat)
    requires Planned(cfg, l, updates, deletes, plan)
    ensures AddBlock(cfg, l, updates, deletes).Ok?
    ensures LeafAt(AddBlock(cfg, l, updates, deletes).value.db, k, u).Some?
       <==> LeafAt(l.db, k, u).Some? || (k in updates && k !in cfg.nonProvable && u == plan.newTree.version)
  {
    hide MakePlan, Writes, AddBlock, LeafAtMost, Update, RawOk;
    RootsOf(cfg, l);
    PlanIds(cfg, l, updates, deletes, plan);
    PlanTrees(cfg, l, updates, deletes, plan);
    AddedAt(cfg, l, updates, deletes, plan, LeafKey(k, u));
    if k in updates && k !in cfg.nonProvable {
      NewLeaf(cfg, l, updates, deletes, plan, k);
    }
    if ReadsRoot(cfg, l, updates, deletes) {
      UpdateFollows(cfg.hashPath, plan.oldTree, updates - cfg.nonProvable, plan.deleted);
    }
  }

  lemma {:induction false} AddedLeaves(cfg: Config, l: Ledger, updates: map<Key, Value>, deletes: set<Key>, plan: Plan)
    requires Planned(cfg, l, updates, deletes, plan)
    ensures AddBlock(cfg, l, updates, deletes).Ok? && LeavesOk(cfg, AddBlock(cfg, l, updates, deletes).value.db)
  {
    hide MakePlan, Writes, AddBlock, IdsOk, RootsOk, StalesOk, NpIndexOk, VersionsOk, NodeOk, Apart, DigestOk, LeafAt;
    NewLeaves(cfg, l, updates, deletes, plan, [], 0);
    forall k, u: nat | LeafAt(AddBlock(cfg, l, updates, deletes).value.db, k, u).Some?
      ensures k !in cfg.nonProvable
    {
      NewLeaves(cfg, l, updates, deletes, plan, k, u);
    }
  }

  /** The tree a plan starts from, when it reads one, has exactly the nodes its keys call for. */
  lemma {:induction false} PlanNodes(cfg: Config, l: Ledger, updates: map<Key, Value>, deletes: set<Key>, plan: Plan)
    requires Planned(cfg, l, updates, deletes, plan) && ReadsRoot(cfg, l, updates, deletes)
    ensures NodesExact(cfg.hashPath, plan.oldTree) && NodesExact(cfg.hashPath, plan.newTree)
  {
    hide MakePlan, IdsOk, StalesOk, NpIndexOk, VersionsOk, LeavesOk, NodeOk, Apart, DigestOk, Update, NodesExact;
    PlanTrees(cfg, l, updates, deletes, plan);
    if plan.oldTree == EMPTY_TREE {
      EmptyNodes(cfg);
    } else {
      assert RootAt(l.db, NodeAt(l.db, l.last).value.version) == Some(plan.oldTree);
    }
    UpdateNodes(cfg.hashPath, plan.oldTree, updates - cfg.nonProvable, plan.deleted);
  }

  lemma {:induction false} EmptyNodes(cfg: Config)
    ensures NodesExact(cfg.hashPath, EMPTY_TREE)
  {
  }

  lemma {:induction false} AddedNodes(cfg: Config, l: Ledger, updates: map<Key, Value>, deletes: set<Key>, plan: Plan)
    requires Planned(cfg, l, updates, deletes, plan)
    ensures AddBlock(cfg, l, updates, deletes).Ok? && RootNodesOk(cfg, AddBlock(cfg, l, updates, deletes).value.db)
  {
    hide MakePlan, Writes, AddBlock, IdsOk, RootsOk, StalesOk, NpIndexOk, VersionsOk, LeavesOk, NodeOk, Apart, DigestOk,
         NodesExact, Update;
    AddedAt(cfg, l, updates, deletes, plan, InternalKey(0, []));
    RootsOf(cfg, l);
    PlanTrees(cfg, l, updates, deletes, plan);
    forall w: nat | RootAt(AddBlock(cfg, l, updates, deletes).value.db, w).Some?
      ensures NodesExact(cfg.hashPath, RootAt(AddBlock(cfg, l, updates, deletes).value.db, w).value)
    {
      AddedAt(cfg, l, updates, deletes, plan, InternalKey(w, []));
      if Fresh(plan, ROOT, w) {
        PlanNodes(cfg, l, updates, deletes, plan);
      } else {
        assert RootAt(l.db, w).Some?;
      }
    }
  }

  lemma {:induction false} RootsOf(cfg: Config, l: Ledger)
    requires RawOk(cfg, l)
    ensures RootsOk(l.db) && IdsOk(l) && StalesOk(l.db)
  {
  }

  lemma {:induction false} UpdatedVal(cfg: Config, t: Tree, ups: map<Key, Value>, dels: set<Key>, k: Key)
    requires k in ups
    ensures k in Update(cfg.hashPath, t, ups, dels).vals && Update(cfg.hashPath, t, ups, dels).vals[k] == ups[k]
  {
    assert k in Touched(t, ups, dels);
  }

  /** The new block is in order. */
  lemma {:induction false} NewBlockOk(cfg: Config, l: Ledger, updates: map<Key, Value>, deletes: set<Key>, plan: Plan)
    requires Planned(cfg, l, updates, deletes, plan)
    ensures AddBlock(cfg, l, updates, deletes).Ok?
    ensures NodeOk(cfg, AddBlock(cfg, l, updates, deletes).value.db, l.last + 1)
  {
    hide MakePlan, RawOk, Writes, AddBlock, RootAt, LeafAt;
    NewNode(cfg, l, updates, deletes, plan);
    PlanIds(cfg, l, updates, deletes, plan);
    var db', node := AddBlock(cfg, l, updates, deletes).value.db, PlanNode(plan);
    forall k | k in node.keys
      ensures KeyOk(cfg, db', node, k)
    {
      if k in cfg.nonProvable {
        AddedAt(cfg, l, updates, deletes, plan, NpKey(k, plan.id));
      } else if Wrote(cfg, node, k) {
        NewLeaf(cfg, l, updates, deletes, plan, k);
      }
    }
  }

  /** A new block that shares the version of an earlier one lists no key that one wrote to the tree. */
  lemma {:induction false} NewBlockApart(
    cfg: Config, l: Ledger, updates: map<Key, Value>, deletes: set<Key>, plan: Plan, i: nat, k: Key)
    requires Planned(cfg, l, updates, deletes, plan) && NodeAt(l.db, i).Some?
    requires NodeAt(l.db, i).value.version == plan.newTree.version && k in PlanNode(plan).keys
    ensures !Wrote(cfg, NodeAt(l.db, i).value, k)
  {
    hide MakePlan, GetRawBlock, Apart, DigestOk, StalesOk, VersionsOk, IdsOk, Update;
    PlanVersion(cfg, l, updates, deletes, plan, i);
    PlanIds(cfg, l, updates, deletes, plan);
    PlanTrees(cfg, l, updates, deletes, plan);
    var node := NodeAt(l.db, i).value;
    if Wrote(cfg, node, k) {
      assert NodeOk(cfg, l.db, i);
      assert KeyOk(cfg, l.db, node, k);
      SharedVersion(cfg, l, updates, deletes, plan, k);
      assert false;
    }
  }

  /** When the version does not move, the block lists no key of the stored root. */
  lemma {:induction false} SharedVersion(
    cfg: Config, l: Ledger, updates: map<Key, Value>, deletes: set<Key>, plan: Plan, k: Key)
    requires Planned(cfg, l, updates, deletes, plan) && plan.newTree.version == plan.oldTree.version
    requires k in PlanNode(plan).keys && k !in cfg.nonProvable
    ensures k !in plan.oldTree.vals
    ensures plan.newTree.version > 0 ==> RootAt(l.db, plan.newTree.version) == Some(plan.oldTree)
  {
    hide MakePlan, GetRawBlock, Apart, DigestOk, StalesOk, VersionsOk, IdsOk, NodeOk, Update, LeafAtMost;
    PlanIds(cfg, l, updates, deletes, plan);
    PlanTrees(cfg, l, updates, deletes, plan);
    ReadRootOk(l.db, l.last);
    UpdateFollows(cfg.hashPath, plan.oldTree, updates - cfg.nonProvable, plan.deleted);
    assert k in updates ==> k in updates - cfg.nonProvable;
    assert k in Touched(plan.oldTree, updates - cfg.nonProvable, plan.deleted) <==>
      k in updates - cfg.nonProvable || (k in plan.deleted && k in plan.oldTree.vals);
  }

  /** The new block stores the digest of its parent. */
  lemma {:induction false} NewDigest(cfg: Config, l: Ledger, updates: map<Key, Value>, deletes: set<Key>, plan: Plan)
    requires Planned(cfg, l, updates, deletes, plan) && NodeAt(l.db, l.last).Some?
    ensures RawAt(cfg, l.db, l.last).Ok? && plan.digest == DigestOf(l.last, RawAt(cfg, l.db, l.last).value)
  {
    hide MakePlan, GetRawBlock, Apart, DigestOk, StalesOk, VersionsOk, NodeOk;
    PlanIds(cfg, l, updates, deletes, plan);
    assert BlockKey(l.last) in l.db;
  }

  lemma {:induction false} FirstDigest(cfg: Config, l: Ledger, updates: map<Key, Value>, deletes: set<Key>, plan: Plan)
    requires MakePlan(cfg, l, updates, deletes) == Ok(plan)
    ensures l.last == 0 ==> plan.digest == ZeroDigest
  {
    hide MakePlan, GetRawBlock;
    PlanIds(cfg, l, updates, deletes, plan);
  }

  lemma {:induction false} AddedStales(cfg: Config, l: Ledger, updates: map<Key, Value>, deletes: set<Key>, plan: Plan)
    requires Planned(cfg, l, updates, deletes, plan)
    ensures AddBlock(cfg, l, updates, deletes).Ok? && StalesOk(AddBlock(cfg, l, updates, deletes).value.db)
  {
    hide MakePlan, RawOk, Writes, AddBlock, LeafAtMost, Update;
    RootsOf(cfg, l);
    PlanIds(cfg, l, updates, deletes, plan);
    PlanTrees(cfg, l, updates, deletes, plan);
    AddedAt(cfg, l, updates, deletes, plan, BlockKey(0));
    var db' := AddBlock(cfg, l, updates, deletes).value.db;
    forall since: nat, y | StaleKey(since, y) in db'
      ensures KeyItem(y).Some? && KeyItem(y).value.1 < since
    {
      AddedAt(cfg, l, updates, deletes, plan, StaleKey(since, y));
    }
    forall since: nat, y | NpStaleKey(since, y) in db'
      ensures y.NpKey? && y.id < since
    {
      AddedAt(cfg, l, updates, deletes, plan, NpStaleKey(since, y));
    }
  }

  lemma {:induction false} AddedIndex(cfg: Config, l: Ledger, updates: map<Key, Value>, deletes: set<Key>, plan: Plan)
    requires Planned(cfg, l, updates, deletes, plan)
    ensures AddBlock(cfg, l, updates, deletes).Ok? && NpIndexOk(AddBlock(cfg, l, updates, deletes).value.db)
  {
    hide MakePlan, Writes, AddBlock, LeafAtMost, NpAtMost, Update, GetRawBlock, NodeOk, Apart, DigestOk, RootsOk, VersionsOk,
         StalesOk, IdsOk;
    PlanIds(cfg, l, updates, deletes, plan);
    AddedAt(cfg, l, updates, deletes, plan, BlockKey(0));
    var db' := AddBlock(cfg, l, updates, deletes).value.db;
    forall since: nat, y | NpStaleKey(since, y) in db'
      ensures y.NpKey? && NodeAt(db', since).Some? && NpAt(db', y.key, since).Some?
    {
      AddedAt(cfg, l, updates, deletes, plan, NpStaleKey(since, y));
      AddedAt(cfg, l, updates, deletes, plan, BlockKey(since));
      AddedAt(cfg, l, updates, deletes, plan, NpKey(y.key, since));
    }
  }

  /** Every block of the first database is in the second, and is rebuilt the same. */
  ghost predicate KeepsBlocks(cfg: Config, db: Db, db': Db) {
    forall i: nat :: NodeAt(db, i).Some? ==> NodeAt(db', i).Some? && RawAt(cfg, db', i) == RawAt(cfg, db, i)
  }

  /** The blocks after one is added: the old ones, spared, and the new one. */
  lemma {:induction false} AddedBlocks(
    cfg: Config, l: Ledger, updates: map<Key, Value>, deletes: set<Key>, plan: Plan, i: nat)
    requires Planned(cfg, l, updates, deletes, plan)
    ensures AddBlock(cfg, l, updates, deletes).Ok?
    ensures var db' := AddBlock(cfg, l, updates, deletes).value.db;
      && NodeOk(cfg, db', i)
      && (NodeAt(db', i).Some? <==> NodeAt(l.db, i).Some? || i == l.last + 1)
      && (NodeAt(l.db, i).Some? ==>
           i <= l.last && NodeAt(db', i) == NodeAt(l.db, i) && RawAt(cfg, db', i) == RawAt(cfg, l.db, i))
  {
    hide MakePlan, GetRawBlock, Apart, DigestOk, StalesOk, VersionsOk, RootsOk, AddBlock, Spares, NodeOk, Writes, WriteAt;
    NewBlockOk(cfg, l, updates, deletes, plan);
    NewNode(cfg, l, updates, deletes, plan);
    PlanIds(cfg, l, updates, deletes, plan);
    var db' := AddBlock(cfg, l, updates, deletes).value.db;
    if NodeAt(l.db, i).Some? {
      assert BlockKey(i) in l.db;
      AddSpares(cfg, l, updates, deletes, plan, i);
      SparedNode(cfg, l.db, db', i);
      SparedStays(cfg, l.db, db', i);
    } else if i != l.last + 1 {
      NoOtherNode(cfg, l, updates, deletes, plan, i);
      AbsentOk(cfg, db', i);
    }
  }

  lemma {:induction false} NoOtherNode(
    cfg: Config, l: Ledger, updates: map<Key, Value>, deletes: set<Key>, plan: Plan, i: nat)
    requires MakePlan(cfg, l, updates, deletes) == Ok(plan) && i != l.last + 1
    ensures AddBlock(cfg, l, updates, deletes).Ok?
    ensures NodeAt(AddBlock(cfg, l, updates, deletes).value.db, i) == NodeAt(l.db, i)
  {
    hide MakePlan, AddBlock, Writes;
    PlanIds(cfg, l, updates, deletes, plan);
    AddedAt(cfg, l, updates, deletes, plan, BlockKey(i));
  }

  lemma {:induction false} AddedVersions(cfg: Config, l: Ledger, updates: map<Key, Value>, deletes: set<Key>, plan: Plan)
    requires Planned(cfg, l, updates, deletes, plan)
    ensures AddBlock(cfg, l, updates, deletes).Ok? && VersionsOk(AddBlock(cfg, l, updates, deletes).value)
  {
    hide MakePlan, GetRawBlock, Apart, DigestOk, StalesOk, RootsOk, NodeOk, IdsOk, AddBlock;
    NewNode(cfg, l, updates, deletes, plan);
    var l' := AddBlock(cfg, l, updates, deletes).value;
    AddedTreeIs(cfg, l, updates, deletes, plan);
    forall i: nat, j: nat | i <= j && NodeAt(l'.db, i).Some? && NodeAt(l'.db, j).Some?
      ensures NodeAt(l'.db, i).value.version <= NodeAt(l'.db, j).value.version <= l'.tree.version
    {
      AddedBlocks(cfg, l, updates, deletes, plan, i);
      AddedBlocks(cfg, l, updates, deletes, plan, j);
      if i <= l.last {
        PlanVersion(cfg, l, updates, deletes, plan, i);
      }
      if j <= l.last {
        PlanVersion(cfg, l, updates, deletes, plan, j);
      }
    }
  }

  lemma {:induction false} AddedTreeIs(cfg: Config, l: Ledger, updates: map<Key, Value>, deletes: set<Key>, plan: Plan)
    requires MakePlan(cfg, l, updates, deletes) == Ok(plan)
    ensures AddBlock(cfg, l, updates, deletes).Ok?
    ensures AddBlock(cfg, l, updates, deletes).value.tree == plan.newTree
  {
    hide MakePlan, Writes;
  }

  lemma {:induction false} AddedApart(
    cfg: Config, l: Ledger, updates: map<Key, Value>, deletes: set<Key>, plan: Plan, i: nat, j: nat)
    requires Planned(cfg, l, updates, deletes, plan)
    ensures AddBlock(cfg, l, updates, deletes).Ok? && Apart(cfg, AddBlock(cfg, l, updates, deletes).value.db, i, j)
  {
    hide MakePlan, GetRawBlock, DigestOk, StalesOk, RootsOk, NodeOk, IdsOk, AddBlock, VersionsOk, PlanNode;
    NewNode(cfg, l, updates, deletes, plan);
    PlanNodeVersion(plan);
    var db' := AddBlock(cfg, l, updates, deletes).value.db;
    AddedBlocks(cfg, l, updates, deletes, plan, i);
    AddedBlocks(cfg, l, updates, deletes, plan, j);
    assert Apart(cfg, l.db, i, j);
    if i < j && NodeAt(db', i).Some? && j == l.last + 1 && NodeAt(db', i).value.version == PlanNode(plan).version {
      forall k | k in PlanNode(plan).keys
        ensures !Wrote(cfg, NodeAt(db', i).value, k)
      {
        NewBlockApart(cfg, l, updates, deletes, plan, i, k);
      }
    }
  }

  lemma {:induction false} PlanNodeVersion(plan: Plan)
    ensures PlanNode(plan).version == plan.newTree.version && PlanNode(plan).parentDigest == plan.digest
    ensures PlanNode(plan).stateHash == StateHash(plan.newTree.vals)
  {
  }

  lemma {:induction false} AddedDigest(
    cfg: Config, l: Ledger, updates: map<Key, Value>, deletes: set<Key>, plan: Plan, i: nat)
    requires Planned(cfg, l, updates, deletes, plan)
    ensures AddBlock(cfg, l, updates, deletes).Ok? && DigestOk(cfg, AddBlock(cfg, l, updates, deletes).value.db, i)
  {
    hide MakePlan, GetRawBlock, Apart, StalesOk, RootsOk, NodeOk, IdsOk, AddBlock, VersionsOk, PlanNode;
    NewNode(cfg, l, updates, deletes, plan);
    PlanNodeVersion(plan);
    AddedBlocks(cfg, l, updates, deletes, plan, i);
    assert DigestOk(cfg, l.db, i);
    FirstDigest(cfg, l, updates, deletes, plan);
    if i > 0 {
      AddedBlocks(cfg, l, updates, deletes, plan, i - 1);
      if i == l.last + 1 && NodeAt(l.db, l.last).Some? {
        NewDigest(cfg, l, updates, deletes, plan);
      }
    }
  }

  /** Adding a block keeps the invariant and every block that was there. */
  lemma {:induction false} AddKeepsRaw(cfg: Config, l: Ledger, b: RawBlock)
    requires RawOk(cfg, l) && Adding(cfg)(l, b).Ok?
    ensures RawOk(cfg, Adding(cfg)(l, b).value) && KeepsBlocks(cfg, l.db, Adding(cfg)(l, b).value.db)
  {
    hide GetRawBlock, Apart, DigestOk, StalesOk, NpIndexOk, RootsOk, NodeOk, IdsOk, VersionsOk, LeavesOk, RootNodesOk, MakePlan,
         Writes, NodeAt;
    var plan := MakePlan(cfg, l, b.updates, b.deletes).value;
    AddKeepsIds(cfg, l, b);
    AddKeepsRoots(cfg, l, b);
    AddedStales(cfg, l, b.updates, b.deletes, plan);
    AddedIndex(cfg, l, b.updates, b.deletes, plan);
    AddedLeaves(cfg, l, b.updates, b.deletes, plan);
    AddedNodes(cfg, l, b.updates, b.deletes, plan);
    AddedVersions(cfg, l, b.updates, b.deletes, plan);
    var db' := Adding(cfg)(l, b).value.db;
    forall i: nat
      ensures NodeOk(cfg, db', i)
      ensures NodeAt(l.db, i).Some? ==> NodeAt(db', i).Some? && RawAt(cfg, db', i) == RawAt(cfg, l.db, i)
    {
      AddedBlocks(cfg, l, b.updates, b.deletes, plan, i);
    }
    forall i: nat, j: nat
      ensures Apart(cfg, db', i, j)
    {
      AddedApart(cfg, l, b.updates, b.deletes, plan, i, j);
    }
    forall i: nat
      ensures DigestOk(cfg, db', i)
    {
      AddedDigest(cfg, l, b.updates, b.deletes, plan, i);
    }
  }

  /** Right after it is added, a block is rebuilt from what was added and what it really deleted. */
  lemma {:induction false} RebuiltAsAdded(cfg: Config, l: Ledger, updates: map<Key, Value>, deletes: set<Key>)
    requires RawOk(cfg, l) && AddBlock(cfg, l, updates, deletes).Ok?
    ensures var l' := AddBlock(cfg, l, updates, deletes).value;
      var raw := RawAt(cfg, l'.db, l.last + 1);
      && raw.Ok? && raw.value.updates == updates
      && raw.value.deletes == ActuallyDeleted(l.db, l.tree.version, deletes - updates.Keys)
      && raw.value.stateHash == StateHash(l'.tree.vals)
  {
    hide MakePlan, RawOk, Writes, LeafAtMost, GetRawBlock, PlanNode, NodeOk;
    var plan := MakePlan(cfg, l, updates, deletes).value;
    NewBlockOk(cfg, l, updates, deletes, plan);
    NewNode(cfg, l, updates, deletes, plan);
    PlanIds(cfg, l, updates, deletes, plan);
    AddedTreeIs(cfg, l, updates, deletes, plan);
    PlanNodeVersion(plan);
    var db', node := AddBlock(cfg, l, updates, deletes).value.db, PlanNode(plan);
    forall k | k in node.keys
      ensures BlockKeyValue(cfg, db', node, k) == if k in updates then Some(updates[k]) else None
    {
      NewValue(cfg, l, updates, deletes, plan, k);
    }
    Rebuilds(cfg, db', l.last + 1);
    RebuildIs(cfg, db', l.last + 1, updates);
    assert node.keys.Keys - updates.Keys == plan.deleted;
  }

  /** What getRawBlock finds for a key of the new block. */
  lemma {:induction false} NewValue(
    cfg: Config, l: Ledger, updates: map<Key, Value>, deletes: set<Key>, plan: Plan, k: Key)
    requires Planned(cfg, l, updates, deletes, plan) && k in PlanNode(plan).keys
    ensures AddBlock(cfg, l, updates, deletes).Ok?
    ensures BlockKeyValue(cfg, AddBlock(cfg, l, updates, deletes).value.db, PlanNode(plan), k)
         == if k in updates then Some(updates[k]) else None
  {
    hide MakePlan, RawOk, Writes, LeafAtMost, AddBlock, RootAt;
    NewNode(cfg, l, updates, deletes, plan);
    PlanIds(cfg, l, updates, deletes, plan);
    if k in cfg.nonProvable {
      AddedAt(cfg, l, updates, deletes, plan, NpKey(k, plan.id));
    } else if k in updates {
      NewLeaf(cfg, l, updates, deletes, plan, k);
    }
  }

  /** A block whose listed keys are found exactly when updated is rebuilt from these updates. */
  lemma {:induction false} RebuildIs(cfg: Config, db: Db, i: nat, updates: map<Key, Value>)
    requires NodeAt(db, i).Some? && RawAt(cfg, db, i).Ok? && updates.Keys <= NodeAt(db, i).value.keys.Keys
    requires forall k :: k in NodeAt(db, i).value.keys ==>
      BlockKeyValue(cfg, db, NodeAt(db, i).value, k) == if k in updates then Some(updates[k]) else None
    ensures var node := NodeAt(db, i).value;
      RawAt(cfg, db, i)
      == Ok(RawBlock(updates, node.keys.Keys - updates.Keys, node.parentDigest, node.stateHash))
  {
    hide BlockKeyValue;
    var node := NodeAt(db, i).value;
    var found := map k | k in node.keys && BlockKeyValue(cfg, db, node, k).Some? :: BlockKeyValue(cfg, db, node, k).value;
    assert found == updates;
  }

  // ---------- the hash chain ----------

  /** In a ledger in order, every block on the chain is rebuilt and stores the digest of its rebuilt parent. */
  lemma {:induction false} RawHashChain(cfg: Config, l: Ledger, temps: map<nat, RawBlock>, i: nat)
    requires RawOk(cfg, l) && 1 <= i && l.genesis <= i <= l.last
    ensures var raw := GetRawBlock(cfg, l.db, temps, i);
      && raw.Ok? && raw == RawAt(cfg, l.db, i)
      && (l.genesis < i ==>
           var parent := GetRawBlock(cfg, l.db, temps, i - 1);
           && parent.Ok? && NodeAt(l.db, i).value.parentDigest == DigestOf(i - 1, parent.value)
           && raw.value.parentDigest == DigestOf(i - 1, parent.value))
  {
    hide Apart, StalesOk, RootsOk, NodeOk, VersionsOk;
    assert InRange(i, l.genesis, l.last) && BlockKey(i) in l.db;
    assert NodeOk(cfg, l.db, i);
    Rebuilds(cfg, l.db, i);
    if l.genesis < i {
      assert InRange(i - 1, l.genesis, l.last) && BlockKey(i - 1) in l.db;
      assert NodeOk(cfg, l.db, i - 1);
      Rebuilds(cfg, l.db, i - 1);
      assert DigestOk(cfg, l.db, i);
    }
  }
}
