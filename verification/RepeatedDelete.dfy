/** Pruning after a block that may have deleted a dead key again: exactly when a read changes. */
module RepeatedDelete {
  import opened Common
  import opened SparseTree
  import opened AdapterSpec
  import opened ChainView
  import opened Reading
  import opened Growth
  import opened Pruning
  import opened Export

  // ---------- the block with and without its repeated deletes ----------

  /** The keys that a block deletes although they are dead. */
  function DeadDeletes(s: Ledger, updates: map<Key, Value>, deletes: set<Key>): set<Key> {
    set k | k in deletes && k !in updates && DeadLeaf(s, k)
  }

  /** The newest leaf of a key. */
  function Newest(s: Ledger, k: Key): nat {
    var r := LeafAtMost(s.db, k, s.tree.version);
    if r.Some? then r.value else 0
  }

  /** Deleting what is not in the tree does not change the tree. */
  lemma {:induction false} DeadLeavesTree(
    hashPath: HashPath, t: Tree, ups: map<Key, Value>, dels: set<Key>, live: set<Key>)
    requires dels * t.vals.Keys == live * t.vals.Keys
    ensures Update(hashPath, t, ups, dels) == Update(hashPath, t, ups, live)
  {
    assert Touched(t, ups, dels) == Touched(t, ups, live);
    assert t.vals - dels == t.vals - live by {
      assert forall k :: k in t.vals ==> (k in dels <==> k in dels * t.vals.Keys);
      assert forall k :: k in t.vals ==> (k in live <==> k in live * t.vals.Keys);
    }
    assert NewVals(t, ups, dels) == NewVals(t, ups, live);
    assert NewItems(hashPath, t, ups, dels) == NewItems(hashPath, t, ups, live);
  }

  /** What a block really deletes: the live keys and the dead ones. */
  lemma {:induction false} DeletedKeys(
    cfg: Config, s: Ledger, c: Chain, updates: map<Key, Value>, deletes: set<Key>, k: Key)
    requires Inv(cfg, s, c)
    ensures k in ActuallyDeleted(s.db, s.tree.version, deletes - updates.Keys)
       <==> k in EffectiveBlk(c, updates, deletes).deletes || k in DeadDeletes(s, updates, deletes)
    ensures k in DeadDeletes(s, updates, deletes) ==> k !in LastTree(c).vals
  {
    hide Holds, ChainOk, LeafAtMost;
    LiveFound(cfg, s, c, k);
  }

  /** The block without its repeated deletes, on the chain's own tree. */
  ghost function Clean(cfg: Config, s: Ledger, c: Chain, updates: map<Key, Value>, deletes: set<Key>): Result<Ledger> {
    AddBlock(cfg, InStep(s, c), updates, EffectiveBlk(c, updates, deletes).deletes)
  }

  lemma {:induction false} CleanExtends(cfg: Config, s: Ledger, c: Chain, updates: map<Key, Value>, deletes: set<Key>)
    requires Inv(cfg, s, c) && deletes !! cfg.nonProvable
    ensures var r := Clean(cfg, s, c, updates, deletes);
      && r.Ok? && Inv(cfg, r.value, Extend(cfg, c, EffectiveBlk(c, updates, deletes)))
      && r.value.genesis == GenesisAfterAdd(s.genesis) && r.value.last == |c| + 1
  {
    hide Holds, ChainOk, LeafAtMost, AddBlock;
    var live := EffectiveBlk(c, updates, deletes).deletes;
    InStepFinds(cfg, s, c, updates, live);
    assert EffectiveBlk(c, updates, live) == EffectiveBlk(c, updates, deletes);
    forall k | k in live && k !in updates
      ensures match LeafAtMost(s.db, k, LastTree(c).version)
              case None => true
              case Some(w) => LeafAt(s.db, k, w).value.deletedIn.None?
    {
      LiveFound(cfg, InStep(s, c), c, k);
    }
    AddBlockExtends(cfg, InStep(s, c), c, updates, live);
  }

  /** The two plans agree on the trees and differ in what they delete; when no root is read nothing is deleted. */
  lemma {:induction false} PlansCompared(
    cfg: Config, s: Ledger, c: Chain, updates: map<Key, Value>, deletes: set<Key>, plan: Plan, plan0: Plan)
    requires Inv(cfg, s, c) && deletes !! cfg.nonProvable
    requires MakePlan(cfg, s, updates, deletes) == Ok(plan)
    requires MakePlan(cfg, InStep(s, c), updates, EffectiveBlk(c, updates, deletes).deletes) == Ok(plan0)
    ensures plan.id == plan0.id == |c| + 1 && plan.updates == plan0.updates == updates && plan.digest == plan0.digest
    ensures plan0.deleted == EffectiveBlk(c, updates, deletes).deletes
    ensures plan.deleted == plan0.deleted + DeadDeletes(s, updates, deletes)
    ensures plan.cached == s.tree.version && plan0.cached == LastTree(c).version
    ensures plan0.oldTree == LastTree(c)
    ensures if ReadsRoot(cfg, s, updates, deletes) then plan.oldTree == plan0.oldTree && plan.newTree == plan0.newTree
      else plan.deleted == {} && plan.oldTree == plan.newTree == s.tree && plan0.newTree == LastTree(c)
  {
    hide Holds, ChainOk, LeafAtMost, MakePlan, Update, ActuallyDeleted;
    var live := EffectiveBlk(c, updates, deletes).deletes;
    assert live !! cfg.nonProvable;
    InStepFinds(cfg, s, c, updates, deletes);
    InStepFinds(cfg, s, c, updates, live);
    AddSucceeds(cfg, s, c, updates, deletes);
    AddSucceeds(cfg, InStep(s, c), c, updates, live);
    SamePlanIds(cfg, s, c, updates, deletes, plan, plan0);
    LiveDeletes(cfg, s, c, updates, deletes);
    assert live - updates.Keys == live;
    forall k
      ensures k in plan.deleted <==> k in live || k in DeadDeletes(s, updates, deletes)
      ensures k in DeadDeletes(s, updates, deletes) ==> k !in LastTree(c).vals
    {
      DeletedKeys(cfg, s, c, updates, deletes, k);
    }
    assert plan.deleted * LastTree(c).vals.Keys == live * LastTree(c).vals.Keys;
    DeadLeavesTree(cfg.hashPath, LastTree(c), updates - cfg.nonProvable, plan.deleted, live);
    ProvableEmpty(cfg, updates);
    NothingTouched(cfg, c, updates, live);
  }

  lemma {:induction false} NothingTouched(cfg: Config, c: Chain, updates: map<Key, Value>, live: set<Key>)
    ensures updates.Keys <= cfg.nonProvable && live == {} ==>
      Update(cfg.hashPath, LastTree(c), updates - cfg.nonProvable, live) == LastTree(c)
  {
    ProvableEmpty(cfg, updates);
    if updates.Keys <= cfg.nonProvable && live == {} {
      assert Touched(LastTree(c), updates - cfg.nonProvable, live) == {};
    }
  }

  lemma {:induction false} SamePlanIds(
    cfg: Config, s: Ledger, c: Chain, updates: map<Key, Value>, deletes: set<Key>, plan: Plan, plan0: Plan)
    requires MakePlan(cfg, s, updates, deletes) == Ok(plan)
    requires MakePlan(cfg, InStep(s, c), updates, EffectiveBlk(c, updates, deletes).deletes) == Ok(plan0)
    ensures plan.updates == plan0.updates == updates && plan.digest == plan0.digest
  {
    hide ParentDigest, Update, LatestRoot, ActuallyDeleted;
  }

  /** Live keys are found. */
  lemma {:induction false} LiveDeletes(cfg: Config, s: Ledger, c: Chain, updates: map<Key, Value>, deletes: set<Key>)
    requires Inv(cfg, s, c)
    ensures var live := EffectiveBlk(c, updates, deletes).deletes;
      ActuallyDeleted(s.db, s.tree.version, live - updates.Keys) == live
  {
    hide Holds, ChainOk, LeafAtMost;
    var live := EffectiveBlk(c, updates, deletes).deletes;
    forall k | k in live
      ensures LeafAtMost(s.db, k, s.tree.version).Some?
    {
      LiveFound(cfg, s, c, k);
    }
  }

  // ---------- databases that differ in the stamps of dead keys ----------

  function VersionAt(db: Db, u: nat): nat {
    if NodeAt(db, u).Some? then NodeAt(db, u).value.version else 0
  }

  /**
   * Equal databases, except that block n + 1 may list other keys and have another version at or
   * beyond all leaves, and that the newest leaves of dead keys may carry another stamp.
   */
  ghost predicate Twins(s: Ledger, n: nat, dead: set<Key>, db: Db, db0: Db) {
    && (forall k, u: nat :: NpAt(db, k, u) == NpAt(db0, k, u))
    && (forall since: nat, y :: StaleKey(since, y) in db <==> StaleKey(since, y) in db0)
    && (forall since: nat, y :: NpStaleKey(since, y) in db <==> NpStaleKey(since, y) in db0)
    && (forall u: nat :: NodeAt(db, u).Some? <==> NodeAt(db0, u).Some?)
    && (forall u: nat :: u != n + 1 ==> NodeAt(db, u) == NodeAt(db0, u))
    && (forall k, u: nat :: LeafAt(db, k, u).Some? <==> LeafAt(db0, k, u).Some?)
    && (forall k, u: nat :: !(k in dead && u == Newest(s, k)) ==> LeafAt(db, k, u) == LeafAt(db0, k, u))
    && (forall k, u: nat :: LeafAt(db, k, u).Some? ==> (u <= VersionAt(db, n + 1) <==> u <= VersionAt(db0, n + 1)))
  }

  /** The leaf that getValue looks at. */
  function Found(db: Db, k: Key, v: nat): Option<nat> {
    if BlockAtMost(db, v).None? then None
    else LeafAtMost(db, k, NodeAt(db, BlockAtMost(db, v).value).value.version)
  }

  lemma {:induction false} LeafAtMostUpTo(db: Db, db0: Db, k: Key, v: nat, v0: nat)
    requires forall u: nat :: LeafAt(db, k, u).Some? <==> LeafAt(db0, k, u).Some?
    requires forall u: nat :: LeafAt(db, k, u).Some? ==> (u <= v <==> u <= v0)
    ensures LeafAtMost(db, k, v) == LeafAtMost(db0, k, v0)
  {
    hide LeafAt;
    var a, b := LeafAtMost(db, k, v), LeafAtMost(db0, k, v0);
    assert a.Some? ==> LeafAt(db0, k, a.value).Some?;
    assert b.Some? ==> LeafAt(db, k, b.value).Some?;
  }

  lemma {:induction false} TwinsFind(s: Ledger, n: nat, dead: set<Key>, db: Db, db0: Db, k: Key, v: nat)
    requires Twins(s, n, dead, db, db0)
    ensures Found(db, k, v) == Found(db0, k, v)
  {
    hide LeafAtMost, BlockAtMost, LeafAt, NodeAt, NpAt, Newest;
    BlockAtMostSame(db, db0, v);
    var b := BlockAtMost(db, v);
    if b.Some? {
      var u := b.value;
      assert NodeAt(db, u).Some? && NodeAt(db0, u).Some?;
      assert u != n + 1 ==> NodeAt(db, u) == NodeAt(db0, u);
      LeafAtMostUpTo(db, db0, k, NodeAt(db, u).value.version, NodeAt(db0, u).value.version);
    }
  }

  /** Reads that do not look at the newest leaf of a dead key are the same. */
  lemma {:induction false} TwinsRead(cfg: Config, s: Ledger, n: nat, dead: set<Key>, db: Db, db0: Db, k: Key, v: nat)
    requires Twins(s, n, dead, db, db0) && !(k in dead && Found(db, k, v) == Some(Newest(s, k)))
    ensures GetValue(cfg, db, k, v) == GetValue(cfg, db0, k, v)
  {
    hide LeafAtMost, BlockAtMost, NpAtMost, LeafAt, NodeAt, NpAt, Newest;
    TwinsFind(s, n, dead, db, db0, k, v);
    NpAtMostSame(db, db0, k, v);
    BlockAtMostSame(db, db0, v);
  }

  /** What getValue returns for a provable key, from the leaf it looks at. */
  lemma {:induction false} ReadOf(cfg: Config, db: Db, k: Key, v: nat, w: nat)
    requires k !in cfg.nonProvable && Found(db, k, v) == Some(w)
    ensures LeafAt(db, k, w).Some?
    ensures var leaf := LeafAt(db, k, w).value;
      GetValue(cfg, db, k, v)
      == if leaf.deletedIn.Some? && leaf.deletedIn.value <= v then Err(NotFound) else Ok((leaf.value, leaf.addedIn))
  {
  }

  // ---------- adding ----------

  /** Two plans as PlansCompared relates them. */
  ghost predicate PlanPair(
    cfg: Config, s: Ledger, c: Chain, updates: map<Key, Value>, deletes: set<Key>, plan: Plan, plan0: Plan)
  {
    && Inv(cfg, s, c) && deletes !! cfg.nonProvable
    && MakePlan(cfg, s, updates, deletes) == Ok(plan)
    && MakePlan(cfg, InStep(s, c), updates, EffectiveBlk(c, updates, deletes).deletes) == Ok(plan0)
  }

  /** A dead key that is deleted again is in neither tree. */
  lemma {:induction false} DeadInNoTree(
    cfg: Config, s: Ledger, c: Chain, updates: map<Key, Value>, deletes: set<Key>, plan: Plan, plan0: Plan, k: Key)
    requires PlanPair(cfg, s, c, updates, deletes, plan, plan0) && k in DeadDeletes(s, updates, deletes)
    ensures ReadsRoot(cfg, s, updates, deletes) && LeafItem(k) !in plan0.newTree.items && k !in plan0.deleted
    ensures LeafAtMost(s.db, k, plan.cached) == Some(Newest(s, k)) && LeafAt(s.db, k, Newest(s, k)).Some?
    ensures LeafAt(s.db, k, Newest(s, k)).value.deletedIn.Some?
  {
    hide Holds, ChainOk, LeafAtMost, MakePlan, Update;
    PlansCompared(cfg, s, c, updates, deletes, plan, plan0);
    AddSucceeds(cfg, s, c, updates, deletes);
    DeletedKeys(cfg, s, c, updates, deletes, k);
    TreesOk(cfg, c, |c|);
    assert TreeAt(c, |c|) == LastTree(c);
    UpdateFollows(cfg.hashPath, LastTree(c), updates - cfg.nonProvable, plan.deleted);
  }

  /** The two plans write the same leaves, but for the stamps of dead keys. */
  lemma {:induction false} LeavesCompared(
    cfg: Config, s: Ledger, c: Chain, updates: map<Key, Value>, deletes: set<Key>, plan: Plan, plan0: Plan,
    k: Key, u: nat)
    requires PlanPair(cfg, s, c, updates, deletes, plan, plan0)
    ensures if k in DeadDeletes(s, updates, deletes) && u == Newest(s, k) then
        && LeafAt(s.db, k, u).Some? && WriteAt(cfg, s.db, plan0, LeafKey(k, u)).None?
        && WriteAt(cfg, s.db, plan, LeafKey(k, u))
           == Some(LeafVal(LeafAt(s.db, k, u).value.(deletedIn := Some(|c| + 1))))
      else WriteAt(cfg, s.db, plan, LeafKey(k, u)) == WriteAt(cfg, s.db, plan0, LeafKey(k, u))
  {
    hide Inv, LeafAtMost, MakePlan, Update, DeadDeletes, Newest, ReadsRoot, EffectiveBlk;
    PlansCompared(cfg, s, c, updates, deletes, plan, plan0);
    InStepFinds(cfg, s, c, updates, deletes);
    if k in DeadDeletes(s, updates, deletes) {
      DeadInNoTree(cfg, s, c, updates, deletes, plan, plan0, k);
    }
  }

  lemma {:induction false} WritesCompared(
    cfg: Config, s: Ledger, c: Chain, updates: map<Key, Value>, deletes: set<Key>, plan: Plan, plan0: Plan, y: DbKey)
    requires PlanPair(cfg, s, c, updates, deletes, plan, plan0)
    requires !y.LeafKey? && y != BlockKey(|c| + 1)
    ensures WriteAt(cfg, s.db, plan, y) == WriteAt(cfg, s.db, plan0, y)
  {
    hide Inv, LeafAtMost, NpAtMost, MakePlan, Update, DeadDeletes, ReadsRoot, EffectiveBlk, Below;
    PlansCompared(cfg, s, c, updates, deletes, plan, plan0);
  }

  lemma {:induction false} VersionsCompared(
    cfg: Config, s: Ledger, c: Chain, updates: map<Key, Value>, deletes: set<Key>, plan: Plan, plan0: Plan)
    requires PlanPair(cfg, s, c, updates, deletes, plan, plan0)
    ensures plan0.newTree.version >= LastTree(c).version && s.tree.version >= LastTree(c).version
    ensures plan.newTree.version == if ReadsRoot(cfg, s, updates, deletes) then plan0.newTree.version else s.tree.version
    ensures WriteAt(cfg, s.db, plan, BlockKey(|c| + 1)) == Some(NodeVal(PlanNode(plan)))
    ensures WriteAt(cfg, s.db, plan0, BlockKey(|c| + 1)) == Some(NodeVal(PlanNode(plan0)))
  {
    hide Holds, ChainOk, LeafAtMost, MakePlan, Update, DeadDeletes, ReadsRoot;
    PlansCompared(cfg, s, c, updates, deletes, plan, plan0);
    assert EffectiveBlk(c, updates, deletes).deletes !! cfg.nonProvable;
    InStepFinds(cfg, s, c, updates, deletes);
    AddSucceeds(cfg, InStep(s, c), c, updates, EffectiveBlk(c, updates, deletes).deletes);
    TreesOk(cfg, c, |c|);
    assert TreeAt(c, |c|) == LastTree(c);
    UpdateFollows(cfg.hashPath, LastTree(c), updates - cfg.nonProvable, plan0.deleted);
  }

  /** A key in the database with the block and in the one without its repeated deletes. */
  lemma {:induction false} AddedCompared(
    cfg: Config, s: Ledger, c: Chain, updates: map<Key, Value>, deletes: set<Key>, y: DbKey)
    requires Inv(cfg, s, c) && deletes !! cfg.nonProvable
    ensures AddBlock(cfg, s, updates, deletes).Ok? && Clean(cfg, s, c, updates, deletes).Ok?
    ensures var db, db0 := AddBlock(cfg, s, updates, deletes).value.db, Clean(cfg, s, c, updates, deletes).value.db;
      match y
      case BlockKey(u) =>
        if u == |c| + 1 then
          && NodeAt(db, u).Some? && NodeAt(db0, u).Some?
          && NodeAt(db0, u).value.version >= LastTree(c).version
          && NodeAt(db, u).value.version
             == (if ReadsRoot(cfg, s, updates, deletes) then NodeAt(db0, u).value.version else s.tree.version)
        else Lookup(db, y) == Lookup(db0, y)
      case LeafKey(k, u) =>
        if k in DeadDeletes(s, updates, deletes) && u == Newest(s, k) then
          && LeafAt(s.db, k, u).Some? && LeafAt(db0, k, u) == LeafAt(s.db, k, u)
          && LeafAt(db, k, u) == Some(LeafAt(s.db, k, u).value.(deletedIn := Some(|c| + 1)))
        else Lookup(db, y) == Lookup(db0, y)
      case _ => Lookup(db, y) == Lookup(db0, y)
  {
    hide Holds, ChainOk, LeafAtMost, MakePlan, Update, AddBlock, Writes, NpAtMost, Below, ReadsRoot, ActuallyDeleted,
         WriteAt, DeadDeletes, Newest;
    var live := EffectiveBlk(c, updates, deletes).deletes;
    assert live !! cfg.nonProvable;
    InStepFinds(cfg, s, c, updates, deletes);
    AddSucceeds(cfg, s, c, updates, deletes);
    AddSucceeds(cfg, InStep(s, c), c, updates, live);
    var plan, plan0 := MakePlan(cfg, s, updates, deletes).value, MakePlan(cfg, InStep(s, c), updates, live).value;
    PlansCompared(cfg, s, c, updates, deletes, plan, plan0);
    AddedAt(cfg, s, updates, deletes, plan, y);
    AddedAt(cfg, InStep(s, c), updates, live, plan0, y);
    match y
    case BlockKey(u) =>
      if u == |c| + 1 {
        VersionsCompared(cfg, s, c, updates, deletes, plan, plan0);
      } else {
        WritesCompared(cfg, s, c, updates, deletes, plan, plan0, y);
      }
    case LeafKey(k, u) => LeavesCompared(cfg, s, c, updates, deletes, plan, plan0, k, u);
    case _ => WritesCompared(cfg, s, c, updates, deletes, plan, plan0, y);
  }

  /** Leaves of a represented chain are at most as new as its tree. */
  lemma {:induction false} LeafBound(cfg: Config, s: Ledger, c: Chain, k: Key, u: nat)
    requires Inv(cfg, s, c) && LeafAt(s.db, k, u).Some?
    ensures u <= LastTree(c).version
    ensures LeafAt(s.db, k, u).value.deletedIn.Some? ==> LeafAt(s.db, k, u).value.deletedIn.value <= |c|
  {
    assert Lookup(s.db, LeafKey(k, u)) == Expect(cfg, c, s.genesis, LeafKey(k, u));
    KeptLeaf(cfg, c, s.genesis, k, u);
    VersionsGrow(cfg, c, Writer(c, u, |c|), |c|);
    DeleterBound(c, k, u, |c|);
  }

  /** A block number n + 1 that reads no root does not separate the leaves. */
  lemma {:induction false} SameSide(
    cfg: Config, s: Ledger, c: Chain, updates: map<Key, Value>, deletes: set<Key>, k: Key, u: nat)
    requires Inv(cfg, s, c) && deletes !! cfg.nonProvable && AddBlock(cfg, s, updates, deletes).Ok?
    requires Clean(cfg, s, c, updates, deletes).Ok? && LeafAt(AddBlock(cfg, s, updates, deletes).value.db, k, u).Some?
    ensures u <= VersionAt(AddBlock(cfg, s, updates, deletes).value.db, |c| + 1)
       <==> u <= VersionAt(Clean(cfg, s, c, updates, deletes).value.db, |c| + 1)
  {
    hide Holds, ChainOk, AddBlock, ReadsRoot, Clean;
    AddedCompared(cfg, s, c, updates, deletes, BlockKey(|c| + 1));
    if !ReadsRoot(cfg, s, updates, deletes) {
      UnreadRootAt(cfg, s, c, updates, deletes, LeafKey(k, u));
      LeafBound(cfg, s, c, k, u);
    }
  }

  lemma {:induction false} TwinsAdded(cfg: Config, s: Ledger, c: Chain, updates: map<Key, Value>, deletes: set<Key>)
    requires Inv(cfg, s, c) && deletes !! cfg.nonProvable
    ensures AddBlock(cfg, s, updates, deletes).Ok? && Clean(cfg, s, c, updates, deletes).Ok?
    ensures Twins(s, |c|, DeadDeletes(s, updates, deletes), AddBlock(cfg, s, updates, deletes).value.db,
                  Clean(cfg, s, c, updates, deletes).value.db)
  {
    hide Holds, ChainOk, AddBlock, Clean, DeadDeletes, Newest, ReadsRoot, VersionAt;
    AddedCompared(cfg, s, c, updates, deletes, BlockKey(0));
    var db, db0 := AddBlock(cfg, s, updates, deletes).value.db, Clean(cfg, s, c, updates, deletes).value.db;
    forall k, u: nat
      ensures NpAt(db, k, u) == NpAt(db0, k, u)
      ensures LeafAt(db, k, u).Some? <==> LeafAt(db0, k, u).Some?
      ensures !(k in DeadDeletes(s, updates, deletes) && u == Newest(s, k)) ==> LeafAt(db, k, u) == LeafAt(db0, k, u)
      ensures LeafAt(db, k, u).Some? ==> (u <= VersionAt(db, |c| + 1) <==> u <= VersionAt(db0, |c| + 1))
    {
      AddedCompared(cfg, s, c, updates, deletes, NpKey(k, u));
      AddedCompared(cfg, s, c, updates, deletes, LeafKey(k, u));
      if LeafAt(db, k, u).Some? {
        SameSide(cfg, s, c, updates, deletes, k, u);
      }
    }
    forall since: nat, y
      ensures StaleKey(since, y) in db <==> StaleKey(since, y) in db0
      ensures NpStaleKey(since, y) in db <==> NpStaleKey(since, y) in db0
    {
      AddedCompared(cfg, s, c, updates, deletes, StaleKey(since, y));
      AddedCompared(cfg, s, c, updates, deletes, NpStaleKey(since, y));
    }
    forall u: nat
      ensures NodeAt(db, u).Some? <==> NodeAt(db0, u).Some?
      ensures u != |c| + 1 ==> NodeAt(db, u) == NodeAt(db0, u)
    {
      AddedCompared(cfg, s, c, updates, deletes, BlockKey(u));
    }
  }

  // ---------- pruning ----------

  /** The database after block g is pruned. */
  function PrunedDb(db: Db, g: nat): (r: Db)
    ensures forall y :: Lookup(r, y).Some? ==> Lookup(r, y) == Lookup(db, y)
  {
    match NodeAt(db, g)
    case None => db
    case Some(node) => Without(db, y => DiesWithGenesis(db, node, g, y))
  }

  lemma {:induction false} PrunedAt(db: Db, g: nat, y: DbKey)
    requires NodeAt(db, g).Some?
    ensures Lookup(PrunedDb(db, g), y)
         == if DiesWithGenesis(db, NodeAt(db, g).value, g, y) then None else Lookup(db, y)
  {
  }

  lemma {:induction false} TwinsPruned(s: Ledger, n: nat, dead: set<Key>, db: Db, db0: Db, g: nat)
    requires Twins(s, n, dead, db, db0) && g <= n && NodeAt(db, g).Some?
    ensures Twins(s, n, dead, PrunedDb(db, g), PrunedDb(db0, g))
  {
    hide Newest, PrunedDb, DiesWithGenesis;
    var node := NodeAt(db, g).value;
    assert NodeAt(db0, g) == NodeAt(db, g);
    var p, p0 := PrunedDb(db, g), PrunedDb(db0, g);
    forall y
      ensures DiesWithGenesis(db, node, g, y) <==> DiesWithGenesis(db0, node, g, y)
      ensures Lookup(p, y) == if DiesWithGenesis(db, node, g, y) then None else Lookup(db, y)
      ensures Lookup(p0, y) == if DiesWithGenesis(db, node, g, y) then None else Lookup(db0, y)
    {
      SameDeaths(db, db0, node, g, y);
      PrunedAt(db, g, y);
      PrunedAt(db0, g, y);
    }
    forall since: nat, y
      ensures StaleKey(since, y) in p <==> StaleKey(since, y) in p0
      ensures NpStaleKey(since, y) in p <==> NpStaleKey(since, y) in p0
    {
      assert Lookup(p, StaleKey(since, y)).Some? <==> Lookup(p0, StaleKey(since, y)).Some?;
      assert Lookup(p, NpStaleKey(since, y)).Some? <==> Lookup(p0, NpStaleKey(since, y)).Some?;
    }
    forall k, u: nat
      ensures NpAt(p, k, u) == NpAt(p0, k, u)
      ensures LeafAt(p, k, u).Some? <==> LeafAt(p0, k, u).Some?
      ensures !(k in dead && u == Newest(s, k)) ==> LeafAt(p, k, u) == LeafAt(p0, k, u)
    {
      assert NpAt(db, k, u) == NpAt(db0, k, u);
      assert LeafAt(db, k, u).Some? <==> LeafAt(db0, k, u).Some?;
      assert Lookup(p, LeafKey(k, u)).None? <==>
        DiesWithGenesis(db, node, g, LeafKey(k, u)) || Lookup(db, LeafKey(k, u)).None?;
    }
    forall u: nat
      ensures NodeAt(p, u).Some? <==> NodeAt(p0, u).Some?
      ensures u != n + 1 ==> NodeAt(p, u) == NodeAt(p0, u)
    {
      assert NodeAt(db, u).Some? <==> NodeAt(db0, u).Some?;
      assert Lookup(p, BlockKey(u))
          == if DiesWithGenesis(db, node, g, BlockKey(u)) then None else Lookup(db, BlockKey(u));
    }
    forall k, u: nat | LeafAt(p, k, u).Some?
      ensures u <= VersionAt(p, n + 1) <==> u <= VersionAt(p0, n + 1)
    {
      assert Lookup(p, LeafKey(k, u)) == Lookup(db, LeafKey(k, u));
      assert LeafAt(db, k, u).Some?;
      assert Lookup(p, BlockKey(n + 1)).None? <==>
        DiesWithGenesis(db, node, g, BlockKey(n + 1)) || Lookup(db, BlockKey(n + 1)).None?;
    }
  }

  lemma {:induction false} SameDeaths(db: Db, db0: Db, node: Node, g: nat, y: DbKey)
    requires forall since: nat, y :: StaleKey(since, y) in db <==> StaleKey(since, y) in db0
    requires forall since: nat, y :: NpStaleKey(since, y) in db <==> NpStaleKey(since, y) in db0
    ensures DiesWithGenesis(db, node, g, y) <==> DiesWithGenesis(db0, node, g, y)
  {
  }

  // ---------- a block, then pruning ----------

  /** A represented nonempty chain and a block that can be added to it. */
  ghost predicate Setting(cfg: Config, s: Ledger, c: Chain, deletes: set<Key>) {
    Inv(cfg, s, c) && c != [] && deletes !! cfg.nonProvable
  }

  ghost function WithBlock(cfg: Config, s: Ledger, updates: map<Key, Value>, deletes: set<Key>): Db {
    match AddBlock(cfg, s, updates, deletes) case Ok(l) => l.db case Err(_) => s.db
  }

  ghost function WithoutRepeats(cfg: Config, s: Ledger, c: Chain, updates: map<Key, Value>, deletes: set<Key>): Db {
    match Clean(cfg, s, c, updates, deletes) case Ok(l) => l.db case Err(_) => s.db
  }

  /** The newest leaf of a key is indexed as stale since the version of the genesis block. */
  predicate Exposed(s: Ledger, k: Key) {
    match NodeAt(s.db, s.genesis)
    case None => false
    case Some(node) => StaleKey(node.version, LeafKey(k, Newest(s, k))) in s.db
  }

  lemma {:induction false} Prepared(cfg: Config, s: Ledger, c: Chain, updates: map<Key, Value>, deletes: set<Key>)
    requires Setting(cfg, s, c, deletes)
    ensures var db, db0, g := WithBlock(cfg, s, updates, deletes), WithoutRepeats(cfg, s, c, updates, deletes), s.genesis;
      && 1 <= g <= |c| && NodeAt(db, g).Some? && NodeAt(db, g) == NodeAt(s.db, g) && NodeAt(db0, g) == NodeAt(db, g)
      && Twins(s, |c|, DeadDeletes(s, updates, deletes), db, db0)
      && Twins(s, |c|, DeadDeletes(s, updates, deletes), PrunedDb(db, g), PrunedDb(db0, g))
      && Clean(cfg, s, c, updates, deletes).Ok?
      && DeleteGenesis(cfg, Clean(cfg, s, c, updates, deletes).value).Ok?
      && DeleteGenesis(cfg, Clean(cfg, s, c, updates, deletes).value).value.db == PrunedDb(db0, g)
  {
    hide Holds, ChainOk, AddBlock, Clean, Twins, DiesWithGenesis;
    var g := s.genesis;
    TwinsAdded(cfg, s, c, updates, deletes);
    CleanExtends(cfg, s, c, updates, deletes);
    var l0 := Clean(cfg, s, c, updates, deletes).value;
    var c' := Extend(cfg, c, EffectiveBlk(c, updates, deletes));
    InvNode(cfg, s, c, g);
    InvNode(cfg, l0, c', g);
    TwinNode(s, |c|, DeadDeletes(s, updates, deletes), WithBlock(cfg, s, updates, deletes), l0.db, g);
    SameNodeOf(cfg, c, EffectiveBlk(c, updates, deletes), g);
    TwinsPruned(s, |c|, DeadDeletes(s, updates, deletes), WithBlock(cfg, s, updates, deletes), l0.db, g);
  }

  lemma {:induction false} SameNodeOf(cfg: Config, c: Chain, blk: Blk, i: nat)
    requires 1 <= i <= |c|
    ensures NodeOf(Extend(cfg, c, blk), i) == NodeOf(c, i)
  {
    hide Update;
  }

  lemma {:induction false} TwinNode(s: Ledger, n: nat, dead: set<Key>, db: Db, db0: Db, u: nat)
    requires Twins(s, n, dead, db, db0) && u != n + 1
    ensures NodeAt(db, u) == NodeAt(db0, u)
  {
  }

  /** Without its repeated deletes the block can be followed by pruning that nobody sees. */
  lemma {:induction false} CleanInvisible(
    cfg: Config, s: Ledger, c: Chain, updates: map<Key, Value>, deletes: set<Key>, k: Key, v: nat)
    requires Setting(cfg, s, c, deletes) && s.genesis < v
    ensures var db0 := WithoutRepeats(cfg, s, c, updates, deletes);
      GetValue(cfg, PrunedDb(db0, s.genesis), k, v) == GetValue(cfg, db0, k, v)
  {
    hide Holds, ChainOk, Clean, GetValue, PrunedDb, DeleteGenesis, Twins;
    Prepared(cfg, s, c, updates, deletes);
    CleanExtends(cfg, s, c, updates, deletes);
    var l0 := Clean(cfg, s, c, updates, deletes).value;
    PruningInvisible(cfg, l0, map[], Extend(cfg, c, EffectiveBlk(c, updates, deletes)), k, v);
  }

  /** A read that looks at no restamped leaf, before and after, does not change. */
  lemma {:induction false} OtherRead(
    cfg: Config, s: Ledger, c: Chain, updates: map<Key, Value>, deletes: set<Key>, k: Key, v: nat)
    requires Setting(cfg, s, c, deletes) && s.genesis < v
    requires var db := WithBlock(cfg, s, updates, deletes);
      k in DeadDeletes(s, updates, deletes) ==>
        Found(db, k, v) != Some(Newest(s, k)) && Found(PrunedDb(db, s.genesis), k, v) != Some(Newest(s, k))
    ensures var db := WithBlock(cfg, s, updates, deletes);
      GetValue(cfg, PrunedDb(db, s.genesis), k, v) == GetValue(cfg, db, k, v)
  {
    hide Inv, GetValue, PrunedDb, Twins, WithBlock, WithoutRepeats, Found, DeadDeletes, Newest;
    Prepared(cfg, s, c, updates, deletes);
    var db, db0 := WithBlock(cfg, s, updates, deletes), WithoutRepeats(cfg, s, c, updates, deletes);
    var dead := DeadDeletes(s, updates, deletes);
    TwinsRead(cfg, s, |c|, dead, db, db0, k, v);
    TwinsRead(cfg, s, |c|, dead, PrunedDb(db, s.genesis), PrunedDb(db0, s.genesis), k, v);
    CleanInvisible(cfg, s, c, updates, deletes, k, v);
  }

  /** The leaves of a dead key that is deleted again: one restamped, none new, none beyond it. */
  lemma {:induction false} DeadLeaves(
    cfg: Config, s: Ledger, c: Chain, updates: map<Key, Value>, deletes: set<Key>, k: Key, u: nat)
    requires Setting(cfg, s, c, deletes) && k in DeadDeletes(s, updates, deletes)
    ensures var db, db0, w := WithBlock(cfg, s, updates, deletes), WithoutRepeats(cfg, s, c, updates, deletes), Newest(s, k);
      && k !in cfg.nonProvable
      && LeafAt(db, k, w).Some? && LeafAt(db, k, w).value.deletedIn == Some(|c| + 1)
      && LeafAt(db0, k, w).Some? && LeafAt(db0, k, w).value.deletedIn.Some?
      && LeafAt(db0, k, w).value.deletedIn.value <= |c|
      && (LeafAt(db, k, u).Some? ==> u <= w)
  {
    hide Holds, ChainOk, AddBlock, Clean, LeafAtMost, MakePlan, Update;
    var live := EffectiveBlk(c, updates, deletes).deletes;
    assert live !! cfg.nonProvable;
    InStepFinds(cfg, s, c, updates, deletes);
    AddSucceeds(cfg, s, c, updates, deletes);
    AddSucceeds(cfg, InStep(s, c), c, updates, live);
    var plan, plan0 := MakePlan(cfg, s, updates, deletes).value, MakePlan(cfg, InStep(s, c), updates, live).value;
    DeadInNoTree(cfg, s, c, updates, deletes, plan, plan0, k);
    PlansCompared(cfg, s, c, updates, deletes, plan, plan0);
    AddedCompared(cfg, s, c, updates, deletes, LeafKey(k, Newest(s, k)));
    LeafBound(cfg, s, c, k, Newest(s, k));
    LeafAfterDelete(cfg, s, updates, deletes, plan, k, u);
    if LeafAt(s.db, k, u).Some? {
      LeafBound(cfg, s, c, k, u);
    }
  }

  /** Index entries since the genesis block's version were there before the block was added. */
  lemma {:induction false} GenesisStales(
    cfg: Config, s: Ledger, c: Chain, updates: map<Key, Value>, deletes: set<Key>, y: DbKey)
    requires Setting(cfg, s, c, deletes) && NodeAt(s.db, s.genesis).Some?
    ensures var since := NodeAt(s.db, s.genesis).value.version;
      StaleKey(since, y) in WithBlock(cfg, s, updates, deletes) <==> StaleKey(since, y) in s.db
  {
    hide Holds, ChainOk, AddBlock, MakePlan, Update;
    var since := NodeAt(s.db, s.genesis).value.version;
    InvNode(cfg, s, c, s.genesis);
    VersionsGrow(cfg, c, s.genesis, |c|);
    AddSucceeds(cfg, s, c, updates, deletes);
    AddedAt(cfg, s, updates, deletes, MakePlan(cfg, s, updates, deletes).value, StaleKey(since, y));
  }

  /** Pruning removes the restamped leaf exactly when it is exposed. */
  lemma {:induction false} NewestDies(
    cfg: Config, s: Ledger, c: Chain, updates: map<Key, Value>, deletes: set<Key>, k: Key)
    requires Setting(cfg, s, c, deletes) && k in DeadDeletes(s, updates, deletes)
    ensures var db, w := WithBlock(cfg, s, updates, deletes), Newest(s, k);
      LeafAt(PrunedDb(db, s.genesis), k, w) == if Exposed(s, k) then None else LeafAt(db, k, w)
  {
    hide Inv, WithBlock, Twins, DeadDeletes, Newest, PrunedDb;
    Prepared(cfg, s, c, updates, deletes);
    var db, w, g := WithBlock(cfg, s, updates, deletes), Newest(s, k), s.genesis;
    PrunedAt(db, g, LeafKey(k, w));
    GenesisStales(cfg, s, c, updates, deletes, LeafKey(k, w));
    NpTargets(cfg, s, c, updates, deletes, LeafKey(k, w));
  }

  /** Non-provable index entries point at non-provable entries only. */
  lemma {:induction false} NpTargets(
    cfg: Config, s: Ledger, c: Chain, updates: map<Key, Value>, deletes: set<Key>, y: DbKey)
    requires Setting(cfg, s, c, deletes) && !y.NpKey?
    ensures NpStaleKey(s.genesis, y) !in WithBlock(cfg, s, updates, deletes)
  {
    hide ChainOk, AddBlock, MakePlan, Update;
    AddSucceeds(cfg, s, c, updates, deletes);
    AddedAt(cfg, s, updates, deletes, MakePlan(cfg, s, updates, deletes).value, NpStaleKey(s.genesis, y));
    assert Lookup(s.db, NpStaleKey(s.genesis, y)) == Expect(cfg, c, s.genesis, NpStaleKey(s.genesis, y));
  }

  /** Above the genesis block pruning removes no block. */
  lemma {:induction false} BlocksStay(
    cfg: Config, s: Ledger, c: Chain, updates: map<Key, Value>, deletes: set<Key>, v: nat)
    requires Setting(cfg, s, c, deletes) && s.genesis < v
    ensures var db := WithBlock(cfg, s, updates, deletes);
      && BlockAtMost(PrunedDb(db, s.genesis), v) == BlockAtMost(db, v) && BlockAtMost(db, v).Some?
      && var b := BlockAtMost(db, v).value;
      NodeAt(PrunedDb(db, s.genesis), b) == NodeAt(db, b)
  {
    hide Inv, WithBlock, WithoutRepeats, Clean, BlockAtMost, PrunedDb, Newest, DeadDeletes, DeleteGenesis;
    Prepared(cfg, s, c, updates, deletes);
    CleanExtends(cfg, s, c, updates, deletes);
    var db, g, n := WithBlock(cfg, s, updates, deletes), s.genesis, |c|;
    var l0, c' := Clean(cfg, s, c, updates, deletes).value, Extend(cfg, c, EffectiveBlk(c, updates, deletes));
    var p := PrunedDb(db, g);
    assert WithoutRepeats(cfg, s, c, updates, deletes) == l0.db by { CleanDb(cfg, s, c, updates, deletes); }
    InvIds(cfg, s, c);
    SettingIds(cfg, s, c, deletes);
    DeleteGenesisPrunes(cfg, l0, c');
    forall u: nat | u != g
      ensures NodeAt(p, u) == NodeAt(db, u) && (NodeAt(db, u).Some? <==> g <= u <= n + 1)
    {
      InvNode(cfg, l0, c', u);
      InvNode(cfg, DeleteGenesis(cfg, l0).value, c', u);
      assert NodeAt(p, u).Some? ==> Lookup(p, BlockKey(u)) == Lookup(db, BlockKey(u));
    }
    assert NodeAt(db, g + 1).Some?;
    var b := BlockAtMost(db, v);
    assert b.Some? && b.value > g;
    assert NodeAt(p, b.value).Some?;
  }

  lemma {:induction false} CleanDb(cfg: Config, s: Ledger, c: Chain, updates: map<Key, Value>, deletes: set<Key>)
    requires Clean(cfg, s, c, updates, deletes).Ok?
    ensures WithoutRepeats(cfg, s, c, updates, deletes) == Clean(cfg, s, c, updates, deletes).value.db
  {
    hide Clean;
  }

  lemma {:induction false} SettingIds(cfg: Config, s: Ledger, c: Chain, deletes: set<Key>)
    requires Setting(cfg, s, c, deletes)
    ensures 1 <= s.genesis <= |c| == s.last
  {
  }

  /** The restamped leaf is looked at before pruning exactly when it is after, unless it is exposed. */
  lemma {:induction false} NewestFound(
    cfg: Config, s: Ledger, c: Chain, updates: map<Key, Value>, deletes: set<Key>, k: Key, v: nat)
    requires Setting(cfg, s, c, deletes) && s.genesis < v && k in DeadDeletes(s, updates, deletes)
    ensures var db, w := WithBlock(cfg, s, updates, deletes), Newest(s, k);
      && (Exposed(s, k) ==> Found(PrunedDb(db, s.genesis), k, v) != Some(w))
      && (!Exposed(s, k) ==> (Found(PrunedDb(db, s.genesis), k, v) == Some(w) <==> Found(db, k, v) == Some(w)))
  {
    hide Inv, WithBlock, LeafAtMost, BlockAtMost, PrunedDb, Newest, DeadDeletes, Exposed, NodeAt;
    var db, w := WithBlock(cfg, s, updates, deletes), Newest(s, k);
    var p := PrunedDb(db, s.genesis);
    NewestDies(cfg, s, c, updates, deletes, k);
    BlocksStay(cfg, s, c, updates, deletes, v);
    var version := NodeAt(db, BlockAtMost(db, v).value).value.version;
    forall u: nat
      ensures LeafAt(db, k, u).Some? ==> u <= w
      ensures LeafAt(p, k, u).Some? ==> LeafAt(db, k, u).Some?
    {
      DeadLeaves(cfg, s, c, updates, deletes, k, u);
      assert Lookup(p, LeafKey(k, u)).Some? ==> Lookup(p, LeafKey(k, u)) == Lookup(db, LeafKey(k, u));
    }
    DeadLeaves(cfg, s, c, updates, deletes, k, w);
    FoundNewest(db, k, version, w);
    if !Exposed(s, k) {
      FoundNewest(p, k, version, w);
    }
  }

  /** The newest leaf of all is the one at or below a bound exactly when the bound is not below it. */
  lemma {:induction false} FoundNewest(db: Db, k: Key, version: nat, w: nat)
    requires LeafAt(db, k, w).Some? && forall u: nat :: LeafAt(db, k, u).Some? ==> u <= w
    ensures LeafAtMost(db, k, version) == Some(w) <==> w <= version
  {
    hide LeafAt;
    var r := LeafAtMost(db, k, version);
    assert r.Some? ==> LeafAt(db, k, r.value).Some?;
  }

  /** From the new block on the key reads as absent, whichever stamp counts. */
  lemma {:induction false} LateRead(
    cfg: Config, s: Ledger, c: Chain, updates: map<Key, Value>, deletes: set<Key>, k: Key, v: nat)
    requires Setting(cfg, s, c, deletes) && |c| < v && k in DeadDeletes(s, updates, deletes) && Exposed(s, k)
    ensures var db := WithBlock(cfg, s, updates, deletes);
      GetValue(cfg, PrunedDb(db, s.genesis), k, v) == GetValue(cfg, db, k, v)
  {
    hide Inv, WithBlock, WithoutRepeats, PrunedDb, Twins, Newest, DeadDeletes, Exposed, Found, GetValue, LeafAt;
    SettingIds(cfg, s, c, deletes);
    NewestFound(cfg, s, c, updates, deletes, k, v);
    var db, db0, w := WithBlock(cfg, s, updates, deletes), WithoutRepeats(cfg, s, c, updates, deletes), Newest(s, k);
    if Found(db, k, v) == Some(w) {
      var dead := DeadDeletes(s, updates, deletes);
      Prepared(cfg, s, c, updates, deletes);
      DeadLeaves(cfg, s, c, updates, deletes, k, w);
      TwinsFind(s, |c|, dead, db, db0, k, v);
      ReadOf(cfg, db, k, v, w);
      ReadOf(cfg, db0, k, v, w);
      TwinsRead(cfg, s, |c|, dead, PrunedDb(db, s.genesis), PrunedDb(db0, s.genesis), k, v);
      CleanInvisible(cfg, s, c, updates, deletes, k, v);
    } else {
      OtherRead(cfg, s, c, updates, deletes, k, v);
    }
  }

  /** Some key that the block deletes again is exposed, and a block lies between the genesis block and the new one. */
  predicate Visible(s: Ledger, updates: map<Key, Value>, deletes: set<Key>) {
    s.genesis < s.last && exists k :: k in DeadDeletes(s, updates, deletes) && Exposed(s, k)
  }

  lemma {:induction false} ReadStays(
    cfg: Config, s: Ledger, c: Chain, updates: map<Key, Value>, deletes: set<Key>, k: Key, v: nat)
    requires Setting(cfg, s, c, deletes) && s.genesis < v && !Visible(s, updates, deletes)
    ensures var db := WithBlock(cfg, s, updates, deletes);
      GetValue(cfg, PrunedDb(db, s.genesis), k, v) == GetValue(cfg, db, k, v)
  {
    hide Inv, WithBlock, PrunedDb, Newest, DeadDeletes, Exposed, Found, GetValue, LeafAt;
    SettingIds(cfg, s, c, deletes);
    if k in DeadDeletes(s, updates, deletes) {
      var db, w := WithBlock(cfg, s, updates, deletes), Newest(s, k);
      NewestFound(cfg, s, c, updates, deletes, k, v);
      if Exposed(s, k) {
        LateRead(cfg, s, c, updates, deletes, k, v);
      } else if Found(db, k, v) == Some(w) {
        NewestDies(cfg, s, c, updates, deletes, k);
        DeadLeaves(cfg, s, c, updates, deletes, k, w);
        ReadOf(cfg, db, k, v, w);
        ReadOf(cfg, PrunedDb(db, s.genesis), k, v, w);
      } else {
        OtherRead(cfg, s, c, updates, deletes, k, v);
      }
    } else {
      OtherRead(cfg, s, c, updates, deletes, k, v);
    }
  }

  /** The failing case: the value that the repeated delete brought back is gone after pruning. */
  lemma {:induction false} PruningFlipsRead(
    cfg: Config, s: Ledger, c: Chain, updates: map<Key, Value>, deletes: set<Key>, k: Key)
    requires Setting(cfg, s, c, deletes) && s.genesis < |c| && k in DeadDeletes(s, updates, deletes) && Exposed(s, k)
    ensures var db := WithBlock(cfg, s, updates, deletes);
      && GetValue(cfg, db, k, |c|).Ok?
      && GetValue(cfg, PrunedDb(db, s.genesis), k, |c|) == Err(NotFound)
  {
    hide Holds, ChainOk, WithoutRepeats, PrunedDb, Twins, Newest, Exposed, Found, GetValue, LeafAt, ReadHistory, AddBlock, Clean;
    var n, g := |c|, s.genesis;
    var db, db0 := WithBlock(cfg, s, updates, deletes), WithoutRepeats(cfg, s, c, updates, deletes);
    assert k in deletes && k !in updates && DeadLeaf(s, k);
    DeadKeyRevived(cfg, s, c, updates, deletes, k);
    Prepared(cfg, s, c, updates, deletes);
    NewestFound(cfg, s, c, updates, deletes, k, n);
    TwinsRead(cfg, s, n, DeadDeletes(s, updates, deletes), PrunedDb(db, g), PrunedDb(db0, g), k, n);
    CleanInvisible(cfg, s, c, updates, deletes, k, n);
    CleanExtends(cfg, s, c, updates, deletes);
    CleanDb(cfg, s, c, updates, deletes);
    var c' := Extend(cfg, c, EffectiveBlk(c, updates, deletes));
    ReadsRefineHistory(cfg, db0, c', g, k, n);
    HistoryExtend(c, c'[n], k, n);
  }

  /**
   * One more block on any represented chain, then pruning: every read above the pruned block stays
   * as it was if and only if no key that the block deletes although it is dead has its newest leaf
   * indexed as stale since the genesis block's version, or no block lies between the two.
   */
  lemma {:induction false} PruningInvisibleIff(
    cfg: Config, s: Ledger, c: Chain, updates: map<Key, Value>, deletes: set<Key>)
    requires Inv(cfg, s, c) && c != [] && deletes !! cfg.nonProvable
    ensures var added := AddBlock(cfg, s, updates, deletes);
      && added.Ok?
      && var pruned := DeleteGenesis(cfg, added.value);
      && pruned.Ok?
      && ((forall k, v: nat :: s.genesis < v ==>
            GetValue(cfg, pruned.value.db, k, v) == GetValue(cfg, added.value.db, k, v))
          <==> !Visible(s, updates, deletes))
  {
    hide Inv, GetValue, Exposed, DeadDeletes, PrunedDb;
    PrunedIs(cfg, s, c, updates, deletes);
    SettingIds(cfg, s, c, deletes);
    var db := WithBlock(cfg, s, updates, deletes);
    if Visible(s, updates, deletes) {
      var k :| k in DeadDeletes(s, updates, deletes) && Exposed(s, k);
      PruningFlipsRead(cfg, s, c, updates, deletes, k);
    } else {
      forall k, v: nat | s.genesis < v
        ensures GetValue(cfg, PrunedDb(db, s.genesis), k, v) == GetValue(cfg, db, k, v)
      {
        ReadStays(cfg, s, c, updates, deletes, k, v);
      }
    }
  }

  lemma {:induction false} PrunedIs(cfg: Config, s: Ledger, c: Chain, updates: map<Key, Value>, deletes: set<Key>)
    requires Setting(cfg, s, c, deletes)
    ensures var added := AddBlock(cfg, s, updates, deletes);
      && added.Ok? && added.value.db == WithBlock(cfg, s, updates, deletes)
      && DeleteGenesis(cfg, added.value).Ok?
      && DeleteGenesis(cfg, added.value).value.db == PrunedDb(WithBlock(cfg, s, updates, deletes), s.genesis)
  {
    hide Holds, ChainOk, MakePlan, Twins, Clean, DiesWithGenesis, Writes;
    Prepared(cfg, s, c, updates, deletes);
    AddSucceeds(cfg, s, c, updates, deletes);
  }
}
