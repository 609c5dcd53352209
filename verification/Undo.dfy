/** Adding a block to any ledger and rolling it back: exactly when that restores the database. */
module Undo {
  import opened Common
  import opened SparseTree
  import opened AdapterSpec
  import opened Growth
  import opened Linking
  import opened Recovery
  import opened Crashes
  import opened RawChain
  import opened AdapterRuns
  import opened EveryRun

  /**
   * Nothing is stored yet under the version and the id of the block: no internal node and no stale
   * index entry of the version, and of the keys the block lists no leaf of the version and no
   * non-provable entry of the id.
   */
  ghost predicate New(cfg: Config, db: Db, plan: Plan) {
    && (forall p :: InternalKey(plan.newTree.version, p) !in db)
    && (forall y :: StaleKey(plan.newTree.version, y) !in db)
    && (forall k :: k in plan.updates || k in plan.deleted ==>
         if k in cfg.nonProvable then NpKey(k, plan.id) !in db else LeafKey(k, plan.newTree.version) !in db)
  }

  /** Every key that the block deletes carries the stamp of its id already. */
  ghost predicate StampsNothing(db: Db, plan: Plan) {
    forall k :: k in plan.deleted ==>
      var w := LeafAtMost(db, k, plan.cached);
      w.Some? && LeafAt(db, k, w.value).value.deletedIn == Some(plan.id)
  }

  /** A key of the database before that goes with the block: exactly what New excludes. */
  lemma {:induction false} OldDies(
    cfg: Config, l: Ledger, updates: map<Key, Value>, deletes: set<Key>, plan: Plan, y: DbKey)
    requires Planned(cfg, l, updates, deletes, plan) && New(cfg, l.db, plan) && y in l.db
    ensures !DiesWithLast(cfg, PlanNode(plan), plan.id, y)
  {
    hide MakePlan, RootsOk, StalesOk, VersionsOk, LeavesOk, RootNodesOk, NodeOk, Apart, DigestOk, IdsOk;
    PlanIds(cfg, l, updates, deletes, plan);
    RawIds(cfg, l);
    if y.BlockKey? {
      NoBlockAt(l, plan.id);
    } else if y.NpStaleKey? && y.since == plan.id {
      assert NodeAt(l.db, plan.id).Some?;
      NoBlockAt(l, plan.id);
    }
  }

  lemma {:induction false} NoBlockAt(l: Ledger, i: nat)
    requires IdsOk(l) && i == l.last + 1
    ensures BlockKey(i) !in l.db
  {
    assert !InRange(i, l.genesis, l.last);
  }

  /** A key of the database before that New excludes goes with the block. */
  lemma {:induction false} NotNewDies(cfg: Config, l: Ledger, plan: Plan) returns (y: DbKey)
    requires !New(cfg, l.db, plan)
    ensures y in l.db && DiesWithLast(cfg, PlanNode(plan), plan.id, y)
  {
    if p :| InternalKey(plan.newTree.version, p) in l.db {
      y := InternalKey(plan.newTree.version, p);
    } else if z :| StaleKey(plan.newTree.version, z) in l.db {
      y := StaleKey(plan.newTree.version, z);
    } else {
      var k :| (k in plan.updates || k in plan.deleted) &&
        !(if k in cfg.nonProvable then NpKey(k, plan.id) !in l.db else LeafKey(k, plan.newTree.version) !in l.db);
      y := if k in cfg.nonProvable then NpKey(k, plan.id) else LeafKey(k, plan.newTree.version);
    }
  }

  /** Whatever the block writes goes with it, except the stamps on older leaves. */
  lemma {:induction false} WritesDie(
    cfg: Config, l: Ledger, updates: map<Key, Value>, deletes: set<Key>, plan: Plan, y: DbKey)
    requires Planned(cfg, l, updates, deletes, plan) && WriteAt(cfg, l.db, plan, y).Some?
    requires !(y.LeafKey? && y.key in plan.deleted && LeafAtMost(l.db, y.key, plan.cached) == Some(y.version))
    ensures DiesWithLast(cfg, PlanNode(plan), plan.id, y)
  {
    hide MakePlan, RawOk, LeafAtMost, NpAtMost, Below, Update;
    RootsOf(cfg, l);
    PlanIds(cfg, l, updates, deletes, plan);
    PlanTrees(cfg, l, updates, deletes, plan);
    if ReadsRoot(cfg, l, updates, deletes) {
      UpdateFollows(cfg.hashPath, plan.oldTree, updates - cfg.nonProvable, plan.deleted);
    }
  }

  /** A key after the block is added and rolled back. */
  lemma {:induction false} UndoneAt(
    cfg: Config, l: Ledger, updates: map<Key, Value>, deletes: set<Key>, plan: Plan, y: DbKey)
    requires Planned(cfg, l, updates, deletes, plan)
    ensures AddBlock(cfg, l, updates, deletes).Ok?
    ensures DeleteLast(cfg, AddBlock(cfg, l, updates, deletes).value).Ok?
    ensures Lookup(DeleteLast(cfg, AddBlock(cfg, l, updates, deletes).value).value.db, y)
         == if DiesWithLast(cfg, PlanNode(plan), plan.id, y) then None
            else if y.LeafKey? && y.key in plan.deleted && LeafAtMost(l.db, y.key, plan.cached) == Some(y.version)
              then Some(LeafVal(LeafAt(l.db, y.key, y.version).value.(deletedIn := Some(plan.id))))
            else Lookup(l.db, y)
  {
    hide MakePlan, RawOk, LeafAtMost, AddBlock, DiesWithLast, Writes, PlanNode;
    PlanIds(cfg, l, updates, deletes, plan);
    AddedAt(cfg, l, updates, deletes, plan, y);
    AddedAt(cfg, l, updates, deletes, plan, BlockKey(plan.id));
    AddedBlockIds(cfg, l, updates, deletes);
    if WriteAt(cfg, l.db, plan, y).Some?
       && !(y.LeafKey? && y.key in plan.deleted && LeafAtMost(l.db, y.key, plan.cached) == Some(y.version)) {
      WritesDie(cfg, l, updates, deletes, plan, y);
    }
  }

  lemma {:induction false} AddedBlockIds(cfg: Config, l: Ledger, updates: map<Key, Value>, deletes: set<Key>)
    requires AddBlock(cfg, l, updates, deletes).Ok?
    ensures var r := AddBlock(cfg, l, updates, deletes).value;
      r.last == l.last + 1 && r.genesis == if l.genesis == 0 then 1 else l.genesis
  {
    hide BlockUpdates;
  }

  lemma {:induction false} UndoneIds(cfg: Config, l: Ledger, updates: map<Key, Value>, deletes: set<Key>)
    requires RawOk(cfg, l) && AddBlock(cfg, l, updates, deletes).Ok?
    requires DeleteLast(cfg, AddBlock(cfg, l, updates, deletes).value).Ok?
    ensures var a := AddBlock(cfg, l, updates, deletes).value;
      DeleteLast(cfg, a).value == Ledger(DeleteLast(cfg, a).value.db, l.genesis, l.last, a.tree)
  {
    hide RawOk, AddBlock;
    RawIds(cfg, l);
    AddedBlockIds(cfg, l, updates, deletes);
  }

  /**
   * On any ledger, whatever was deleted or rolled back before, adding a block and deleting it again
   * restores the identical database and ids if and only if nothing was stored under its version and id
   * and it stamps no leaf. The cached tree is not restored.
   */
  lemma {:induction false} UndoIff(
    cfg: Config, l: Ledger, updates: map<Key, Value>, deletes: set<Key>, plan: Plan)
    requires RawOk(cfg, l) && MakePlan(cfg, l, updates, deletes) == Ok(plan)
    ensures var added := AddBlock(cfg, l, updates, deletes);
      && added.Ok?
      && var back := DeleteLast(cfg, added.value);
      && back.Ok?
      && (back.value == l.(tree := added.value.tree) <==> New(cfg, l.db, plan) && StampsNothing(l.db, plan))
  {
    hide MakePlan, RawOk, AddBlock, DeleteLast, LeafAtMost, DiesWithLast, New, StampsNothing, PlanNode, LeafAt;
    UndoneAt(cfg, l, updates, deletes, plan, BlockKey(0));
    UndoneIds(cfg, l, updates, deletes);
    var back := DeleteLast(cfg, AddBlock(cfg, l, updates, deletes).value).value;
    if New(cfg, l.db, plan) && StampsNothing(l.db, plan) {
      forall y
        ensures Lookup(back.db, y) == Lookup(l.db, y)
      {
        UndoneSame(cfg, l, updates, deletes, plan, y);
      }
      SameLookups(back.db, l.db);
    } else if back.db == l.db {
      UndoneNeeds(cfg, l, updates, deletes, plan);
    }
  }

  lemma {:induction false} UndoneSame(
    cfg: Config, l: Ledger, updates: map<Key, Value>, deletes: set<Key>, plan: Plan, y: DbKey)
    requires Planned(cfg, l, updates, deletes, plan) && New(cfg, l.db, plan) && StampsNothing(l.db, plan)
    ensures AddBlock(cfg, l, updates, deletes).Ok?
    ensures DeleteLast(cfg, AddBlock(cfg, l, updates, deletes).value).Ok?
    ensures Lookup(DeleteLast(cfg, AddBlock(cfg, l, updates, deletes).value).value.db, y) == Lookup(l.db, y)
  {
    hide MakePlan, RawOk, AddBlock, DeleteLast, LeafAtMost, DiesWithLast, New, PlanNode;
    UndoneAt(cfg, l, updates, deletes, plan, y);
    if y in l.db {
      OldDies(cfg, l, updates, deletes, plan, y);
    }
  }

  /** If the database is restored, nothing was stored under the block's version and id, and it stamped no leaf. */
  lemma {:induction false} UndoneNeeds(
    cfg: Config, l: Ledger, updates: map<Key, Value>, deletes: set<Key>, plan: Plan)
    requires Planned(cfg, l, updates, deletes, plan)
    requires AddBlock(cfg, l, updates, deletes).Ok?
    requires DeleteLast(cfg, AddBlock(cfg, l, updates, deletes).value).Ok?
    requires DeleteLast(cfg, AddBlock(cfg, l, updates, deletes).value).value.db == l.db
    ensures New(cfg, l.db, plan) && StampsNothing(l.db, plan)
  {
    hide MakePlan, RawOk, AddBlock, DeleteLast, LeafAtMost, DiesWithLast, New, PlanNode;
    if !New(cfg, l.db, plan) {
      var y := NotNewDies(cfg, l, plan);
      UndoneAt(cfg, l, updates, deletes, plan, y);
      assert false;
    }
    forall k | k in plan.deleted
      ensures LeafAtMost(l.db, k, plan.cached).Some?
      ensures LeafAt(l.db, k, LeafAtMost(l.db, k, plan.cached).value).value.deletedIn == Some(plan.id)
    {
      DeletedHasLeaf(cfg, l, updates, deletes, plan, k);
      var w := LeafAtMost(l.db, k, plan.cached).value;
      UndoneAt(cfg, l, updates, deletes, plan, LeafKey(k, w));
      assert LeafAt(l.db, k, w).Some?;
    }
  }

  lemma {:induction false} DeletedHasLeaf(
    cfg: Config, l: Ledger, updates: map<Key, Value>, deletes: set<Key>, plan: Plan, k: Key)
    requires MakePlan(cfg, l, updates, deletes) == Ok(plan) && k in plan.deleted
    ensures LeafAtMost(l.db, k, plan.cached).Some?
  {
    hide LeafAtMost, ParentDigest, LatestRoot, Update;
  }

  // ---------- a block that writes the tree and deletes nothing ----------

  /** Nothing is stored beyond the last block. */
  ghost predicate NothingBeyond(db: Db, id: nat, version: nat) {
    forall y :: y in db ==>
      match y
      case InternalKey(w, _) => w <= version
      case LeafKey(_, w) => w <= version
      case StaleKey(since, _) => since <= version
      case NpKey(_, i) => i <= id
      case _ => true
  }

  /** After any history, a block that writes a provable key and deletes nothing is undone exactly. */
  lemma {:induction false} UpdateUndone(cfg: Config, l: Ledger, updates: map<Key, Value>, deletes: set<Key>)
    requires RawOk(cfg, l) && NothingBeyond(l.db, l.last, if l.last == 0 then 0 else NodeAt(l.db, l.last).value.version)
    requires AddBlock(cfg, l, updates, deletes).Ok? && !(updates.Keys <= cfg.nonProvable)
    requires ActuallyDeleted(l.db, l.tree.version, deletes - updates.Keys) == {}
    ensures var added := AddBlock(cfg, l, updates, deletes).value;
      DeleteLast(cfg, added) == Ok(l.(tree := added.tree))
  {
    hide RawOk, MakePlan, DeleteLast, LeafAtMost, LatestRoot, Update, ActuallyDeleted, NothingBeyond;
    var plan := MakePlan(cfg, l, updates, deletes).value;
    UndoIff(cfg, l, updates, deletes, plan);
    DeletedIs(cfg, l, updates, deletes, plan);
    PlanIds(cfg, l, updates, deletes, plan);
    VersionIsNew(cfg, l, updates, deletes, plan);
    BeyondIsNew(cfg, l.db, plan, l.last, if l.last == 0 then 0 else NodeAt(l.db, l.last).value.version);
  }

  lemma {:induction false} DeletedIs(
    cfg: Config, l: Ledger, updates: map<Key, Value>, deletes: set<Key>, plan: Plan)
    requires MakePlan(cfg, l, updates, deletes) == Ok(plan)
    ensures plan.deleted == ActuallyDeleted(l.db, l.tree.version, deletes - updates.Keys)
  {
    hide ParentDigest, LatestRoot, Update, ActuallyDeleted;
  }

  /** A block that writes a provable key moves on from the version of the last block. */
  lemma {:induction false} VersionIsNew(
    cfg: Config, l: Ledger, updates: map<Key, Value>, deletes: set<Key>, plan: Plan)
    requires Planned(cfg, l, updates, deletes, plan) && !(updates.Keys <= cfg.nonProvable)
    ensures l.last > 0 ==> NodeAt(l.db, l.last).Some?
    ensures plan.newTree.version > if l.last == 0 then 0 else NodeAt(l.db, l.last).value.version
  {
    hide MakePlan, RawOk, Update, LeafAtMost, NodeAt;
    RootsOf(cfg, l);
    PlanTrees(cfg, l, updates, deletes, plan);
    ReadRootOk(l.db, l.last);
    var k :| k in updates && k !in cfg.nonProvable;
    var ups := updates - cfg.nonProvable;
    assert k in ups && k in Touched(plan.oldTree, ups, plan.deleted);
    UpdateFollows(cfg.hashPath, plan.oldTree, ups, plan.deleted);
  }

  lemma {:induction false} BeyondIsNew(cfg: Config, db: Db, plan: Plan, id: nat, version: nat)
    requires NothingBeyond(db, id, version) && plan.id > id && plan.newTree.version > version
    ensures New(cfg, db, plan)
  {
  }

  /** The exact condition on every run, crashes and restarts included. */
  lemma {:induction false} RunUndoIff(
    cfg: Config, s: State, ops: seq<Op>, updates: map<Key, Value>, deletes: set<Key>, plan: Plan)
    requires IsEmpty(s) && Run(cfg, s, ops).Some?
    requires MakePlan(cfg, Run(cfg, s, ops).value.ledger, updates, deletes) == Ok(plan)
    ensures var l := Run(cfg, s, ops).value.ledger;
      var added := AddBlock(cfg, l, updates, deletes);
      && added.Ok? && DeleteLast(cfg, added.value).Ok?
      && (DeleteLast(cfg, added.value).value == l.(tree := added.value.tree)
          <==> New(cfg, l.db, plan) && StampsNothing(l.db, plan))
  {
    hide Run, RawOk, MakePlan, AddBlock, DeleteLast, New, StampsNothing;
    EmptyIsSane(cfg, s);
    RunKeepsRaw(cfg, s, ops);
    UndoIff(cfg, Run(cfg, s, ops).value.ledger, updates, deletes, plan);
  }
}
