/** What importing a list of raw blocks gives, and exactly when it is the list that any adapter exported. */
module Import {
  import opened Common
  import opened SparseTree
  import opened AdapterSpec
  import opened Growth
  import opened Linking
  import opened Recovery
  import opened Crashes
  import opened RawChain
  import opened AdapterRuns
  import opened EveryRun
  import opened Export

  const EMPTY_LEDGER: Ledger := Ledger(map[], 0, 0, EMPTY_TREE)

  // ---------- replaying a list of blocks ----------

  /** The provable keys that the first n blocks updated. */
  function Written(cfg: Config, blocks: seq<RawBlock>, n: nat): set<Key>
    requires n <= |blocks|
  {
    if n == 0 then {} else Written(cfg, blocks, n - 1) + (blocks[n - 1].updates.Keys - cfg.nonProvable)
  }

  /** The provable keys and values after the first n blocks. */
  function Replayed(cfg: Config, blocks: seq<RawBlock>, n: nat): map<Key, Value>
    requires n <= |blocks|
  {
    if n == 0 then map[]
    else (Replayed(cfg, blocks, n - 1) - blocks[n - 1].deletes) + (blocks[n - 1].updates - cfg.nonProvable)
  }

  /** The digest of the block before blocks[i]. */
  function ParentOf(blocks: seq<RawBlock>, i: nat): Digest
    requires i < |blocks|
  {
    if i == 0 then ZeroDigest else DigestOf(i, blocks[i - 1])
  }

  /** Deletes are provable keys that the block does not update; every block names its parent. */
  predicate Shaped(cfg: Config, blocks: seq<RawBlock>) {
    forall i :: 0 <= i < |blocks| ==>
      && blocks[i].deletes !! blocks[i].updates.Keys && blocks[i].deletes !! cfg.nonProvable
      && blocks[i].parentDigest == ParentOf(blocks, i)
  }

  /** Every delete is of a key that an earlier block wrote, and every state hash that of the replayed values. */
  predicate Replays(cfg: Config, blocks: seq<RawBlock>) {
    forall i :: 0 <= i < |blocks| ==>
      blocks[i].deletes <= Written(cfg, blocks, i) && blocks[i].stateHash == StateHash(Replayed(cfg, blocks, i + 1))
  }

  /** Block i + 1 as an importer of the list ends up with it. */
  function ImportedRaw(cfg: Config, blocks: seq<RawBlock>, i: nat): RawBlock
    requires i < |blocks|
  {
    RawBlock(blocks[i].updates, blocks[i].deletes * Written(cfg, blocks, i),
             if i == 0 then ZeroDigest else DigestOf(i, ImportedRaw(cfg, blocks, i - 1)),
             StateHash(Replayed(cfg, blocks, i + 1)))
  }

  lemma {:induction false} ReplayedWritten(cfg: Config, blocks: seq<RawBlock>, n: nat)
    requires n <= |blocks|
    ensures Replayed(cfg, blocks, n).Keys <= Written(cfg, blocks, n)
    ensures Written(cfg, blocks, n) !! cfg.nonProvable
  {
    if n > 0 {
      ReplayedWritten(cfg, blocks, n - 1);
    }
  }

  /** A list of blocks in shape is imported as it is if and only if it replays. */
  lemma {:induction false} ImportedIffReplays(cfg: Config, blocks: seq<RawBlock>)
    requires Shaped(cfg, blocks)
    ensures (forall i :: 0 <= i < |blocks| ==> ImportedRaw(cfg, blocks, i) == blocks[i]) <==> Replays(cfg, blocks)
  {
    hide Written, Replayed;
    if Replays(cfg, blocks) {
      forall i | 0 <= i < |blocks|
        ensures ImportedRaw(cfg, blocks, i) == blocks[i]
      {
        ReplayedIsImported(cfg, blocks, i);
      }
    } else {
      var i :| 0 <= i < |blocks| &&
        !(&& blocks[i].deletes <= Written(cfg, blocks, i)
          && blocks[i].stateHash == StateHash(Replayed(cfg, blocks, i + 1)));
      assert ImportedRaw(cfg, blocks, i).deletes == blocks[i].deletes * Written(cfg, blocks, i);
      assert ImportedRaw(cfg, blocks, i) != blocks[i];
    }
  }

  lemma {:induction false} ReplayedIsImported(cfg: Config, blocks: seq<RawBlock>, i: nat)
    requires Shaped(cfg, blocks) && Replays(cfg, blocks) && i < |blocks|
    ensures ImportedRaw(cfg, blocks, i) == blocks[i]
  {
    hide Written, Replayed;
    assert blocks[i].deletes * Written(cfg, blocks, i) == blocks[i].deletes;
    if i > 0 {
      ReplayedIsImported(cfg, blocks, i - 1);
    }
  }

  // ---------- the importer ----------

  /** The leaves of an importer are those of the keys its blocks wrote. */
  ghost predicate LeavesOf(m: Ledger, written: set<Key>) {
    && (forall k, u: nat :: LeafAt(m.db, k, u).Some? ==> k in written && u <= m.tree.version)
    && (forall k :: k in written ==> LeafAtMost(m.db, k, m.tree.version).Some?)
  }

  /** An importer after the first n blocks. */
  ghost predicate Importer(cfg: Config, m: Ledger, blocks: seq<RawBlock>, n: nat) {
    && n <= |blocks|
    && RawOk(cfg, m) && Synced(m) && m.last == n && m.genesis <= 1
    && m.tree.vals == Replayed(cfg, blocks, n)
    && LeavesOf(m, Written(cfg, blocks, n))
  }

  lemma {:induction false} EmptyImporter(cfg: Config, blocks: seq<RawBlock>)
    ensures Importer(cfg, EMPTY_LEDGER, blocks, 0)
  {
    EmptyIsSane(cfg, State(EMPTY_LEDGER, map[], None));
  }

  /** A plan can be made, and it starts from the cached tree. */
  lemma {:induction false} ImporterPlans(cfg: Config, m: Ledger, updates: map<Key, Value>, deletes: set<Key>)
    requires RawOk(cfg, m) && Synced(m) && m.genesis <= 1 && deletes !! cfg.nonProvable
    ensures MakePlan(cfg, m, updates, deletes).Ok?
    ensures MakePlan(cfg, m, updates, deletes).value.oldTree == m.tree
    ensures m.last == 0 ==> MakePlan(cfg, m, updates, deletes).value.digest == ZeroDigest
    ensures m.last > 0 ==>
      && RawAt(cfg, m.db, m.last).Ok?
      && MakePlan(cfg, m, updates, deletes).value.digest == DigestOf(m.last, RawAt(cfg, m.db, m.last).value)
  {
    hide RawOk, GetRawBlock, Update, ActuallyDeleted;
    RawIds(cfg, m);
    if m.last > 0 {
      RawHashChain(cfg, m, map[], m.last);
    }
    assert deletes * cfg.nonProvable == {};
  }

  /** What is deleted is what an earlier block wrote. */
  lemma {:induction false} ImporterDeletes(m: Ledger, written: set<Key>, deletes: set<Key>)
    requires LeavesOf(m, written)
    ensures ActuallyDeleted(m.db, m.tree.version, deletes) == deletes * written
  {
    hide LeafAtMost;
    forall k
      ensures LeafAtMost(m.db, k, m.tree.version).Some? <==> k in written
    {
      var r := LeafAtMost(m.db, k, m.tree.version);
      assert r.Some? ==> LeafAt(m.db, k, r.value).Some?;
    }
  }

  /** The values of the tree after the next block. */
  lemma {:induction false} NextVals(
    cfg: Config, t: Tree, updates: map<Key, Value>, deletes: set<Key>, deleted: set<Key>)
    requires TreeOk(t) && deletes * t.vals.Keys == deleted * t.vals.Keys
    ensures Update(cfg.hashPath, t, updates - cfg.nonProvable, deleted).vals
         == (t.vals - deletes) + (updates - cfg.nonProvable)
  {
    var ups := updates - cfg.nonProvable;
    assert t.vals - deleted == t.vals - deletes by {
      assert forall k :: k in t.vals ==> (k in deletes <==> k in deletes * t.vals.Keys);
      assert forall k :: k in t.vals ==> (k in deleted <==> k in deleted * t.vals.Keys);
    }
    if Touched(t, ups, deleted) == {} {
      assert ups == map[];
      assert t.vals - deletes == t.vals by {
        assert forall k :: k in t.vals ==> k !in deleted * t.vals.Keys;
      }
    }
  }

  lemma {:induction false} ImporterVals(cfg: Config, m: Ledger, blocks: seq<RawBlock>, n: nat, plan: Plan)
    requires Importer(cfg, m, blocks, n) && n < |blocks|
    requires MakePlan(cfg, m, blocks[n].updates, blocks[n].deletes) == Ok(plan) && plan.oldTree == m.tree
    requires plan.deleted == blocks[n].deletes * Written(cfg, blocks, n)
    ensures plan.newTree.vals == Replayed(cfg, blocks, n + 1)
  {
    hide RawOk, MakePlan, Update, Written, LeafAtMost, LatestRoot;
    var b := blocks[n];
    RawIds(cfg, m);
    PlanTrees(cfg, m, b.updates, b.deletes, plan);
    ReplayedWritten(cfg, blocks, n);
    assert b.deletes * m.tree.vals.Keys == plan.deleted * m.tree.vals.Keys;
    NextVals(cfg, m.tree, b.updates, b.deletes, plan.deleted);
    if !ReadsRoot(cfg, m, b.updates, b.deletes) {
      ProvableEmpty(cfg, b.updates);
      NothingUpdated(cfg, m.tree, b.updates);
    }
  }

  lemma {:induction false} NothingUpdated(cfg: Config, t: Tree, updates: map<Key, Value>)
    requires updates.Keys <= cfg.nonProvable
    ensures Update(cfg.hashPath, t, updates - cfg.nonProvable, {}) == t
  {
    ProvableEmpty(cfg, updates);
    assert Touched(t, updates - cfg.nonProvable, {}) == {};
  }

  lemma {:induction false} ImporterLeaves(cfg: Config, m: Ledger, blocks: seq<RawBlock>, n: nat, plan: Plan)
    requires Importer(cfg, m, blocks, n) && n < |blocks|
    requires MakePlan(cfg, m, blocks[n].updates, blocks[n].deletes) == Ok(plan) && plan.oldTree == m.tree
    ensures Adding(cfg)(m, blocks[n]).Ok?
    ensures LeavesOf(Adding(cfg)(m, blocks[n]).value, Written(cfg, blocks, n + 1))
  {
    hide RawOk, MakePlan, Update, LeafAtMost, LatestRoot, AddBlock, Replayed;
    var b := blocks[n];
    RawIds(cfg, m);
    PlanTrees(cfg, m, b.updates, b.deletes, plan);
    AddedTreeIs(cfg, m, b.updates, b.deletes, plan);
    var m' := AddBlock(cfg, m, b.updates, b.deletes).value;
    assert m.tree.version <= m'.tree.version;
    forall k, u: nat
      ensures LeafAt(m'.db, k, u).Some? ==> k in Written(cfg, blocks, n + 1) && u <= m'.tree.version
    {
      NewLeaves(cfg, m, b.updates, b.deletes, plan, k, u);
    }
    forall k | k in Written(cfg, blocks, n + 1)
      ensures LeafAtMost(m'.db, k, m'.tree.version).Some?
    {
      if k in Written(cfg, blocks, n) {
        var u := LeafAtMost(m.db, k, m.tree.version).value;
        NewLeaves(cfg, m, b.updates, b.deletes, plan, k, u);
      } else {
        NewLeaves(cfg, m, b.updates, b.deletes, plan, k, m'.tree.version);
      }
    }
  }

  /** One block more. */
  lemma {:induction false} ImporterStep(cfg: Config, m: Ledger, blocks: seq<RawBlock>, n: nat)
    requires Importer(cfg, m, blocks, n) && n < |blocks|
    requires blocks[n].deletes !! blocks[n].updates.Keys && blocks[n].deletes !! cfg.nonProvable
    requires n > 0 ==> RawAt(cfg, m.db, n) == Ok(ImportedRaw(cfg, blocks, n - 1))
    ensures Adding(cfg)(m, blocks[n]).Ok? && Importer(cfg, Adding(cfg)(m, blocks[n]).value, blocks, n + 1)
    ensures KeepsBlocks(cfg, m.db, Adding(cfg)(m, blocks[n]).value.db)
    ensures RawAt(cfg, Adding(cfg)(m, blocks[n]).value.db, n + 1) == Ok(ImportedRaw(cfg, blocks, n))
  {
    hide RawOk, MakePlan, AddBlock, Synced, GetRawBlock, LeavesOf, Written, Replayed, KeepsBlocks, ActuallyDeleted;
    var b := blocks[n];
    ImporterPlans(cfg, m, b.updates, b.deletes);
    var plan := MakePlan(cfg, m, b.updates, b.deletes).value;
    PlanIds(cfg, m, b.updates, b.deletes, plan);
    assert b.deletes - b.updates.Keys == b.deletes;
    ImporterDeletes(m, Written(cfg, blocks, n), b.deletes);
    ImporterVals(cfg, m, blocks, n, plan);
    ImporterLeaves(cfg, m, blocks, n, plan);
    AddKeepsRaw(cfg, m, b);
    AddKeepsSync(cfg, m, b);
    AddedTreeIs(cfg, m, b.updates, b.deletes, plan);
    AddedIds(cfg, m, b);
    RebuiltAsAdded(cfg, m, b.updates, b.deletes);
    NewParent(cfg, m, b.updates, b.deletes, plan);
  }

  lemma {:induction false} AddedIds(cfg: Config, m: Ledger, b: RawBlock)
    requires Adding(cfg)(m, b).Ok?
    ensures Adding(cfg)(m, b).value.last == m.last + 1
    ensures Adding(cfg)(m, b).value.genesis == if m.genesis == 0 then 1 else m.genesis
  {
    hide BlockUpdates;
  }

  /** The parent digest of the new block is that of its plan. */
  lemma {:induction false} NewParent(cfg: Config, m: Ledger, updates: map<Key, Value>, deletes: set<Key>, plan: Plan)
    requires RawOk(cfg, m) && MakePlan(cfg, m, updates, deletes) == Ok(plan)
    ensures AddBlock(cfg, m, updates, deletes).Ok?
    ensures var raw := RawAt(cfg, AddBlock(cfg, m, updates, deletes).value.db, m.last + 1);
      raw.Ok? && raw.value.parentDigest == plan.digest
  {
    hide RawOk, MakePlan, AddBlock, GetRawBlock, NodeOk;
    NewBlockOk(cfg, m, updates, deletes, plan);
    NewNode(cfg, m, updates, deletes, plan);
    Rebuilds(cfg, AddBlock(cfg, m, updates, deletes).value.db, m.last + 1);
  }

  /** Block i + 1 of the database is the imported blocks[i]. */
  ghost predicate HasBlock(cfg: Config, db: Db, blocks: seq<RawBlock>, i: nat) {
    i < |blocks| && NodeAt(db, i + 1).Some? && RawAt(cfg, db, i + 1) == Ok(ImportedRaw(cfg, blocks, i))
  }

  /** The first n blocks are imported. */
  ghost predicate ImportedUpTo(cfg: Config, m: Ledger, blocks: seq<RawBlock>, n: nat) {
    Importer(cfg, m, blocks, n) && forall i :: 0 <= i < n ==> HasBlock(cfg, m.db, blocks, i)
  }

  lemma {:induction false} ImportNone(cfg: Config, blocks: seq<RawBlock>)
    ensures AddAll(Adding(cfg), EMPTY_LEDGER, blocks[..0]) == Ok(EMPTY_LEDGER)
    ensures ImportedUpTo(cfg, EMPTY_LEDGER, blocks, 0)
  {
    hide Importer;
    EmptyImporter(cfg, blocks);
    assert blocks[..0] == [];
  }

  lemma {:induction false} ImportNext(cfg: Config, m: Ledger, blocks: seq<RawBlock>, n: nat)
    requires ImportedUpTo(cfg, m, blocks, n) && Shaped(cfg, blocks) && n < |blocks|
    ensures Adding(cfg)(m, blocks[n]).Ok? && ImportedUpTo(cfg, Adding(cfg)(m, blocks[n]).value, blocks, n + 1)
  {
    hide Importer, AddBlock, GetRawBlock, ImportedRaw, NodeAt;
    assert n > 0 ==> HasBlock(cfg, m.db, blocks, n - 1);
    ImporterStep(cfg, m, blocks, n);
    var m' := Adding(cfg)(m, blocks[n]).value;
    ImporterHas(cfg, m', blocks, n + 1);
    forall i | 0 <= i < n + 1
      ensures HasBlock(cfg, m'.db, blocks, i)
    {
      assert i < n ==> HasBlock(cfg, m.db, blocks, i);
    }
  }

  lemma {:induction false} ImportFirst(cfg: Config, blocks: seq<RawBlock>, n: nat)
    requires Shaped(cfg, blocks) && n <= |blocks|
    ensures AddAll(Adding(cfg), EMPTY_LEDGER, blocks[..n]).Ok?
    ensures ImportedUpTo(cfg, AddAll(Adding(cfg), EMPTY_LEDGER, blocks[..n]).value, blocks, n)
  {
    hide ImportedUpTo, AddBlock, AddAll, Shaped;
    if n == 0 {
      ImportNone(cfg, blocks);
    } else {
      ImportFirst(cfg, blocks, n - 1);
      ImportNext(cfg, AddAll(Adding(cfg), EMPTY_LEDGER, blocks[..n - 1]).value, blocks, n - 1);
      AddAllAppend(Adding(cfg), EMPTY_LEDGER, blocks[..n - 1], blocks[n - 1]);
      assert blocks[..n] == blocks[..n - 1] + [blocks[n - 1]];
    }
  }

  lemma {:induction false} ImporterHas(cfg: Config, m: Ledger, blocks: seq<RawBlock>, n: nat)
    requires Importer(cfg, m, blocks, n)
    ensures n > 0 ==> NodeAt(m.db, n).Some?
  {
    hide LeavesOf, Replayed, Synced;
    RawIds(cfg, m);
    if n > 0 {
      assert InRange(n, m.genesis, m.last) && BlockKey(n) in m.db;
    }
  }

  // ---------- any exporter ----------

  /** The raw blocks of any ledger in order have the shape of an export. */
  lemma {:induction false} ExportShaped(cfg: Config, l: Ledger, blocks: seq<RawBlock>)
    requires RawOk(cfg, l) && l.genesis <= 1 && |blocks| == l.last && Exported(cfg, l.db, blocks)
    ensures Shaped(cfg, blocks)
  {
    hide RawOk, GetRawBlock;
    RawIds(cfg, l);
    forall i | 0 <= i < |blocks|
      ensures blocks[i].deletes !! blocks[i].updates.Keys && blocks[i].deletes !! cfg.nonProvable
      ensures blocks[i].parentDigest == ParentOf(blocks, i)
    {
      RawHashChain(cfg, l, map[], i + 1);
      ExportedShape(cfg, l, i + 1);
      if i == 0 {
        FirstIsZero(cfg, l);
      }
    }
  }

  lemma {:induction false} ExportedShape(cfg: Config, l: Ledger, i: nat)
    requires RawOk(cfg, l) && 1 <= i && l.genesis <= i <= l.last && RawAt(cfg, l.db, i).Ok?
    ensures var raw := RawAt(cfg, l.db, i).value;
      raw.deletes !! raw.updates.Keys && raw.deletes !! cfg.nonProvable
  {
    hide IdsOk, RootsOk, StalesOk, NpIndexOk, VersionsOk, Apart, DigestOk;
    var raw := RawAt(cfg, l.db, i).value;
    if NodeAt(l.db, i).Some? {
      assert NodeOk(cfg, l.db, i);
      var node := NodeAt(l.db, i).value;
      forall k | k in raw.deletes
        ensures k !in cfg.nonProvable
      {
        assert KeyOk(cfg, l.db, node, k);
      }
    }
  }

  lemma {:induction false} FirstIsZero(cfg: Config, l: Ledger)
    requires RawOk(cfg, l) && l.genesis <= 1 <= l.last && RawAt(cfg, l.db, 1).Ok?
    ensures RawAt(cfg, l.db, 1).value.parentDigest == ZeroDigest
  {
    hide RootsOk, StalesOk, NpIndexOk, VersionsOk, Apart, NodeOk;
    assert InRange(1, l.genesis, l.last) && BlockKey(1) in l.db;
    assert NodeOk(cfg, l.db, 1);
    Rebuilds(cfg, l.db, 1);
    assert DigestOk(cfg, l.db, 1);
  }

  /**
   * Importing, in any order, the raw blocks 1 .. N of any exporter that has not pruned, whatever it
   * deleted or rolled back before: the import never fails, block i comes out as ImportedRaw says, and
   * every block comes out as exported if and only if the list replays, that is, every delete is of a
   * provable key that an earlier block of the list wrote and every state hash is that of the values
   * the list leads to.
   */
  lemma {:induction false} ImportIff(
    cfg: Config, l: Ledger, blocks: seq<RawBlock>, target: State, ds: seq<Delivery>)
    requires RawOk(cfg, l) && l.genesis <= 1 && |blocks| == l.last && Exported(cfg, l.db, blocks)
    requires IsEmpty(target) && NewIds(target, ds) && AsMap(ds) == Numbered(blocks, 1)
    ensures var r := DeliverAll(Adding(cfg), Linked(cfg), target, ds);
      && r.Ok? && r.value.temps == map[] && r.value.ledger.last == l.last
      && (forall i :: 0 <= i < |blocks| ==> RawAt(cfg, r.value.ledger.db, i + 1) == Ok(ImportedRaw(cfg, blocks, i)))
      && (Exported(cfg, r.value.ledger.db, blocks) <==> Replays(cfg, blocks))
  {
    hide RawOk, AddBlock, LinkBlock, AddAll, DeliverAll, GetRawBlock, Importer, NewIds, Shaped, Replays, ImportedRaw;
    ExportShaped(cfg, l, blocks);
    ImportFirst(cfg, blocks, |blocks|);
    assert blocks[..|blocks|] == blocks;
    AddersOk(cfg);
    TransferOrderIndependent(Adding(cfg), Linked(cfg), target, blocks, ds);
    ImportedIffReplays(cfg, blocks);
    var m := AddAll(Adding(cfg), EMPTY_LEDGER, blocks).value;
    forall i | 0 <= i < |blocks|
      ensures RawAt(cfg, m.db, i + 1) == Ok(ImportedRaw(cfg, blocks, i))
    {
      assert HasBlock(cfg, m.db, blocks, i);
    }
  }

  /** The same of every run, crashes and restarts included, that ends with the genesis block still there. */
  lemma {:induction false} RunImportIff(
    cfg: Config, s: State, ops: seq<Op>, blocks: seq<RawBlock>, target: State, ds: seq<Delivery>)
    requires IsEmpty(s) && Run(cfg, s, ops).Some? && Run(cfg, s, ops).value.ledger.genesis <= 1
    requires |blocks| == Run(cfg, s, ops).value.ledger.last
    requires Exported(cfg, Run(cfg, s, ops).value.ledger.db, blocks)
    requires IsEmpty(target) && NewIds(target, ds) && AsMap(ds) == Numbered(blocks, 1)
    ensures var r := DeliverAll(Adding(cfg), Linked(cfg), target, ds);
      && r.Ok? && r.value.temps == map[] && r.value.ledger.last == |blocks|
      && (Exported(cfg, r.value.ledger.db, blocks) <==> Replays(cfg, blocks))
  {
    hide Run, DeliverAll, NewIds, RawOk, Exported, Replays;
    EmptyIsSane(cfg, s);
    RunKeepsRaw(cfg, s, ops);
    ImportIff(cfg, Run(cfg, s, ops).value.ledger, blocks, target, ds);
  }

  // ---------- exporters that never deleted a block ----------

  /** A ledger that adding blocks leads to. */
  ghost predicate Grown(cfg: Config, l: Ledger) {
    exists calls :: AddAll(Adding(cfg), EMPTY_LEDGER, calls) == Ok(l)
  }

  lemma {:induction false} AddAllFront(add: Adder, l: Ledger, blocks: seq<RawBlock>, b: RawBlock)
    requires AddAll(add, l, blocks + [b]).Ok?
    ensures AddAll(add, l, blocks).Ok?
    decreases |blocks|
  {
    if blocks != [] {
      assert (blocks + [b])[1..] == blocks[1..] + [b];
      AddAllFront(add, add(l, blocks[0]).value, blocks[1..], b);
    }
  }

  /** Such a ledger is in order and in sync, with a block for every call. */
  lemma {:induction false} GrownSound(cfg: Config, calls: seq<RawBlock>)
    requires AddAll(Adding(cfg), EMPTY_LEDGER, calls).Ok?
    ensures var l := AddAll(Adding(cfg), EMPTY_LEDGER, calls).value;
      RawOk(cfg, l) && Synced(l) && l.last == |calls| && l.genesis <= 1
    decreases |calls|
  {
    hide RawOk, Synced, AddBlock;
    if calls == [] {
      EmptyImporter(cfg, []);
    } else {
      var front, b := calls[..|calls| - 1], calls[|calls| - 1];
      assert calls == front + [b];
      AddAllFront(Adding(cfg), EMPTY_LEDGER, front, b);
      AddAllAppend(Adding(cfg), EMPTY_LEDGER, front, b);
      GrownSound(cfg, front);
      var l := AddAll(Adding(cfg), EMPTY_LEDGER, front).value;
      AddKeepsRaw(cfg, l, b);
      AddKeepsSync(cfg, l, b);
      AddedIds(cfg, l, b);
    }
  }

  /** Adding a block with the deletes it recorded is adding it with those it was asked for. */
  lemma {:induction false} SameRecorded(cfg: Config, l: Ledger, updates: map<Key, Value>, deletes: set<Key>)
    requires AddBlock(cfg, l, updates, deletes).Ok?
    ensures AddBlock(cfg, l, updates, ActuallyDeleted(l.db, l.tree.version, deletes - updates.Keys))
         == AddBlock(cfg, l, updates, deletes)
  {
    hide LeafAtMost, ParentDigest, Writes, Update, LatestRoot;
    AddOkDisjoint(cfg, l, updates, deletes);
    var recorded := ActuallyDeleted(l.db, l.tree.version, deletes - updates.Keys);
    assert recorded * cfg.nonProvable == {} && deletes * cfg.nonProvable == {};
    assert ActuallyDeleted(l.db, l.tree.version, recorded - updates.Keys) == recorded;
    assert MakePlan(cfg, l, updates, recorded) == MakePlan(cfg, l, updates, deletes);
  }

  /** The raw blocks of such a ledger lead to it again. */
  lemma {:induction false} GrownAgain(cfg: Config, calls: seq<RawBlock>, blocks: seq<RawBlock>)
    requires AddAll(Adding(cfg), EMPTY_LEDGER, calls).Ok? && |blocks| == |calls|
    requires Exported(cfg, AddAll(Adding(cfg), EMPTY_LEDGER, calls).value.db, blocks)
    ensures AddAll(Adding(cfg), EMPTY_LEDGER, blocks) == AddAll(Adding(cfg), EMPTY_LEDGER, calls)
    decreases |calls|
  {
    hide RawOk, Synced, AddBlock, GetRawBlock, ActuallyDeleted, AddAll;
    if calls == [] {
      assert blocks == [] == calls;
    } else {
      var n := |calls| - 1;
      var front, b := calls[..n], calls[n];
      assert calls == front + [b] && blocks == blocks[..n] + [blocks[n]];
      AddAllFront(Adding(cfg), EMPTY_LEDGER, front, b);
      AddAllAppend(Adding(cfg), EMPTY_LEDGER, front, b);
      GrownSound(cfg, front);
      var l := AddAll(Adding(cfg), EMPTY_LEDGER, front).value;
      AddKeepsRaw(cfg, l, b);
      FrontExported(cfg, l, AddBlock(cfg, l, b.updates, b.deletes).value.db, blocks);
      GrownAgain(cfg, front, blocks[..n]);
      AddAllAppend(Adding(cfg), EMPTY_LEDGER, blocks[..n], blocks[n]);
      RebuiltAsAdded(cfg, l, b.updates, b.deletes);
      assert Ok(blocks[n]) == RawAt(cfg, AddBlock(cfg, l, b.updates, b.deletes).value.db, n + 1);
      SameRecorded(cfg, l, b.updates, b.deletes);
    }
  }

  lemma {:induction false} FrontExported(cfg: Config, l: Ledger, db: Db, blocks: seq<RawBlock>)
    requires RawOk(cfg, l) && l.genesis <= 1 && l.last < |blocks|
    requires KeepsBlocks(cfg, l.db, db) && Exported(cfg, db, blocks)
    ensures Exported(cfg, l.db, blocks[..l.last])
  {
    hide RawOk, GetRawBlock;
    RawIds(cfg, l);
    forall i | 0 <= i < l.last
      ensures Ok(blocks[..l.last][i]) == RawAt(cfg, l.db, i + 1)
    {
      assert InRange(i + 1, l.genesis, l.last) && BlockKey(i + 1) in l.db;
      assert NodeAt(l.db, i + 1).Some?;
    }
  }

  lemma {:induction false} AddGrows(cfg: Config)
    ensures Keeps(Adding(cfg), l => Grown(cfg, l)) && Reloads(l => Grown(cfg, l))
  {
    hide AddBlock, RawOk, Synced, Load, AddAll;
    forall l: Ledger, b: RawBlock | Grown(cfg, l) && Adding(cfg)(l, b).Ok?
      ensures Grown(cfg, Adding(cfg)(l, b).value)
    {
      var calls :| AddAll(Adding(cfg), EMPTY_LEDGER, calls) == Ok(l);
      AddAllAppend(Adding(cfg), EMPTY_LEDGER, calls, b);
    }
    forall l: Ledger | Grown(cfg, l)
      ensures IdsOk(l) && Load(l.db) == Ok(l)
    {
      var calls :| AddAll(Adding(cfg), EMPTY_LEDGER, calls) == Ok(l);
      GrownSound(cfg, calls);
      RawIds(cfg, l);
      LoadIs(l);
    }
  }

  predicate Growing(ops: seq<Op>) {
    forall i :: 0 <= i < |ops| ==> !ops[i].DeleteOp? && !ops[i].DeleteLastOp?
  }

  lemma {:induction false} GrowingRunGrows(cfg: Config, s: State, ops: seq<Op>)
    requires Grown(cfg, s.ledger) && TempsBeyond(s.temps) && Growing(ops) && Run(cfg, s, ops).Some?
    ensures Grown(cfg, Run(cfg, s, ops).value.ledger)
    decreases |ops|
  {
    hide Grown, Apply;
    if ops != [] {
      if Apply(cfg, s, ops[0]).Ok? {
        AddGrows(cfg);
        GrowingStepKeeps(cfg, l => Grown(cfg, l), s, ops[0]);
        GrowingRunGrows(cfg, Apply(cfg, s, ops[0]).value, ops[1..]);
      } else {
        GrowingRunGrows(cfg, s, ops[1..]);
      }
    }
  }

  /**
   * An exporter that never deleted a block, whatever keys it deleted and however it crashed, is
   * reproduced by importing its blocks in any order: the same database, ids and tree.
   */
  lemma {:induction false} GrowingRunImported(
    cfg: Config, s: State, ops: seq<Op>, blocks: seq<RawBlock>, target: State, ds: seq<Delivery>)
    requires IsEmpty(s) && Growing(ops) && Run(cfg, s, ops).Some?
    requires |blocks| == Run(cfg, s, ops).value.ledger.last
    requires Exported(cfg, Run(cfg, s, ops).value.ledger.db, blocks)
    requires IsEmpty(target) && NewIds(target, ds) && AsMap(ds) == Numbered(blocks, 1)
    ensures var r := DeliverAll(Adding(cfg), Linked(cfg), target, ds);
      r.Ok? && r.value.temps == map[] && r.value.ledger == Run(cfg, s, ops).value.ledger
  {
    hide Run, AddBlock, LinkBlock, GetRawBlock, DeliverAll, NewIds, RawOk, Synced;
    assert AddAll(Adding(cfg), EMPTY_LEDGER, []) == Ok(s.ledger);
    GrowingRunGrows(cfg, s, ops);
    var l := Run(cfg, s, ops).value.ledger;
    var calls :| AddAll(Adding(cfg), EMPTY_LEDGER, calls) == Ok(l);
    GrownSound(cfg, calls);
    GrownAgain(cfg, calls, blocks);
    AddersOk(cfg);
    TransferOrderIndependent(Adding(cfg), Linked(cfg), target, blocks, ds);
  }
}
