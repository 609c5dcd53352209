/** Exporting the raw blocks of an adapter and importing them into another: exactly when a block survives. */
module Export {
  import opened Common
  import opened SparseTree
  import opened AdapterSpec
  import opened ChainView
  import opened Reading
  import opened Growth
  import opened Rollback
  import opened Linking
  import opened Recovery
  import opened Crashes
  import opened RawChain
  import opened AdapterRuns

  // ---------- a represented chain is in order ----------

  lemma {:induction false} InvStales(cfg: Config, l: Ledger, c: Chain)
    requires Inv(cfg, l, c)
    ensures StalesOk(l.db)
  {
    hide NodeOf, ExpectLeaf, ExpectInternal, ChainOk;
    forall since: nat, y | StaleKey(since, y) in l.db
      ensures KeyItem(y).Some? && KeyItem(y).value.1 < since
    {
      assert Lookup(l.db, StaleKey(since, y)) == Expect(cfg, c, l.genesis, StaleKey(since, y));
      var x, w := KeyItem(y).value.0, KeyItem(y).value.1;
      var j :| 1 <= j <= |c| && l.genesis <= j && TreeAt(c, j).version == since && LeftIn(c, j, x, w);
      TreesOk(cfg, c, j - 1);
      TreesOk(cfg, c, j);
    }
    forall since: nat, y | NpStaleKey(since, y) in l.db
      ensures y.NpKey? && y.id < since
    {
      assert Lookup(l.db, NpStaleKey(since, y)) == Expect(cfg, c, l.genesis, NpStaleKey(since, y));
    }
  }

  lemma {:induction false} InvIndex(cfg: Config, l: Ledger, c: Chain)
    requires Inv(cfg, l, c)
    ensures NpIndexOk(l.db)
  {
    hide NodeOf, ExpectLeaf, ExpectInternal, ChainOk;
    forall since: nat, y | NpStaleKey(since, y) in l.db
      ensures y.NpKey? && NodeAt(l.db, since).Some? && NpAt(l.db, y.key, since).Some?
    {
      assert Lookup(l.db, NpStaleKey(since, y)) == Expect(cfg, c, l.genesis, NpStaleKey(since, y));
      assert Lookup(l.db, BlockKey(since)) == Expect(cfg, c, l.genesis, BlockKey(since));
      assert Lookup(l.db, NpKey(y.key, since)) == Expect(cfg, c, l.genesis, NpKey(y.key, since));
    }
  }

  lemma {:induction false} InvLeaves(cfg: Config, l: Ledger, c: Chain)
    requires Inv(cfg, l, c)
    ensures LeavesOk(cfg, l.db)
  {
    hide ChainOk, Kept;
    forall k, u: nat | LeafAt(l.db, k, u).Some?
      ensures k !in cfg.nonProvable
    {
      assert Lookup(l.db, LeafKey(k, u)) == Expect(cfg, c, l.genesis, LeafKey(k, u));
      KeptLeaf(cfg, c, l.genesis, k, u);
    }
  }

  lemma {:induction false} InvNodes(cfg: Config, l: Ledger, c: Chain)
    requires Inv(cfg, l, c)
    ensures RootNodesOk(cfg, l.db)
  {
    hide ChainOk, Kept, NodesExact, Writer;
    forall w: nat | RootAt(l.db, w).Some?
      ensures NodesExact(cfg.hashPath, RootAt(l.db, w).value)
    {
      assert Lookup(l.db, InternalKey(w, [])) == Expect(cfg, c, l.genesis, InternalKey(w, []));
      TreeNodes(cfg, c, Writer(c, w, |c|));
    }
  }

  lemma {:induction false} InvNode(cfg: Config, l: Ledger, c: Chain, i: nat)
    requires Inv(cfg, l, c)
    ensures NodeAt(l.db, i) == if 1 <= i <= |c| && l.genesis <= i then Some(NodeOf(c, i)) else None
  {
    assert Lookup(l.db, BlockKey(i)) == Expect(cfg, c, l.genesis, BlockKey(i));
  }

  lemma {:induction false} InvVersions(cfg: Config, l: Ledger, c: Chain)
    requires Inv(cfg, l, c)
    ensures VersionsOk(l)
  {
    hide Holds, ChainOk, NodeAt;
    forall i: nat, j: nat | i <= j && NodeAt(l.db, i).Some? && NodeAt(l.db, j).Some?
      ensures NodeAt(l.db, i).value.version <= NodeAt(l.db, j).value.version <= l.tree.version
    {
      InvNode(cfg, l, c, i);
      InvNode(cfg, l, c, j);
      VersionsGrow(cfg, c, i, j);
      VersionsGrow(cfg, c, j, |c|);
    }
  }

  /** A provable key that block i updated has its leaf at the block's version, and is in the root stored there. */
  lemma {:induction false} InvWrote(cfg: Config, l: Ledger, c: Chain, i: nat, k: Key)
    requires Inv(cfg, l, c) && 1 <= i <= |c| && l.genesis <= i && k in c[i - 1].blk.updates && k !in cfg.nonProvable
    ensures var w := TreeAt(c, i).version;
      && w > 0 && LeafAt(l.db, k, w).Some? && LeafAt(l.db, k, w).value.addedIn == i
      && (RootAt(l.db, w).Some? ==> k in RootAt(l.db, w).value.vals)
  {
    var w := TreeAt(c, i).version;
    assert Lookup(l.db, LeafKey(k, w)) == Expect(cfg, c, l.genesis, LeafKey(k, w));
    assert Lookup(l.db, InternalKey(w, [])) == Expect(cfg, c, l.genesis, InternalKey(w, []));
    BlockLeaf(cfg, c, i, k);
    BlockVersion(cfg, c, i);
    TreesOk(cfg, c, i);
    WriterIs(cfg, c, w, i, |c|);
    assert HasItem(TreeAt(c, i), LeafItem(k), w);
  }

  lemma {:induction false} InvNodeOk(cfg: Config, l: Ledger, c: Chain, i: nat)
    requires Inv(cfg, l, c)
    ensures NodeOk(cfg, l.db, i)
  {
    hide Holds, ChainOk, NodeAt, LeafAt, RootAt;
    InvNode(cfg, l, c, i);
    if NodeAt(l.db, i).Some? {
      var node := NodeOf(c, i);
      forall k | k in node.keys
        ensures KeyOk(cfg, l.db, node, k)
      {
        if k in cfg.nonProvable {
          InvNp(cfg, l, c, i, k);
        } else if Wrote(cfg, node, k) {
          InvWrote(cfg, l, c, i, k);
        }
      }
    }
  }

  lemma {:induction false} InvNp(cfg: Config, l: Ledger, c: Chain, i: nat, k: Key)
    requires Inv(cfg, l, c) && 1 <= i <= |c| && l.genesis <= i && k in NodeOf(c, i).keys && k in cfg.nonProvable
    ensures !NodeOf(c, i).keys[k] && NpAt(l.db, k, i).Some?
  {
    assert EntryOk(cfg, c, i);
    assert Lookup(l.db, NpKey(k, i)) == Expect(cfg, c, l.genesis, NpKey(k, i));
  }

  lemma {:induction false} InvApart(cfg: Config, l: Ledger, c: Chain, i: nat, j: nat)
    requires Inv(cfg, l, c)
    ensures Apart(cfg, l.db, i, j)
  {
    hide Holds, NodeAt, ChainOk;
    InvNode(cfg, l, c, i);
    InvNode(cfg, l, c, j);
    if i < j && NodeAt(l.db, i).Some? && NodeAt(l.db, j).Some?
       && NodeAt(l.db, i).value.version == NodeAt(l.db, j).value.version {
      VersionsGrow(cfg, c, i, j - 1);
      BlockVersion(cfg, c, j);
      assert c[j - 1].blk.updates.Keys <= cfg.nonProvable && c[j - 1].blk.deletes == {};
    }
  }

  lemma {:induction false} InvDigest(cfg: Config, l: Ledger, c: Chain, i: nat)
    requires Inv(cfg, l, c)
    ensures DigestOk(cfg, l.db, i)
  {
    hide Holds, NodeAt, ChainOk, GetRawBlock;
    InvNode(cfg, l, c, i);
    if i > 0 {
      InvNode(cfg, l, c, i - 1);
      if NodeAt(l.db, i - 1).Some? && NodeAt(l.db, i).Some? {
        HashChain(cfg, l, map[], c, i);
      }
    }
  }

  /** Every database that represents a chain is in order. */
  lemma {:induction false} InvIsRaw(cfg: Config, l: Ledger, c: Chain)
    requires Inv(cfg, l, c)
    ensures RawOk(cfg, l)
  {
    hide Inv, IdsOk, RootsOk, StalesOk, NpIndexOk, VersionsOk, LeavesOk, RootNodesOk, NodeOk, Apart, DigestOk;
    RepresentsIds(cfg, l, c);
    InvRoots(cfg, l, c);
    InvStales(cfg, l, c);
    InvIndex(cfg, l, c);
    InvLeaves(cfg, l, c);
    InvNodes(cfg, l, c);
    InvVersions(cfg, l, c);
    forall i: nat
      ensures NodeOk(cfg, l.db, i) && DigestOk(cfg, l.db, i)
    {
      InvNodeOk(cfg, l, c, i);
      InvDigest(cfg, l, c, i);
    }
    forall i: nat, j: nat
      ensures Apart(cfg, l.db, i, j)
    {
      InvApart(cfg, l, c, i, j);
    }
  }

  // ---------- one more block ----------

  lemma {:induction false} AddAllAppend(add: Adder, l: Ledger, blocks: seq<RawBlock>, b: RawBlock)
    requires AddAll(add, l, blocks).Ok?
    ensures AddAll(add, l, blocks + [b]) == add(AddAll(add, l, blocks).value, b)
    decreases |blocks|
  {
    if blocks == [] {
      assert [b][1..] == [];
      assert blocks + [b] == [b];
    } else {
      AddAllAppend(add, add(l, blocks[0]).value, blocks[1..], b);
      assert (blocks + [b])[1..] == blocks[1..] + [b];
    }
  }

  /** Raw blocks 1 .. n, as an adapter exports them. */
  ghost predicate Exported(cfg: Config, db: Db, blocks: seq<RawBlock>) {
    forall i :: 0 <= i < |blocks| ==> Ok(blocks[i]) == RawAt(cfg, db, i + 1)
  }

  /** The blocks before the new one are imported to the exporter's database and the chain's own tree. */
  lemma {:induction false} PrefixImported(
    cfg: Config, l: Ledger, c: Chain, updates: map<Key, Value>, deletes: set<Key>, blocks: seq<RawBlock>, target: State)
    requires Inv(cfg, l, c) && l.genesis <= 1 && AddBlock(cfg, l, updates, deletes).Ok? && IsEmpty(target)
    requires |blocks| == |c| && Exported(cfg, AddBlock(cfg, l, updates, deletes).value.db, blocks)
    ensures AddAll(Adding(cfg), target.ledger, blocks) == Ok(InStep(l, c))
  {
    hide Inv, AddBlock, GetRawBlock, RawOk, AddAll, IsEmpty, Imported, Holds;
    InvIsRaw(cfg, l, c);
    AddKeepsRaw(cfg, l, RawBlock(updates, deletes, ZeroDigest, StateHash(map[])));
    InvIds(cfg, l, c);
    forall i | 0 <= i < |blocks|
      ensures blocks[i] == c[i].raw
    {
      ExportedIs(cfg, l, c, i + 1);
    }
    InvChainOk(cfg, l, c);
    ImportChain(cfg, target, c, blocks);
    ImportedIs(cfg, l, c, AddAll(Adding(cfg), target.ledger, blocks).value);
  }

  lemma {:induction false} InvIds(cfg: Config, l: Ledger, c: Chain)
    requires Inv(cfg, l, c)
    ensures l.last == |c| && (if c == [] then l.genesis == 0 else 1 <= l.genesis <= |c|)
  {
  }

  lemma {:induction false} InvChainOk(cfg: Config, l: Ledger, c: Chain)
    requires Inv(cfg, l, c)
    ensures ChainOk(cfg, c)
  {
  }

  lemma {:induction false} ExportedIs(cfg: Config, l: Ledger, c: Chain, i: nat)
    requires Inv(cfg, l, c) && l.genesis <= 1 <= i <= |c|
    ensures NodeAt(l.db, i).Some? && RawAt(cfg, l.db, i) == Ok(c[i - 1].raw)
  {
    hide ChainOk, GetRawBlock, NodeAt;
    InvNode(cfg, l, c, i);
    RawBlockRebuilt(cfg, l.db, map[], c, l.genesis, i);
  }

  lemma {:induction false} ImportedIs(cfg: Config, l: Ledger, c: Chain, m: Ledger)
    requires Inv(cfg, l, c) && l.genesis <= 1 && Imported(cfg, c, m, |c|)
    ensures m == InStep(l, c)
  {
    hide Holds, ChainOk;
    assert c[..|c|] == c;
    DbUnique(cfg, l.db, m.db, c, l.genesis);
  }

  /** Adding a block with the deletes that the exporter recorded is adding it with the ones it was asked for. */
  lemma {:induction false} RecordedDeletes(
    cfg: Config, l: Ledger, c: Chain, updates: map<Key, Value>, deletes: set<Key>)
    requires Inv(cfg, l, c) && deletes !! cfg.nonProvable
    ensures var recorded := ActuallyDeleted(l.db, l.tree.version, deletes - updates.Keys);
      AddBlock(cfg, InStep(l, c), updates, recorded) == AddBlock(cfg, InStep(l, c), updates, deletes)
  {
    hide Inv, LeafAtMost, ParentDigest, Writes, Update, LatestRoot;
    InStepFinds(cfg, l, c, updates, deletes);
    var recorded := ActuallyDeleted(l.db, l.tree.version, deletes - updates.Keys);
    assert recorded * cfg.nonProvable == {} && deletes * cfg.nonProvable == {};
    assert ActuallyDeleted(l.db, LastTree(c).version, recorded - updates.Keys) == recorded;
    assert MakePlan(cfg, InStep(l, c), updates, recorded) == MakePlan(cfg, InStep(l, c), updates, deletes);
  }

  /** The import of the exporter's chain and its newest block. */
  lemma {:induction false} ImportedWithOneMore(
    cfg: Config, l: Ledger, c: Chain, updates: map<Key, Value>, deletes: set<Key>, blocks: seq<RawBlock>, target: State)
    requires Inv(cfg, l, c) && l.genesis <= 1 && deletes !! cfg.nonProvable && IsEmpty(target)
    requires AddBlock(cfg, l, updates, deletes).Ok?
    requires |blocks| == |c| + 1 && Exported(cfg, AddBlock(cfg, l, updates, deletes).value.db, blocks)
    ensures AddAll(Adding(cfg), target.ledger, blocks) == AddBlock(cfg, InStep(l, c), updates, deletes)
  {
    hide Inv, AddBlock, GetRawBlock, RawOk, AddAll, IsEmpty, Holds, ActuallyDeleted;
    var front := blocks[..|c|];
    InvIsRaw(cfg, l, c);
    InvIds(cfg, l, c);
    PrefixImported(cfg, l, c, updates, deletes, front, target);
    RebuiltAsAdded(cfg, l, updates, deletes);
    assert Ok(blocks[|c|]) == RawAt(cfg, AddBlock(cfg, l, updates, deletes).value.db, |c| + 1);
    AddAllAppend(Adding(cfg), target.ledger, front, blocks[|c|]);
    assert blocks == front + [blocks[|c|]];
    RecordedDeletes(cfg, l, c, updates, deletes);
  }

  /** A block that does not read the root records the cached tree. */
  lemma {:induction false} UnreadRaw(cfg: Config, l: Ledger, c: Chain, updates: map<Key, Value>, deletes: set<Key>)
    requires Inv(cfg, l, c) && deletes !! cfg.nonProvable && !ReadsRoot(cfg, l, updates, deletes)
    ensures AddBlock(cfg, l, updates, deletes).Ok?
    ensures RawAt(cfg, AddBlock(cfg, l, updates, deletes).value.db, |c| + 1)
         == Ok(RawBlock(updates, {}, DigestBefore(c, |c| + 1), StateHash(l.tree.vals)))
    ensures NodeAt(AddBlock(cfg, l, updates, deletes).value.db, |c| + 1).Some?
    ensures NodeAt(AddBlock(cfg, l, updates, deletes).value.db, |c| + 1).value.version == l.tree.version
  {
    hide Holds, ChainOk, GetRawBlock, RawOk, MakePlan, LeafAtMost, Writes;
    InvIsRaw(cfg, l, c);
    AddSucceeds(cfg, l, c, updates, deletes);
    var plan := MakePlan(cfg, l, updates, deletes).value;
    NewNode(cfg, l, updates, deletes, plan);
    NewBlockOk(cfg, l, updates, deletes, plan);
    Rebuilds(cfg, AddBlock(cfg, l, updates, deletes).value.db, |c| + 1);
    PlanIds(cfg, l, updates, deletes, plan);
    ParentDigestIs(cfg, l, c);
    RebuiltAsAdded(cfg, l, updates, deletes);
    AddedTreeIs(cfg, l, updates, deletes, plan);
  }

  /** Whether the two databases with such a block are the same. */
  lemma {:induction false} UnreadDbs(cfg: Config, l: Ledger, c: Chain, updates: map<Key, Value>, deletes: set<Key>)
    requires Inv(cfg, l, c) && deletes !! cfg.nonProvable && !ReadsRoot(cfg, l, updates, deletes)
    ensures AddBlock(cfg, l, updates, deletes).Ok? && AddBlock(cfg, InStep(l, c), updates, deletes).Ok?
    ensures AddBlock(cfg, l, updates, deletes).value.db == AddBlock(cfg, InStep(l, c), updates, deletes).value.db
       <==> l.tree == LastTree(c)
  {
    hide Holds, ChainOk, AddBlock, ReadsRoot;
    UnreadRootAt(cfg, l, c, updates, deletes, BlockKey(|c| + 1));
    assert l.tree == LastTree(c) ==> InStep(l, c) == l;
  }

  lemma {:induction false} UnreadInStep(cfg: Config, l: Ledger, c: Chain, updates: map<Key, Value>, deletes: set<Key>)
    requires Inv(cfg, l, c) && !ReadsRoot(cfg, l, updates, deletes)
    ensures Inv(cfg, InStep(l, c), c) && !ReadsRoot(cfg, InStep(l, c), updates, deletes)
  {
    hide Holds, ChainOk, ActuallyDeleted;
    InStepFinds(cfg, l, c, updates, deletes);
  }

  /**
   * Importing, in any order, the raw blocks of any represented chain and one more block that the
   * exporter added. The imported block is the exported one if and only if the block made the exporter
   * read its root or the cached tree held the values of the chain; the databases are the same if and
   * only if it read its root or the cached tree was the chain's.
   */
  lemma {:induction false} ImportExact(
    cfg: Config, l: Ledger, c: Chain, updates: map<Key, Value>, deletes: set<Key>, blocks: seq<RawBlock>,
    target: State, ds: seq<Delivery>)
    requires Inv(cfg, l, c) && l.genesis <= 1 && deletes !! cfg.nonProvable && IsEmpty(target)
    requires AddBlock(cfg, l, updates, deletes).Ok? && |blocks| == |c| + 1
    requires Exported(cfg, AddBlock(cfg, l, updates, deletes).value.db, blocks)
    requires NewIds(target, ds) && AsMap(ds) == Numbered(blocks, 1)
    ensures var r := DeliverAll(Adding(cfg), Linked(cfg), target, ds);
      var db := AddBlock(cfg, l, updates, deletes).value.db;
      && r.Ok? && r.value.ledger.last == |c| + 1
      && (RawAt(cfg, r.value.ledger.db, |c| + 1) == Ok(blocks[|c|])
          <==> ReadsRoot(cfg, l, updates, deletes) || l.tree.vals == LastTree(c).vals)
      && (r.value.ledger.db == db <==> ReadsRoot(cfg, l, updates, deletes) || l.tree == LastTree(c))
  {
    hide Inv, AddBlock, GetRawBlock, ReadsRoot, AddAll, Holds, DeliverAll, NewIds;
    ImportedWithOneMore(cfg, l, c, updates, deletes, blocks, target);
    InStepAdds(cfg, l, c, updates, deletes);
    AddersOk(cfg);
    TransferOrderIndependent(Adding(cfg), Linked(cfg), target, blocks, ds);
    if ReadsRoot(cfg, l, updates, deletes) {
      CachedTreeIgnored(cfg, l, c, updates, deletes);
    } else {
      UnreadRaw(cfg, l, c, updates, deletes);
      UnreadInStep(cfg, l, c, updates, deletes);
      UnreadRaw(cfg, InStep(l, c), c, updates, deletes);
      UnreadDbs(cfg, l, c, updates, deletes);
    }
  }

  lemma {:induction false} InStepAdds(cfg: Config, l: Ledger, c: Chain, updates: map<Key, Value>, deletes: set<Key>)
    requires Inv(cfg, l, c) && deletes !! cfg.nonProvable
    ensures AddBlock(cfg, InStep(l, c), updates, deletes).Ok?
  {
    hide Holds, ChainOk, MakePlan;
    InStepFinds(cfg, l, c, updates, deletes);
    AddSucceeds(cfg, InStep(l, c), c, updates, deletes);
  }
}
