/** Rolling back the last block: exactly when it undoes adding that block. */
module Rollback {
  import opened Common
  import opened SparseTree
  import opened AdapterSpec
  import opened ChainView
  import opened Reading
  import opened Growth
  import opened OnlyBlock

  /** The last block of a chain can be rolled back without a trace: no delete stamps, and a version of its own. */
  predicate Revertible(cfg: Config, blk: Blk, parentVersion: nat) {
    blk.deletes == {} && (TouchesTree(cfg, blk) || parentVersion == 0)
  }

  /** The genesis id after the last of n blocks is deleted. */
  function GenesisAfterDelete(g: nat, n: nat): nat {
    if g == n then 0 else g
  }

  ghost predicate RollsBack(cfg: Config, c: Chain, e: Entry, g: nat) {
    && ChainOk(cfg, c) && ChainOk(cfg, c + [e])
    && GenesisAfterAdd(g) <= |c| + 1 && (g == 0 <==> c == [])
  }

  /** Versions of the shorter chain stay below the version of a last block that touches the tree. */
  lemma {:induction false} LastVersion(cfg: Config, c: Chain, e: Entry, g: nat)
    requires RollsBack(cfg, c, e, g)
    ensures e.tree.version == LastTree(c).version + (if TouchesTree(cfg, e.blk) then 1 else 0)
    ensures !TouchesTree(cfg, e.blk) ==> e.tree == LastTree(c)
    ensures forall x, w: nat :: Kept(c, g, x, w) ==> 1 <= w <= LastTree(c).version
  {
    var n := |c|;
    BlockVersion(cfg, c + [e], n + 1);
    assert TreeAt(c + [e], n) == LastTree(c) && TreeAt(c + [e], n + 1) == e.tree;
    forall x, w: nat | Kept(c, g, x, w)
      ensures 1 <= w <= LastTree(c).version
    {
      var i :| OldestTree(g) <= i <= |c| && HasItem(TreeAt(c, i), x, w);
      TreesOk(cfg, c, i);
      VersionsGrow(cfg, c, i, n);
    }
  }

  /** Items of the last tree with an older version were in the tree before. */
  lemma {:induction false} OlderItems(cfg: Config, c: Chain, e: Entry, g: nat, x: Item, w: nat)
    requires RollsBack(cfg, c, e, g)
    requires w != e.tree.version || !TouchesTree(cfg, e.blk)
    ensures Kept(c + [e], GenesisAfterAdd(g), x, w) <==> Kept(c, g, x, w)
  {
    var n := |c|;
    TreesOk(cfg, c + [e], n + 1);
    LastVersion(cfg, c, e, g);
    assert TreeAt(c + [e], n) == LastTree(c) && TreeAt(c + [e], n + 1) == e.tree;
    KeptExtend(c, e, g, x, w);
    if HasItem(e.tree, x, w) {
      assert HasItem(TreeAt(c, n), x, w);
    }
  }

  lemma {:induction false} BackLeaf(cfg: Config, c: Chain, e: Entry, g: nat, k: Key, w: nat)
    requires RollsBack(cfg, c, e, g) && Revertible(cfg, e.blk, LastTree(c).version)
    ensures ExpectLeaf(c, g, k, w)
         == if DiesWithLast(cfg, NodeOf(c + [e], |c| + 1), |c| + 1, LeafKey(k, w)) then None
            else ExpectLeaf(c + [e], GenesisAfterAdd(g), k, w)
  {
    var c', n := c + [e], |c|;
    LastVersion(cfg, c, e, g);
    WriterExtend(c, e, w, n);
    DeleterExtend(c, e, k, w, n);
    if w == e.tree.version && TouchesTree(cfg, e.blk) {
      if Kept(c', GenesisAfterAdd(g), LeafItem(k), w) {
        KeptLeaf(cfg, c', GenesisAfterAdd(g), k, w);
      }
    } else {
      OlderItems(cfg, c, e, g, LeafItem(k), w);
      if Kept(c, g, LeafItem(k), w) {
        KeptLeaf(cfg, c, g, k, w);
      }
    }
  }

  lemma {:induction false} BackInternal(cfg: Config, c: Chain, e: Entry, g: nat, w: nat, p: Path)
    requires RollsBack(cfg, c, e, g) && Revertible(cfg, e.blk, LastTree(c).version)
    ensures ExpectInternal(cfg, c, g, p, w)
         == if w == e.tree.version then None else ExpectInternal(cfg, c + [e], GenesisAfterAdd(g), p, w)
  {
    LastVersion(cfg, c, e, g);
    WriterExtend(c, e, w, |c|);
    if w != e.tree.version {
      OlderItems(cfg, c, e, g, NodeItem(p), w);
      if Kept(c, g, NodeItem(p), w) {
        var i := Writer(c, w, |c|);
        assert TreeAt(c + [e], i) == TreeAt(c, i);
      }
    }
  }

  lemma {:induction false} BackStale(cfg: Config, c: Chain, e: Entry, g: nat, since: nat, x: Item, w: nat)
    requires RollsBack(cfg, c, e, g) && Revertible(cfg, e.blk, LastTree(c).version)
    ensures StaleSince(c, g, since, x, w)
       <==> since != e.tree.version && StaleSince(c + [e], GenesisAfterAdd(g), since, x, w)
  {
    var n := |c|;
    LastVersion(cfg, c, e, g);
    StaleExtend(c, e, g, since, x, w);
    assert StaleSince(c + [e], g, since, x, w) <==> StaleSince(c + [e], GenesisAfterAdd(g), since, x, w);
    if StaleSince(c, g, since, x, w) {
      var j :| 1 <= j <= n && g <= j && TreeAt(c, j).version == since && LeftIn(c, j, x, w);
      TreesOk(cfg, c, j);
      VersionsGrow(cfg, c, j, n);
    }
  }

  lemma {:induction false} BackKey(cfg: Config, c: Chain, e: Entry, g: nat, y: DbKey)
    requires RollsBack(cfg, c, e, g) && Revertible(cfg, e.blk, LastTree(c).version)
    ensures Expect(cfg, c, g, y)
         == if DiesWithLast(cfg, NodeOf(c + [e], |c| + 1), |c| + 1, y) then None
            else Expect(cfg, c + [e], GenesisAfterAdd(g), y)
  {
    var c', n := c + [e], |c|;
    match y
    case BlockKey(i) =>
    case LeafKey(k, w) => BackLeaf(cfg, c, e, g, k, w);
    case InternalKey(w, p) => BackInternal(cfg, c, e, g, w, p);
    case StaleKey(since, target) =>
      if KeyItem(target).Some? {
        BackStale(cfg, c, e, g, since, KeyItem(target).value.0, KeyItem(target).value.1);
      }
    case NpKey(k, i) =>
      forall m: nat
        ensures Updates(c', k, m) <==> Updates(c, k, m) || (m == n + 1 && k in e.blk.updates)
      {
        UpdatesExtend(c, e, k, m);
      }
      assert NoWriteBetween(c', k, i, GenesisAfterAdd(g)) <==> NoWriteBetween(c, k, i, g);
    case NpStaleKey(since, target) =>
      if target.NpKey? {
        forall m: nat
          ensures Updates(c', target.key, m) <==> Updates(c, target.key, m) || (m == n + 1 && target.key in e.blk.updates)
        {
          UpdatesExtend(c, e, target.key, m);
        }
        assert since <= n ==>
          (NoWriteBetween(c', target.key, target.id, since) <==> NoWriteBetween(c, target.key, target.id, since));
      }
  }

  /** A block that is not revertible leaves something different behind. */
  lemma {:induction false} Irrevertible(cfg: Config, c: Chain, e: Entry, g: nat) returns (y: DbKey)
    requires RollsBack(cfg, c, e, g) && !Revertible(cfg, e.blk, LastTree(c).version)
    ensures !DiesWithLast(cfg, NodeOf(c + [e], |c| + 1), |c| + 1, y) ==>
      Expect(cfg, c, g, y) != Expect(cfg, c + [e], GenesisAfterAdd(g), y)
    ensures DiesWithLast(cfg, NodeOf(c + [e], |c| + 1), |c| + 1, y) ==> Expect(cfg, c, g, y).Some?
  {
    hide ExpectLeaf, Update, StaleSince, NodeFlags;
    var n := |c|;
    LastVersion(cfg, c, e, g);
    TreesOk(cfg, c, n);
    if e.blk.deletes == {} {
      y := InternalKey(e.tree.version, []);
      assert HasItem(TreeAt(c, n), ROOT, e.tree.version);
    } else {
      var k :| k in e.blk.deletes;
      assert EntryOk(cfg, c + [e], n + 1);
      assert TreeAt(c + [e], n) == LastTree(c);
      var w := LastTree(c).items[LeafItem(k)];
      assert HasItem(TreeAt(c, n), LeafItem(k), w);
      y := LeafKey(k, w);
      StampStays(cfg, c, e, g, k, w);
    }
  }

  lemma {:induction false} StampStays(cfg: Config, c: Chain, e: Entry, g: nat, k: Key, w: nat)
    requires RollsBack(cfg, c, e, g) && k in e.blk.deletes && HasItem(LastTree(c), LeafItem(k), w)
    ensures ExpectLeaf(c, g, k, w).Some? && ExpectLeaf(c, g, k, w).value.leaf.deletedIn.None?
    ensures ExpectLeaf(c + [e], GenesisAfterAdd(g), k, w) != ExpectLeaf(c, g, k, w)
  {
    var n := |c|;
    assert HasItem(TreeAt(c, n), LeafItem(k), w);
    KeptLeaf(cfg, c, g, k, w);
    LiveNotStamped(cfg, c, k, w, n, n);
    DeleterBound(c, k, w, n);
    assert TreeAt(c + [e], n) == LastTree(c);
    assert Deleter(c + [e], k, w, n + 1) == Some(n + 1);
  }

  /** The chain the adapter is left with: none after its only block, whatever was pruned before that. */
  function Remaining(g: nat, c: Chain): Chain {
    if g == |c| + 1 then [] else c
  }

  /** When the block after c can be rolled back without a trace from a chain that starts at g. */
  ghost predicate LeavesNoTrace(cfg: Config, g: nat, c: Chain, blk: Blk) {
    if g <= |c| || c == [] then Revertible(cfg, blk, LastTree(c).version) else Traceless(cfg, c, blk)
  }

  lemma {:induction false} DeleteLastUnpruned(cfg: Config, s: Ledger, c: Chain, e: Entry)
    requires Inv(cfg, s, c + [e]) && (s.genesis <= |c| || c == [])
    ensures var r := DeleteLast(cfg, s);
      var g := GenesisAfterDelete(s.genesis, |c| + 1);
      && r.Ok? && r.value == s.(db := r.value.db, genesis := g, last := |c|)
      && (Holds(cfg, r.value.db, c, g) <==> Revertible(cfg, e.blk, LastTree(c).version))
  {
    var c', n, g := c + [e], |c|, GenesisAfterDelete(s.genesis, |c| + 1);
    forall i | 1 <= i <= n
      ensures EntryOk(cfg, c, i)
    {
      assert EntryOk(cfg, c', i);
    }
    assert Lookup(s.db, BlockKey(n + 1)) == Expect(cfg, c', s.genesis, BlockKey(n + 1));
    var db' := DeleteLast(cfg, s).value.db;
    var node := NodeOf(c', n + 1);
    assert GenesisAfterAdd(g) == s.genesis;
    assert RollsBack(cfg, c, e, g);
    if Revertible(cfg, e.blk, LastTree(c).version) {
      forall y
        ensures Lookup(db', y) == Expect(cfg, c, g, y)
      {
        assert Lookup(s.db, y) == Expect(cfg, c', s.genesis, y);
        BackKey(cfg, c, e, g, y);
      }
    } else {
      var y := Irrevertible(cfg, c, e, g);
      assert Lookup(s.db, y) == Expect(cfg, c', s.genesis, y);
      assert Lookup(db', y) == if DiesWithLast(cfg, node, n + 1, y) then None else Lookup(s.db, y);
      assert Lookup(db', y) != Expect(cfg, c, g, y);
    }
  }

  /**
   * Deleting the last reachable block leaves the database of the remaining chain if and only if the
   * block leaves no trace. While older blocks are there, or none were ever, it must have deleted no
   * key and either changed the tree or sit on the empty tree; otherwise a delete stamp survives, or
   * the tree nodes and the stale index of the version it shares with its parent are lost. As the
   * only block of a pruned chain it must follow blocks that left nothing in the database.
   */
  lemma {:induction false} DeleteLastExact(cfg: Config, s: Ledger, c: Chain, e: Entry)
    requires Inv(cfg, s, c + [e])
    ensures var r := DeleteLast(cfg, s);
      var g, left := GenesisAfterDelete(s.genesis, |c| + 1), Remaining(s.genesis, c);
      && r.Ok? && r.value == s.(db := r.value.db, genesis := g, last := |left|)
      && (Holds(cfg, r.value.db, left, g) <==> LeavesNoTrace(cfg, s.genesis, c, e.blk))
  {
    hide Holds, ChainOk, Revertible, Traceless, DeleteLast;
    if s.genesis <= |c| || c == [] {
      DeleteLastUnpruned(cfg, s, c, e);
    } else {
      OnlyBlockExact(cfg, s, c, e);
    }
  }

  /** A database is determined by the chain and the genesis id. */
  lemma {:induction false} DbUnique(cfg: Config, db1: Db, db2: Db, c: Chain, g: nat)
    requires Holds(cfg, db1, c, g) && Holds(cfg, db2, c, g)
    ensures db1 == db2
  {
    forall y
      ensures Lookup(db1, y) == Lookup(db2, y)
    {
      assert Lookup(db1, y) == Expect(cfg, c, g, y);
      assert Lookup(db2, y) == Expect(cfg, c, g, y);
    }
    SameLookups(db1, db2);
  }

  /**
   * Adding a block and deleting it again restores the identical database and ids if and
   * only if the block is revertible. The cached tree root is not restored.
   */
  lemma {:induction false} RollbackInvertsAdd(
    cfg: Config, s: Ledger, c: Chain, updates: map<Key, Value>, deletes: set<Key>)
    requires Addable(cfg, s, c, updates, deletes)
    ensures var added := AddBlock(cfg, s, updates, deletes);
      && added.Ok?
      && var back := DeleteLast(cfg, added.value);
      && back.Ok?
      && (back.value == s.(tree := added.value.tree)
          <==> Revertible(cfg, EffectiveBlk(c, updates, deletes), LastTree(c).version))
  {
    var blk := EffectiveBlk(c, updates, deletes);
    AddBlockExtends(cfg, s, c, updates, deletes);
    var c' := Extend(cfg, c, blk);
    var added := AddBlock(cfg, s, updates, deletes).value;
    assert c' == c + [c'[|c|]];
    DeleteLastExact(cfg, added, c, c'[|c|]);
    var back := DeleteLast(cfg, added).value;
    if Revertible(cfg, blk, LastTree(c).version) {
      DbUnique(cfg, s.db, back.db, c, s.genesis);
    }
  }

  // ---------- what the rollback does not undo ----------

  /**
   * After a rollback that is exact on the database, the cached tree is still the tree of
   * the deleted block. A next block that does not change the tree is then recorded with
   * that tree's version; the database represents the longer chain if and only if the
   * cached tree is that of the chain.
   */
  lemma {:induction false} UntouchedTreeNeedsSync(cfg: Config, s: Ledger, c: Chain, updates: map<Key, Value>)
    requires Inv(cfg, s, c) && updates.Keys <= cfg.nonProvable
    ensures var r := AddBlock(cfg, s, updates, {});
      && r.Ok?
      && (Holds(cfg, r.value.db, Extend(cfg, c, Blk(updates, {})), r.value.genesis) <==> s.tree == LastTree(c))
  {
    hide ParentDigest, Below;
    var blk := EffectiveBlk(c, updates, {});
    assert blk == Blk(updates, {});
    assert (updates - cfg.nonProvable).Keys == {};
    assert updates - cfg.nonProvable == map[];
    if s.tree == LastTree(c) {
      AddBlockExtends(cfg, s, c, updates, {});
    } else {
      ParentDigestIs(cfg, s, c);
      var plan := MakePlan(cfg, s, updates, {}).value;
      var c' := Extend(cfg, c, blk);
      var y := BlockKey(|c| + 1);
      WritesAt(cfg, s.db, plan, y);
      assert Touched(LastTree(c), updates - cfg.nonProvable, {}) == {};
      assert Expect(cfg, c', GenesisAfterAdd(s.genesis), y).value.node.version == LastTree(c).version;
    }
  }

  /** A block recorded with the version of a deleted tree leaves an adapter that cannot read its root. */
  lemma {:induction false} RootLostAfterRollback(cfg: Config, s: Ledger, c: Chain, updates: map<Key, Value>)
    requires Inv(cfg, s, c) && updates.Keys <= cfg.nonProvable && s.tree != LastTree(c)
    ensures var r := AddBlock(cfg, s, updates, {});
      r.Ok? && LatestRoot(r.value.db, r.value.last) == Err(RuntimeError)
  {
    hide ParentDigest, Below, Expect, Update, Writes;
    AddSucceeds(cfg, s, c, updates, {});
    var plan := MakePlan(cfg, s, updates, {}).value;
    var y := InternalKey(s.tree.version, []);
    AddedAt(cfg, s, updates, {}, plan, BlockKey(|c| + 1));
    AddedAt(cfg, s, updates, {}, plan, y);
    RootNotKept(cfg, s, c);
  }

  lemma {:induction false} RootNotKept(cfg: Config, s: Ledger, c: Chain)
    requires Inv(cfg, s, c) && s.tree != LastTree(c)
    ensures Lookup(s.db, InternalKey(s.tree.version, [])) == None
  {
    var y := InternalKey(s.tree.version, []);
    assert Lookup(s.db, y) == Expect(cfg, c, s.genesis, y);
    if Kept(c, s.genesis, ROOT, s.tree.version) {
      var i :| OldestTree(s.genesis) <= i <= |c| && HasItem(TreeAt(c, i), ROOT, s.tree.version);
      TreesOk(cfg, c, i);
      VersionsGrow(cfg, c, i, |c|);
    }
  }

  /**
   * Rolling back a block that shares its parent's version removes the parent's tree root:
   * from then on every block that changes the tree is refused.
   */
  lemma {:induction false} RootLostByEmptyBlock(cfg: Config, s: Ledger, c: Chain, e: Entry)
    requires Inv(cfg, s, c + [e]) && c != [] && s.genesis <= |c|
    requires !TouchesTree(cfg, e.blk) && LastTree(c).version > 0
    ensures var back := DeleteLast(cfg, s);
      && back.Ok?
      && LatestRoot(back.value.db, back.value.last) == Err(RuntimeError)
      && forall k, value :: k !in cfg.nonProvable ==> AddBlock(cfg, back.value, map[k := value], {}).Err?
  {
    hide BlockUpdates, ExpectLeaf, ExpectInternal;
    var c', n := c + [e], |c|;
    BlockVersion(cfg, c', n + 1);
    assert TreeAt(c', n) == LastTree(c);
    assert Lookup(s.db, BlockKey(n + 1)) == Expect(cfg, c', s.genesis, BlockKey(n + 1));
    assert Lookup(s.db, BlockKey(n)) == Expect(cfg, c', s.genesis, BlockKey(n));
    var back := DeleteLast(cfg, s).value;
    assert Lookup(back.db, BlockKey(n)) == Lookup(s.db, BlockKey(n));
    assert Lookup(back.db, InternalKey(LastTree(c).version, [])) == None;
    forall k, value | k !in cfg.nonProvable
      ensures AddBlock(cfg, back, map[k := value], {}).Err?
    {
      NoRootNoUpdate(cfg, back, k, value);
    }
  }

  /** Without a readable root no block with a provable update can be added. */
  lemma {:induction false} NoRootNoUpdate(cfg: Config, s: Ledger, k: Key, value: Value)
    requires LatestRoot(s.db, s.last).Err? && k !in cfg.nonProvable
    ensures AddBlock(cfg, s, map[k := value], {}).Err?
  {
    assert k in map[k := value] - cfg.nonProvable;
  }
}
