/** Pruning from the front: what the genesis block takes with it, and that nobody can tell. */
module Pruning {
  import opened Common
  import opened SparseTree
  import opened AdapterSpec
  import opened ChainView
  import opened Reading

  /** A version is reached by one block only: what leaves at that version leaves in that block. */
  lemma {:induction false} LeftAtVersion(cfg: Config, c: Chain, g: nat, j: nat, x: Item, w: nat)
    requires ChainOk(cfg, c) && 1 <= g <= j <= |c| && LeftIn(c, j, x, w)
    ensures TreeAt(c, j).version == TreeAt(c, g).version <==> j == g
  {
    TreesOk(cfg, c, j);
    if g < j {
      VersionsGrow(cfg, c, g, j - 1);
    }
  }

  lemma {:induction false} StaleAtGenesis(cfg: Config, c: Chain, g: nat, x: Item, w: nat)
    requires ChainOk(cfg, c) && 1 <= g <= |c|
    ensures StaleSince(c, g, TreeAt(c, g).version, x, w) <==> LeftIn(c, g, x, w)
  {
    if StaleSince(c, g, TreeAt(c, g).version, x, w) {
      var j :| 1 <= j <= |c| && g <= j && TreeAt(c, j).version == TreeAt(c, g).version && LeftIn(c, j, x, w);
      LeftAtVersion(cfg, c, g, j, x, w);
    }
  }

  lemma {:induction false} StaleAfterGenesis(cfg: Config, c: Chain, g: nat, since: nat, x: Item, w: nat)
    requires ChainOk(cfg, c) && 1 <= g <= |c|
    ensures StaleSince(c, g + 1, since, x, w) <==> StaleSince(c, g, since, x, w) && since != TreeAt(c, g).version
  {
    if StaleSince(c, g + 1, since, x, w) {
      var j :| 1 <= j <= |c| && g + 1 <= j && TreeAt(c, j).version == since && LeftIn(c, j, x, w);
      LeftAtVersion(cfg, c, g, j, x, w);
    }
    if StaleSince(c, g, since, x, w) && since != TreeAt(c, g).version {
      var j :| 1 <= j <= |c| && g <= j && TreeAt(c, j).version == since && LeftIn(c, j, x, w);
      assert j != g;
    }
  }

  /** What is kept after the genesis block goes is what was kept and did not leave in that block. */
  lemma {:induction false} KeptAfterGenesis(cfg: Config, c: Chain, g: nat, x: Item, w: nat)
    requires ChainOk(cfg, c) && 1 <= g <= |c|
    ensures Kept(c, g + 1, x, w) <==> Kept(c, g, x, w) && !LeftIn(c, g, x, w)
  {
    if Kept(c, g + 1, x, w) {
      var i :| g <= i <= |c| && HasItem(TreeAt(c, i), x, w);
      if LeftIn(c, g, x, w) {
        TreesOk(cfg, c, g - 1);
        VersionsGrow(cfg, c, g - 1, g);
        Persists(cfg, c, g, i, x, w);
      }
    }
    if Kept(c, g, x, w) && !LeftIn(c, g, x, w) {
      var i :| g - 1 <= i <= |c| && HasItem(TreeAt(c, i), x, w);
      assert HasItem(TreeAt(c, if i < g then g else i), x, w);
    }
  }

  lemma {:induction false} PruneKey(cfg: Config, s: Ledger, c: Chain, y: DbKey)
    requires Inv(cfg, s, c) && 1 <= s.genesis < s.last
    ensures Expect(cfg, c, s.genesis + 1, y)
         == if DiesWithGenesis(s.db, NodeOf(c, s.genesis), s.genesis, y) then None else Expect(cfg, c, s.genesis, y)
  {
    var g := s.genesis;
    var v := TreeAt(c, g).version;
    assert Lookup(s.db, StaleKey(v, y)) == Expect(cfg, c, g, StaleKey(v, y));
    assert Lookup(s.db, NpStaleKey(g, y)) == Expect(cfg, c, g, NpStaleKey(g, y));
    match y
    case InternalKey(w, p) =>
      StaleAtGenesis(cfg, c, g, NodeItem(p), w);
      KeptAfterGenesis(cfg, c, g, NodeItem(p), w);
    case LeafKey(k, w) =>
      StaleAtGenesis(cfg, c, g, LeafItem(k), w);
      KeptAfterGenesis(cfg, c, g, LeafItem(k), w);
    case StaleKey(since, target) =>
      if KeyItem(target).Some? {
        StaleAfterGenesis(cfg, c, g, since, KeyItem(target).value.0, KeyItem(target).value.1);
      }
    case NpKey(k, i) =>
      assert NoWriteBetween(c, k, i, g + 1) <==> NoWriteBetween(c, k, i, g) && (i < g ==> !Updates(c, k, g));
    case _ =>
  }

  /** Deleting the genesis block leaves exactly the database of the same chain from the next block on. */
  lemma {:induction false} DeleteGenesisPrunes(cfg: Config, s: Ledger, c: Chain)
    requires Inv(cfg, s, c) && 1 <= s.genesis < s.last
    ensures var r := DeleteGenesis(cfg, s);
      && r.Ok? && r.value == s.(db := r.value.db, genesis := s.genesis + 1)
      && Inv(cfg, r.value, c)
  {
    hide ExpectLeaf, ExpectInternal, DiesWithGenesis, ChainOk;
    var g := s.genesis;
    assert Lookup(s.db, BlockKey(g)) == Expect(cfg, c, g, BlockKey(g));
    var db' := DeleteGenesis(cfg, s).value.db;
    forall y
      ensures Lookup(db', y) == Expect(cfg, c, g + 1, y)
    {
      assert Lookup(s.db, y) == Expect(cfg, c, g, y);
      PruneKey(cfg, s, c, y);
    }
  }

  /**
   * Pruning is invisible: no value and no raw block from the new genesis block on
   * changes, for provable and non-provable keys alike.
   */
  lemma {:induction false} PruningInvisible(cfg: Config, s: Ledger, temps: map<nat, RawBlock>, c: Chain, k: Key, v: nat)
    requires Inv(cfg, s, c) && 1 <= s.genesis < s.last && s.genesis < v
    ensures var pruned := DeleteGenesis(cfg, s);
      && pruned.Ok?
      && GetValue(cfg, pruned.value.db, k, v) == GetValue(cfg, s.db, k, v)
      && (v <= s.last ==>
           GetRawBlock(cfg, pruned.value.db, temps, v) == GetRawBlock(cfg, s.db, temps, v))
      && LatestRoot(pruned.value.db, s.last) == LatestRoot(s.db, s.last)
  {
    DeleteGenesisPrunes(cfg, s, c);
    var s' := DeleteGenesis(cfg, s).value;
    ReadsRefineHistory(cfg, s.db, c, s.genesis, k, v);
    ReadsRefineHistory(cfg, s'.db, c, s'.genesis, k, v);
    LatestRootIs(cfg, s.db, c, s.genesis);
    LatestRootIs(cfg, s'.db, c, s'.genesis);
    if v <= s.last {
      RawBlockRebuilt(cfg, s.db, temps, c, s.genesis, v);
      RawBlockRebuilt(cfg, s'.db, temps, c, s'.genesis, v);
    }
  }

  /** A tree item version written before the genesis block. */
  predicate OldItem(c: Chain, g: nat, y: DbKey)
    requires 1 <= g <= |c|
  {
    KeyItem(y).Some? && KeyItem(y).value.1 <= TreeAt(c, g - 1).version
  }

  lemma {:induction false} KeptBeforeGenesis(cfg: Config, c: Chain, g: nat, x: Item, w: nat)
    requires ChainOk(cfg, c) && 1 <= g <= |c| && Kept(c, g, x, w) && w <= TreeAt(c, g - 1).version
    ensures HasItem(TreeAt(c, g - 1), x, w)
  {
    var i :| OldestTree(g) <= i <= |c| && HasItem(TreeAt(c, i), x, w);
    Persists(cfg, c, g - 1, i, x, w);
  }

  lemma {:induction false} OldItemIsLive(cfg: Config, s: Ledger, c: Chain, y: DbKey)
    requires Inv(cfg, s, c) && 1 <= s.genesis
    requires y in s.db && OldItem(c, s.genesis, y)
    ensures HasItem(TreeAt(c, s.genesis - 1), KeyItem(y).value.0, KeyItem(y).value.1)
    ensures y == ItemKey(KeyItem(y).value.0, KeyItem(y).value.1)
  {
    hide NodeFlags, DigestBefore;
    assert Lookup(s.db, y) == Expect(cfg, c, s.genesis, y);
    KeptBeforeGenesis(cfg, c, s.genesis, KeyItem(y).value.0, KeyItem(y).value.1);
  }

  lemma {:induction false} StaleIsRecent(cfg: Config, s: Ledger, c: Chain, y: DbKey)
    requires Inv(cfg, s, c) && 1 <= s.genesis
    requires y in s.db && y.StaleKey?
    ensures y.since > TreeAt(c, s.genesis - 1).version
  {
    hide NodeFlags, DigestBefore, ExpectLeaf, ExpectInternal;
    var g := s.genesis;
    assert Lookup(s.db, y) == Expect(cfg, c, g, y);
    var x, w := KeyItem(y.target).value.0, KeyItem(y.target).value.1;
    var j :| 1 <= j <= |c| && g <= j && TreeAt(c, j).version == y.since && LeftIn(c, j, x, w);
    TreesOk(cfg, c, j);
    VersionsGrow(cfg, c, g - 1, j - 1);
  }

  /**
   * Pruning leaves no garbage: of the versions of a key, or of a tree node, written
   * before the genesis block, at most one is left, and it is the one the tree before
   * the genesis block contains. No stale index entry from before the genesis is left.
   */
  lemma {:induction false} NoGarbage(cfg: Config, s: Ledger, c: Chain, y1: DbKey, y2: DbKey)
    requires Inv(cfg, s, c) && 1 <= s.genesis
    requires y1 in s.db && y2 in s.db
    ensures OldItem(c, s.genesis, y1) && OldItem(c, s.genesis, y2) ==>
      (KeyItem(y1).value.0 == KeyItem(y2).value.0 ==> y1 == y2)
    ensures y1.NpKey? && y2.NpKey? && y1.key == y2.key && y1.id < s.genesis && y2.id < s.genesis ==> y1 == y2
    ensures y1.StaleKey? ==> y1.since > TreeAt(c, s.genesis - 1).version
    ensures y1.NpStaleKey? ==> y1.since >= s.genesis
    ensures y1.BlockKey? ==> y1.id >= s.genesis
  {
    hide ChainOk, NodeFlags, DigestBefore, OldItem, ExpectLeaf, ExpectInternal;
    var g := s.genesis;
    assert Lookup(s.db, y1) == Expect(cfg, c, g, y1);
    assert Lookup(s.db, y2) == Expect(cfg, c, g, y2);
    if OldItem(c, g, y1) && OldItem(c, g, y2) {
      OldItemIsLive(cfg, s, c, y1);
      OldItemIsLive(cfg, s, c, y2);
    }
    if y1.StaleKey? {
      StaleIsRecent(cfg, s, c, y1);
    }
  }
}
