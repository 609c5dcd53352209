/** Rolling back the only block of a pruned chain: what of the pruned blocks stays behind. */
module OnlyBlock {
  import opened Common
  import opened SparseTree
  import opened AdapterSpec
  import opened ChainView
  import opened Reading
  import opened Growth

  /** No block of the chain wrote a non-provable key. */
  ghost predicate NoNpWrites(cfg: Config, c: Chain) {
    forall k, i: nat :: !WritesNp(cfg, c, k, i)
  }

  /**
   * The block after chain c takes everything with it although c is pruned: c wrote no non-provable
   * key, and left no tree at all or, for a block that does not change the tree, an empty one.
   */
  ghost predicate Traceless(cfg: Config, c: Chain, blk: Blk) {
    && NoNpWrites(cfg, c)
    && if TouchesTree(cfg, blk) then LastTree(c).version == 0 else LastTree(c).vals == map[]
  }

  /** The chain c + [e], of which only e is not pruned. */
  ghost predicate OnlyLast(cfg: Config, c: Chain, e: Entry) {
    ChainOk(cfg, c + [e]) && c != []
  }

  lemma {:induction false} Prefix(cfg: Config, c: Chain, e: Entry)
    requires OnlyLast(cfg, c, e)
    ensures ChainOk(cfg, c) && TreeAt(c + [e], |c|) == LastTree(c) && TreeAt(c + [e], |c| + 1) == e.tree
    ensures e.tree.version == LastTree(c).version + (if TouchesTree(cfg, e.blk) then 1 else 0)
    ensures !TouchesTree(cfg, e.blk) ==> e.tree == LastTree(c)
    ensures TreeOk(LastTree(c)) && TreeOk(e.tree) && Follows(LastTree(c), e.tree)
    ensures e.blk.updates.Keys !! e.blk.deletes && e.blk.deletes <= LastTree(c).vals.Keys
  {
    forall i | 1 <= i <= |c|
      ensures EntryOk(cfg, c, i)
    {
      assert EntryOk(cfg, c + [e], i);
    }
    assert EntryOk(cfg, c + [e], |c| + 1);
    BlockVersion(cfg, c + [e], |c| + 1);
    TreesOk(cfg, c + [e], |c|);
    TreesOk(cfg, c + [e], |c| + 1);
  }

  /** What is kept is in the tree before the block or in its own. */
  lemma {:induction false} KeptIs(c: Chain, e: Entry, x: Item, w: nat)
    ensures Kept(c + [e], |c| + 1, x, w) <==> HasItem(LastTree(c), x, w) || HasItem(e.tree, x, w)
  {
    var c' := c + [e];
    assert TreeAt(c', |c|) == LastTree(c) && TreeAt(c', |c| + 1) == e.tree;
    if Kept(c', |c| + 1, x, w) {
      var i :| OldestTree(|c| + 1) <= i <= |c'| && HasItem(TreeAt(c', i), x, w);
      assert i == |c| || i == |c| + 1;
    }
    if HasItem(LastTree(c), x, w) {
      assert HasItem(TreeAt(c', |c|), x, w);
    }
    if HasItem(e.tree, x, w) {
      assert HasItem(TreeAt(c', |c| + 1), x, w);
    }
  }

  /** Whether a key goes with the block that follows chain c. */
  predicate Dies(cfg: Config, c: Chain, e: Entry, y: DbKey) {
    DiesWithLast(cfg, NodeOf(c + [e], |c| + 1), |c| + 1, y)
  }

  // ---------- a traceless block takes everything with it ----------

  lemma {:induction false} TreeItemGoes(cfg: Config, c: Chain, e: Entry, x: Item, w: nat)
    requires OnlyLast(cfg, c, e) && Traceless(cfg, c, e.blk)
    requires HasItem(LastTree(c), x, w) || HasItem(e.tree, x, w)
    ensures w == e.tree.version
    ensures x.LeafItem? ==> TouchesTree(cfg, e.blk) && !HasItem(LastTree(c), x, w)
  {
    Prefix(cfg, c, e);
    if !TouchesTree(cfg, e.blk) {
      TreeNodes(cfg, c, |c|);
      assert x == ROOT;
    }
  }

  lemma {:induction false} LeafGoes(cfg: Config, c: Chain, e: Entry, k: Key, w: nat)
    requires OnlyLast(cfg, c, e) && Traceless(cfg, c, e.blk)
    ensures ExpectLeaf(c + [e], |c| + 1, k, w).Some? ==> Dies(cfg, c, e, LeafKey(k, w))
  {
    var c', n := c + [e], |c|;
    if ExpectLeaf(c', n + 1, k, w).Some? {
      KeptIs(c, e, LeafItem(k), w);
      TreeItemGoes(cfg, c, e, LeafItem(k), w);
      Prefix(cfg, c, e);
      KeptLeaf(cfg, c', n + 1, k, w);
      var i := Writer(c', w, n + 1);
      if i <= n {
        VersionsGrow(cfg, c', i, n);
      }
    }
  }

  lemma {:induction false} StaleIsOwn(c: Chain, e: Entry, since: nat, x: Item, w: nat)
    requires StaleSince(c + [e], |c| + 1, since, x, w)
    ensures since == e.tree.version
  {
  }

  lemma {:induction false} KeyGoes(cfg: Config, c: Chain, e: Entry, y: DbKey)
    requires OnlyLast(cfg, c, e) && Traceless(cfg, c, e.blk)
    ensures Expect(cfg, c + [e], |c| + 1, y).Some? ==> Dies(cfg, c, e, y)
  {
    var c', n := c + [e], |c|;
    if Expect(cfg, c', n + 1, y).Some? {
      match y
      case BlockKey(i) =>
      case LeafKey(k, w) => LeafGoes(cfg, c, e, k, w);
      case InternalKey(w, p) =>
        KeptIs(c, e, NodeItem(p), w);
        TreeItemGoes(cfg, c, e, NodeItem(p), w);
      case StaleKey(since, target) =>
        StaleIsOwn(c, e, since, KeyItem(target).value.0, KeyItem(target).value.1);
      case NpKey(k, i) =>
        UpdatesExtend(c, e, k, i);
        assert !WritesNp(cfg, c, k, i);
      case NpStaleKey(since, target) =>
    }
  }

  // ---------- any other block leaves something behind ----------

  /** The last of the first n blocks that wrote a key. */
  lemma {:induction false} LastWrite(cfg: Config, c: Chain, k: Key, i: nat, n: nat) returns (j: nat)
    requires WritesNp(cfg, c, k, i) && i <= n <= |c|
    ensures WritesNp(cfg, c, k, j) && i <= j <= n && NoWriteBetween(c, k, j, n + 1)
    decreases n
  {
    if Updates(c, k, n) {
      j := n;
    } else {
      j := LastWrite(cfg, c, k, i, n - 1);
    }
  }

  lemma {:induction false} LeafStays(cfg: Config, c: Chain, e: Entry, k: Key)
    requires OnlyLast(cfg, c, e) && k in LastTree(c).vals && k !in e.blk.updates
    ensures LeafItem(k) in LastTree(c).items
    ensures var w := LastTree(c).items[LeafItem(k)];
      && k !in cfg.nonProvable && !Dies(cfg, c, e, LeafKey(k, w))
      && ExpectLeaf(c + [e], |c| + 1, k, w).Some?
  {
    Prefix(cfg, c, e);
    var w := LastTree(c).items[LeafItem(k)];
    KeptIs(c, e, LeafItem(k), w);
    KeptLeaf(cfg, c + [e], |c| + 1, k, w);
  }

  lemma {:induction false} SomethingStays(cfg: Config, c: Chain, e: Entry) returns (y: DbKey)
    requires OnlyLast(cfg, c, e) && !Traceless(cfg, c, e.blk)
    ensures Expect(cfg, c + [e], |c| + 1, y).Some? && !Dies(cfg, c, e, y)
    ensures match y
      case NpKey(_, i) => i <= |c|
      case InternalKey(_, _) => TouchesTree(cfg, e.blk) && LastTree(c).version > 0
      case LeafKey(_, _) => !TouchesTree(cfg, e.blk)
      case _ => false
  {
    var n := |c|;
    Prefix(cfg, c, e);
    if k, i: nat :| WritesNp(cfg, c, k, i) {
      var j := LastWrite(cfg, c, k, i, n);
      y := NpKey(k, j);
      forall m: nat
        ensures Updates(c + [e], k, m) <==> Updates(c, k, m) || (m == n + 1 && k in e.blk.updates)
      {
        UpdatesExtend(c, e, k, m);
      }
    } else if TouchesTree(cfg, e.blk) {
      y := InternalKey(LastTree(c).version, []);
      KeptIs(c, e, ROOT, LastTree(c).version);
    } else {
      var k :| k in LastTree(c).vals;
      KeptIs(c, e, LeafItem(k), LastTree(c).items[LeafItem(k)]);
      KeptLeaf(cfg, c + [e], n + 1, k, LastTree(c).items[LeafItem(k)]);
      LeafStays(cfg, c, e, k);
      y := LeafKey(k, LastTree(c).items[LeafItem(k)]);
    }
  }

  // ---------- rolling it back ----------

  lemma {:induction false} BackAt(cfg: Config, s: Ledger, c: Chain, e: Entry, y: DbKey)
    requires Inv(cfg, s, c + [e])
    ensures DeleteLast(cfg, s).Ok?
    ensures Lookup(DeleteLast(cfg, s).value.db, y)
         == if Dies(cfg, c, e, y) then None else Expect(cfg, c + [e], s.genesis, y)
  {
    var n := |c| + 1;
    assert Lookup(s.db, BlockKey(n)) == Expect(cfg, c + [e], s.genesis, BlockKey(n));
    assert Lookup(s.db, y) == Expect(cfg, c + [e], s.genesis, y);
  }

  /** The database is empty after the rollback exactly when the block was traceless. */
  lemma {:induction false} OnlyBlockExact(cfg: Config, s: Ledger, c: Chain, e: Entry)
    requires Inv(cfg, s, c + [e]) && s.genesis == |c| + 1 && c != []
    ensures var r := DeleteLast(cfg, s);
      && r.Ok? && r.value == s.(db := r.value.db, genesis := 0, last := 0)
      && (Holds(cfg, r.value.db, [], 0) <==> Traceless(cfg, c, e.blk))
  {
    BackAt(cfg, s, c, e, BlockKey(0));
    var db' := DeleteLast(cfg, s).value.db;
    if Traceless(cfg, c, e.blk) {
      forall y
        ensures Lookup(db', y) == Expect(cfg, [], 0, y)
      {
        BackAt(cfg, s, c, e, y);
        KeyGoes(cfg, c, e, y);
        NothingExpected(cfg, y);
      }
    } else {
      var y := SomethingStays(cfg, c, e);
      BackAt(cfg, s, c, e, y);
      NothingExpected(cfg, y);
    }
  }

  lemma {:induction false} NothingExpected(cfg: Config, y: DbKey)
    ensures Expect(cfg, [], 0, y) == None
  {
    if y.LeafKey? {
      assert !Kept([], 0, LeafItem(y.key), y.version);
    }
  }

  /** The failing case: a leaf of a pruned block is still there when the adapter says it has no blocks. */
  lemma {:induction false} LeafOutlivesChain(cfg: Config, s: Ledger, c: Chain, e: Entry, k: Key)
    requires Inv(cfg, s, c + [e]) && s.genesis == |c| + 1 && c != []
    requires k in LastTree(c).vals && k !in e.blk.updates
    ensures var back := DeleteLast(cfg, s);
      && back.Ok? && back.value.genesis == back.value.last == 0
      && LeafItem(k) in LastTree(c).items && LeafKey(k, LastTree(c).items[LeafItem(k)]) in back.value.db
  {
    LeafStays(cfg, c, e, k);
    BackAt(cfg, s, c, e, LeafKey(k, LastTree(c).items[LeafItem(k)]));
  }

  lemma {:induction false} StrayLeaf(cfg: Config, s: Ledger, c: Chain, e: Entry, k: Key)
    requires Inv(cfg, s, c + [e]) && s.genesis == |c| + 1 && c != []
    requires k in LastTree(c).vals && k !in e.blk.updates && HasItem(LastTree(c), LeafItem(k), 1)
    ensures DeleteLast(cfg, s).Ok? && k !in cfg.nonProvable
    ensures var leaf := LeafAt(DeleteLast(cfg, s).value.db, k, 1);
      leaf.Some? && (leaf.value.deletedIn.Some? ==> leaf.value.deletedIn.value > 1)
  {
    var n := |c|;
    Prefix(cfg, c, e);
    LeafStays(cfg, c, e, k);
    BackAt(cfg, s, c, e, LeafKey(k, 1));
    LiveNotStamped(cfg, c, k, 1, n, n);
    DeleterExtend(c, e, k, 1, n);
    DeleterBound(c, k, 1, n);
  }

  /** A block that writes only l, as the first block of an empty chain. */
  function FirstBlock(cfg: Config, l: Key, value: Value): Chain {
    Extend(cfg, [], Blk(map[l := value], {}))
  }

  /** After the next block the value of the pruned block is read back as if the new chain had written it. */
  lemma {:induction false} StrayValueRead(
    cfg: Config, s: Ledger, c: Chain, e: Entry, k: Key, l: Key, value: Value)
    requires Inv(cfg, s, c + [e]) && s.genesis == |c| + 1 && c != []
    requires k in LastTree(c).vals && k !in e.blk.updates && HasItem(LastTree(c), LeafItem(k), 1)
    requires l != k && l !in cfg.nonProvable
    ensures var back := DeleteLast(cfg, s);
      && back.Ok?
      && var r := AddBlock(cfg, back.value, map[l := value], {});
      && r.Ok? && r.value.genesis == r.value.last == 1
      && GetValue(cfg, r.value.db, k, 1).Ok?
      && ReadHistory(FirstBlock(cfg, l, value), k, 1) == Err(NotFound)
  {
    hide Expect, Holds, ChainOk;
    StrayLeaf(cfg, s, c, e, k);
    OnlyBlockExact(cfg, s, c, e);
    ReadAfterFirst(cfg, DeleteLast(cfg, s).value, k, l, value);
  }

  lemma {:induction false} ReadAfterFirst(cfg: Config, back: Ledger, k: Key, l: Key, value: Value)
    requires back.genesis == back.last == 0 && l != k && l !in cfg.nonProvable && k !in cfg.nonProvable
    requires var leaf := LeafAt(back.db, k, 1);
      leaf.Some? && (leaf.value.deletedIn.Some? ==> leaf.value.deletedIn.value > 1)
    ensures var r := AddBlock(cfg, back, map[l := value], {});
      && r.Ok? && r.value.genesis == r.value.last == 1
      && GetValue(cfg, r.value.db, k, 1) == Ok((LeafAt(back.db, k, 1).value.value, LeafAt(back.db, k, 1).value.addedIn))
      && ReadHistory(FirstBlock(cfg, l, value), k, 1) == Err(NotFound)
  {
    hide LeafAtMost, BlockAtMost, WriteKeys, Below, Update, Writes, AddBlock;
    var plan := FirstPlan(cfg, back, l, value);
    AddedAt(cfg, back, map[l := value], {}, plan, BlockKey(1));
    AddedAt(cfg, back, map[l := value], {}, plan, LeafKey(k, 1));
    AddedLedger(cfg, back, map[l := value], {});
    var db' := AddBlock(cfg, back, map[l := value], {}).value.db;
    assert NodeAt(db', 1).Some? && BlockAtMost(db', 1) == Some(1);
    assert LeafAt(db', k, 1) == LeafAt(back.db, k, 1) && LeafAtMost(db', k, 1) == Some(1);
  }

  lemma {:induction false} AddedLedger(cfg: Config, s: Ledger, updates: map<Key, Value>, deletes: set<Key>)
    requires AddBlock(cfg, s, updates, deletes).Ok?
    ensures AddBlock(cfg, s, updates, deletes).value.last == s.last + 1
    ensures AddBlock(cfg, s, updates, deletes).value.genesis == GenesisAfterAdd(s.genesis)
  {
  }

  lemma {:induction false} FirstPlan(cfg: Config, back: Ledger, l: Key, value: Value) returns (plan: Plan)
    requires back.last == 0 && l !in cfg.nonProvable
    ensures MakePlan(cfg, back, map[l := value], {}) == Ok(plan)
    ensures plan.id == 1 && plan.newTree.version == 1 && plan.deleted == {}
    ensures forall k :: LeafItem(k) in plan.newTree.items ==> k == l
  {
    hide Update;
    var updates: map<Key, Value> := map[l := value];
    ProvableEmpty(cfg, updates);
    assert l in updates;
    plan := MakePlan(cfg, back, updates, {}).value;
    assert plan.deleted == {} && plan.newTree == Update(cfg.hashPath, EMPTY_TREE, updates - cfg.nonProvable, {});
    assert l in Touched(EMPTY_TREE, updates - cfg.nonProvable, {});
    UpdateFollows(cfg.hashPath, EMPTY_TREE, updates - cfg.nonProvable, {});
  }
}
