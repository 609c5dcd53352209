/** Adding a block to a database that represents a chain gives one that represents the longer chain. */
module Growth {
  import opened Common
  import opened SparseTree
  import opened AdapterSpec
  import opened ChainView
  import opened Reading

  /** The genesis id after a block is added. */
  function GenesisAfterAdd(g: nat): nat {
    if g == 0 then INITIAL_GENESIS_BLOCK_ID else g
  }

  // ---------- the longer chain agrees with the shorter one ----------

  lemma {:induction false} WriterExtend(c: Chain, e: Entry, w: nat, n: nat)
    requires n <= |c|
    ensures Writer(c + [e], w, n) == Writer(c, w, n)
  {
    if n > 0 {
      assert TreeAt(c + [e], n - 1) == TreeAt(c, n - 1);
      WriterExtend(c, e, w, n - 1);
    }
  }

  lemma {:induction false} DeleterExtend(c: Chain, e: Entry, k: Key, w: nat, n: nat)
    requires n <= |c|
    ensures Deleter(c + [e], k, w, n) == Deleter(c, k, w, n)
  {
    if n > 0 {
      assert TreeAt(c + [e], n - 1) == TreeAt(c, n - 1);
      DeleterExtend(c, e, k, w, n - 1);
    }
  }

  /** A version the first n trees have not reached was not deleted by them. */
  lemma {:induction false} DeleterUnreached(cfg: Config, c: Chain, k: Key, w: nat, n: nat)
    requires ChainOk(cfg, c) && n <= |c| && TreeAt(c, n).version < w
    ensures Deleter(c, k, w, n) == None
  {
    if n > 0 {
      VersionsGrow(cfg, c, n - 1, n);
      TreesOk(cfg, c, n - 1);
      DeleterUnreached(cfg, c, k, w, n - 1);
    }
  }

  lemma {:induction false} KeptExtend(c: Chain, e: Entry, g: nat, x: Item, w: nat)
    requires OldestTree(g) <= |c|
    ensures OldestTree(GenesisAfterAdd(g)) == OldestTree(g)
    ensures Kept(c + [e], GenesisAfterAdd(g), x, w) <==> Kept(c, g, x, w) || HasItem(e.tree, x, w)
  {
    var c' := c + [e];
    if Kept(c, g, x, w) {
      var i :| OldestTree(g) <= i <= |c| && HasItem(TreeAt(c, i), x, w);
      assert HasItem(TreeAt(c', i), x, w);
    }
    if HasItem(e.tree, x, w) {
      assert HasItem(TreeAt(c', |c| + 1), x, w);
    }
    if Kept(c', g, x, w) {
      var i :| OldestTree(g) <= i <= |c'| && HasItem(TreeAt(c', i), x, w);
      assert i <= |c| ==> HasItem(TreeAt(c, i), x, w);
    }
  }

  lemma {:induction false} StaleExtend(c: Chain, e: Entry, g: nat, since: nat, x: Item, w: nat)
    requires g <= |c| + 1
    ensures StaleSince(c + [e], g, since, x, w) <==>
      StaleSince(c, g, since, x, w) || (e.tree.version == since && LeftIn(c + [e], |c| + 1, x, w))
  {
    var c' := c + [e];
    if StaleSince(c, g, since, x, w) {
      var j :| 1 <= j <= |c| && g <= j && TreeAt(c, j).version == since && LeftIn(c, j, x, w);
      assert TreeAt(c', j).version == since && LeftIn(c', j, x, w);
    }
    if e.tree.version == since && LeftIn(c', |c| + 1, x, w) {
      assert TreeAt(c', |c| + 1).version == since;
    }
    if StaleSince(c', g, since, x, w) {
      var j :| 1 <= j <= |c'| && g <= j && TreeAt(c', j).version == since && LeftIn(c', j, x, w);
      assert j <= |c| ==> TreeAt(c, j).version == since && LeftIn(c, j, x, w);
    }
  }

  lemma {:induction false} UpdatesExtend(c: Chain, e: Entry, k: Key, i: nat)
    ensures Updates(c + [e], k, i) <==> Updates(c, k, i) || (i == |c| + 1 && k in e.blk.updates)
  {
  }

  lemma {:induction false} ChainOkExtend(cfg: Config, c: Chain, blk: Blk)
    requires ChainOk(cfg, c)
    requires blk.updates.Keys !! blk.deletes && blk.deletes !! cfg.nonProvable
    requires blk.deletes <= LastTree(c).vals.Keys
    ensures ChainOk(cfg, Extend(cfg, c, blk))
  {
    var c' := Extend(cfg, c, blk);
    forall i | 1 <= i <= |c'|
      ensures EntryOk(cfg, c', i)
    {
      assert i <= |c| ==> EntryOk(cfg, c, i);
    }
  }

  // ---------- the plan of a block ----------

  /** Every deleted-only key whose leaf is found is still live: its newest leaf carries no stamp. */
  predicate DeletesLive(s: Ledger, updates: map<Key, Value>, deletes: set<Key>) {
    forall k :: k in deletes && k !in updates ==>
      match LeafAtMost(s.db, k, s.tree.version)
      case None => true
      case Some(w) => LeafAt(s.db, k, w).value.deletedIn.None?
  }

  /** The guard of the branch of addBlock that reads the tree root from the database. */
  predicate ReadsRoot(cfg: Config, s: Ledger, updates: map<Key, Value>, deletes: set<Key>) {
    || !(updates.Keys <= cfg.nonProvable)
    || ActuallyDeleted(s.db, s.tree.version, deletes - updates.Keys) != {}
  }

  /** The block that is really added: deletes of keys that do not exist are dropped. */
  function EffectiveBlk(c: Chain, updates: map<Key, Value>, deletes: set<Key>): Blk {
    Blk(updates, (deletes - updates.Keys) * LastTree(c).vals.Keys)
  }

  /** Looking for a leaf with a cached version beyond the chain finds what the chain's version finds. */
  lemma {:induction false} CachedVersionHarmless(cfg: Config, s: Ledger, c: Chain, k: Key)
    requires Inv(cfg, s, c)
    ensures LeafAtMost(s.db, k, s.tree.version) == LeafAtMost(s.db, k, LastTree(c).version)
  {
    hide ExpectInternal, NodeOf, ChainOk;
    var top := LastTree(c).version;
    forall w | LeafAt(s.db, k, w).Some?
      ensures w <= top
    {
      assert Lookup(s.db, LeafKey(k, w)) == Expect(cfg, c, s.genesis, LeafKey(k, w));
      KeptLeaf(cfg, c, s.genesis, k, w);
      VersionsGrow(cfg, c, Writer(c, w, |c|), |c|);
    }
    var a, b := LeafAtMost(s.db, k, s.tree.version), LeafAtMost(s.db, k, top);
    assert a.Some? ==> LeafAt(s.db, k, a.value).Some?;
    assert b.Some? ==> LeafAt(s.db, k, b.value).Some?;
  }

  /** A live key is found at its live version, unstamped; a dead one is not found or is stamped. */
  lemma {:induction false} LiveFound(cfg: Config, s: Ledger, c: Chain, k: Key)
    requires Inv(cfg, s, c)
    ensures var r := LeafAtMost(s.db, k, s.tree.version);
      if k in LastTree(c).vals then
        && r.Some? && HasItem(LastTree(c), LeafItem(k), r.value)
        && LeafAt(s.db, k, r.value).value.deletedIn.None?
      else
        r.Some? ==> LeafAt(s.db, k, r.value).value.deletedIn.Some?
  {
    CachedVersionHarmless(cfg, s, c, k);
    TreesOk(cfg, c, |c|);
    LeafRead(cfg, s.db, c, s.genesis, k, |c|);
    var r := LeafAtMost(s.db, k, s.tree.version);
    if r.Some? {
      assert Lookup(s.db, LeafKey(k, r.value)) == Expect(cfg, c, s.genesis, LeafKey(k, r.value));
      if k in LastTree(c).vals {
        LiveNotStamped(cfg, c, k, r.value, |c|, |c|);
        DeleterBound(c, k, r.value, |c|);
      }
    }
  }

  lemma {:induction false} DeletedAreLive(cfg: Config, s: Ledger, c: Chain, updates: map<Key, Value>, deletes: set<Key>)
    requires Inv(cfg, s, c) && DeletesLive(s, updates, deletes)
    ensures ActuallyDeleted(s.db, s.tree.version, deletes - updates.Keys) == EffectiveBlk(c, updates, deletes).deletes
  {
    forall k | k in deletes && k !in updates
      ensures LeafAtMost(s.db, k, s.tree.version).Some? <==> k in LastTree(c).vals
    {
      LiveFound(cfg, s, c, k);
    }
  }

  /** The leaf found for a key is the live one. */
  ghost predicate FoundLive(s: Ledger, c: Chain, cached: nat, k: Key) {
    var r := LeafAtMost(s.db, k, cached);
    r.Some? && HasItem(LastTree(c), LeafItem(k), r.value)
  }

  /** A plan that adds block blk to chain c. */
  ghost predicate Plans(cfg: Config, s: Ledger, c: Chain, blk: Blk, plan: Plan) {
    && plan.id == |c| + 1
    && plan.updates == blk.updates
    && plan.deleted == blk.deletes
    && plan.digest == DigestBefore(c, |c| + 1)
    && plan.oldTree == LastTree(c)
    && plan.newTree == LastTree(Extend(cfg, c, blk))
    && forall k :: k in blk.deletes ==> FoundLive(s, c, plan.cached, k)
  }

  /** The block can be added so that the tree in the new block node is the right one. */
  ghost predicate Addable(cfg: Config, s: Ledger, c: Chain, updates: map<Key, Value>, deletes: set<Key>) {
    && Inv(cfg, s, c)
    && deletes !! cfg.nonProvable
    && DeletesLive(s, updates, deletes)
    && (s.tree == LastTree(c) || TouchesTree(cfg, EffectiveBlk(c, updates, deletes)))
  }

  lemma {:induction false} PlanIs(cfg: Config, s: Ledger, c: Chain, updates: map<Key, Value>, deletes: set<Key>)
    requires Addable(cfg, s, c, updates, deletes)
    ensures var plan := MakePlan(cfg, s, updates, deletes);
      plan.Ok? && Plans(cfg, s, c, EffectiveBlk(c, updates, deletes), plan.value)
  {
    hide Writes, BlockKeyValue, Expect, Below;
    var blk := EffectiveBlk(c, updates, deletes);
    var provable := updates - cfg.nonProvable;
    ParentDigestIs(cfg, s, c);
    DeletedAreLive(cfg, s, c, updates, deletes);
    TreesOk(cfg, c, |c|);
    LatestRootIs(cfg, s.db, c, s.genesis);
    ProvableEmpty(cfg, updates);
    assert TouchesTree(cfg, blk) <==> provable != map[] || blk.deletes != {};
    forall k | k in blk.deletes
      ensures FoundLive(s, c, s.tree.version, k)
    {
      LiveFound(cfg, s, c, k);
    }
    if !TouchesTree(cfg, blk) {
      assert Touched(LastTree(c), provable, blk.deletes) == {};
    }
  }

  // ---------- the new database, key by key ----------

  /** What the database holds at a key after the writes of the plan. */
  ghost function After(cfg: Config, s: Ledger, c: Chain, plan: Plan, y: DbKey): Option<DbVal> {
    if WriteAt(cfg, s.db, plan, y).Some? then WriteAt(cfg, s.db, plan, y) else Expect(cfg, c, s.genesis, y)
  }

  /** A plan with the facts the case lemmas need. */
  ghost predicate Grows(cfg: Config, s: Ledger, c: Chain, blk: Blk, plan: Plan) {
    && Inv(cfg, s, c)
    && ChainOk(cfg, Extend(cfg, c, blk))
    && Plans(cfg, s, c, blk, plan)
  }

  lemma {:induction false} GrowInternal(cfg: Config, s: Ledger, c: Chain, blk: Blk, plan: Plan, w: nat, p: Path)
    requires Grows(cfg, s, c, blk, plan)
    ensures After(cfg, s, c, plan, InternalKey(w, p))
         == Expect(cfg, Extend(cfg, c, blk), GenesisAfterAdd(s.genesis), InternalKey(w, p))
  {
    var c', n, x := Extend(cfg, c, blk), |c|, NodeItem(p);
    TreesOk(cfg, c', n + 1);
    KeptExtend(c, c'[n], s.genesis, x, w);
    WriterExtend(c, c'[n], w, n);
    assert TreeAt(c', n) == LastTree(c) && TreeAt(c', n + 1) == c'[n].tree;
    if HasItem(c'[n].tree, x, w) && !Fresh(plan, x, w) {
      assert HasItem(TreeAt(c, n), x, w);
    }
    if Kept(c, s.genesis, x, w) {
      var i :| OldestTree(s.genesis) <= i <= n && HasItem(TreeAt(c, i), x, w);
      TreesOk(cfg, c, i);
      VersionsGrow(cfg, c, i, n);
    }
    if Kept(c, s.genesis, x, w) && !Fresh(plan, x, w) {
      var i := Writer(c, w, n);
      assert TreeAt(c', i) == TreeAt(c, i);
    }
  }

  /** A delete stamps the live leaf, and nothing else about it changes. */
  lemma {:induction false} StampedLeaf(cfg: Config, c: Chain, blk: Blk, g: nat, k: Key, w: nat)
    requires ChainOk(cfg, c) && OldestTree(g) <= |c|
    requires k in blk.deletes && HasItem(LastTree(c), LeafItem(k), w)
    ensures ExpectLeaf(c, g, k, w).Some?
    ensures ExpectLeaf(Extend(cfg, c, blk), GenesisAfterAdd(g), k, w)
         == Some(LeafVal(ExpectLeaf(c, g, k, w).value.leaf.(deletedIn := Some(|c| + 1))))
  {
    hide ChainOk, Update;
    var c', n := Extend(cfg, c, blk), |c|;
    assert TreeAt(c', n) == LastTree(c);
    KeptExtend(c, c'[n], g, LeafItem(k), w);
    WriterExtend(c, c'[n], w, n);
    TreesOk(cfg, c, n);
    assert HasItem(TreeAt(c, n), LeafItem(k), w);
    KeptLeaf(cfg, c, g, k, w);
    assert Deleter(c', k, w, n + 1) == Some(n + 1);
  }

  lemma {:induction false} GrowStampedLeaf(cfg: Config, s: Ledger, c: Chain, blk: Blk, plan: Plan, k: Key, w: nat)
    requires Grows(cfg, s, c, blk, plan)
    requires k in blk.deletes && LeafAtMost(s.db, k, plan.cached) == Some(w)
    ensures Some(LeafVal(LeafAt(s.db, k, w).value.(deletedIn := Some(plan.id))))
         == ExpectLeaf(Extend(cfg, c, blk), GenesisAfterAdd(s.genesis), k, w)
  {
    assert FoundLive(s, c, plan.cached, k);
    StampedLeaf(cfg, c, blk, s.genesis, k, w);
    assert Lookup(s.db, LeafKey(k, w)) == Expect(cfg, c, s.genesis, LeafKey(k, w));
  }

  lemma {:induction false} FreshIsUpdated(cfg: Config, s: Ledger, c: Chain, blk: Blk, plan: Plan, k: Key, w: nat)
    requires Grows(cfg, s, c, blk, plan)
    requires Fresh(plan, LeafItem(k), w)
    ensures k in blk.updates && k !in blk.deletes && plan.id == |c| + 1 && LastTree(c).version < w
    ensures k in plan.newTree.vals && plan.newTree.vals[k] == blk.updates[k]
    ensures Kept(Extend(cfg, c, blk), GenesisAfterAdd(s.genesis), LeafItem(k), w)
  {
    hide LeafAtMost, MakePlan, NodeFlags, Below;
    var c', n := Extend(cfg, c, blk), |c|;
    TreesOk(cfg, c, n);
    TreesOk(cfg, c', n + 1);
    assert TreeAt(c', n) == LastTree(c) && TreeAt(c', n + 1) == c'[n].tree;
    KeptExtend(c, c'[n], s.genesis, LeafItem(k), w);
    BlockLeaf(cfg, c', n + 1, k);
    assert EntryOk(cfg, c', n + 1);
  }

  /** A leaf newer than the chain is written by the next block, and nothing has deleted it. */
  lemma {:induction false} FreshUnstamped(cfg: Config, c: Chain, e: Entry, k: Key, w: nat)
    requires ChainOk(cfg, c) && LastTree(c).version < w && k !in e.blk.deletes
    ensures Writer(c + [e], w, |c| + 1) == |c| + 1
    ensures Deleter(c + [e], k, w, |c| + 1) == None
  {
    hide ChainOk;
    assert TreeAt(c + [e], |c|) == LastTree(c);
    DeleterExtend(c, e, k, w, |c|);
    DeleterUnreached(cfg, c, k, w, |c|);
  }

  lemma {:induction false} GrowFreshLeaf(cfg: Config, s: Ledger, c: Chain, blk: Blk, plan: Plan, k: Key, w: nat)
    requires Grows(cfg, s, c, blk, plan)
    requires Fresh(plan, LeafItem(k), w)
    ensures k !in blk.deletes && k in plan.newTree.vals
    ensures Some(LeafVal(Leaf(plan.id, plan.newTree.vals[k], None)))
         == ExpectLeaf(Extend(cfg, c, blk), GenesisAfterAdd(s.genesis), k, w)
  {
    hide ChainOk, Holds, Kept, Plans, Deleter, Writer;
    FreshIsUpdated(cfg, s, c, blk, plan, k, w);
    FreshUnstamped(cfg, c, Extend(cfg, c, blk)[|c|], k, w);
  }

  lemma {:induction false} GrowOldLeaf(cfg: Config, s: Ledger, c: Chain, blk: Blk, plan: Plan, k: Key, w: nat)
    requires Grows(cfg, s, c, blk, plan)
    requires !Fresh(plan, LeafItem(k), w)
    requires !(k in blk.deletes && LeafAtMost(s.db, k, plan.cached) == Some(w))
    ensures ExpectLeaf(c, s.genesis, k, w)
         == ExpectLeaf(Extend(cfg, c, blk), GenesisAfterAdd(s.genesis), k, w)
  {
    var c', n, x, g := Extend(cfg, c, blk), |c|, LeafItem(k), s.genesis;
    TreesOk(cfg, c', n + 1);
    assert TreeAt(c', n) == LastTree(c) && TreeAt(c', n + 1) == c'[n].tree;
    KeptExtend(c, c'[n], g, x, w);
    WriterExtend(c, c'[n], w, n);
    DeleterExtend(c, c'[n], k, w, n);
    assert k in blk.deletes ==> FoundLive(s, c, plan.cached, k);
    assert !(k in blk.deletes && HasItem(TreeAt(c', n), x, w));
    if HasItem(c'[n].tree, x, w) {
      assert HasItem(TreeAt(c, n), x, w);
    }
    if Kept(c, g, x, w) {
      KeptLeaf(cfg, c, g, k, w);
      VersionsGrow(cfg, c, Writer(c, w, n), n);
    }
  }

  lemma {:induction false} GrowLeaf(cfg: Config, s: Ledger, c: Chain, blk: Blk, plan: Plan, k: Key, w: nat)
    requires Grows(cfg, s, c, blk, plan)
    ensures After(cfg, s, c, plan, LeafKey(k, w))
         == Expect(cfg, Extend(cfg, c, blk), GenesisAfterAdd(s.genesis), LeafKey(k, w))
  {
    if k in blk.deletes && LeafAtMost(s.db, k, plan.cached) == Some(w) {
      GrowStampedLeaf(cfg, s, c, blk, plan, k, w);
    } else if Fresh(plan, LeafItem(k), w) {
      GrowFreshLeaf(cfg, s, c, blk, plan, k, w);
    } else {
      GrowOldLeaf(cfg, s, c, blk, plan, k, w);
    }
  }

  lemma {:induction false} GrowStale(cfg: Config, s: Ledger, c: Chain, blk: Blk, plan: Plan, since: nat, target: DbKey)
    requires Grows(cfg, s, c, blk, plan)
    ensures After(cfg, s, c, plan, StaleKey(since, target))
         == Expect(cfg, Extend(cfg, c, blk), GenesisAfterAdd(s.genesis), StaleKey(since, target))
  {
    var c', n := Extend(cfg, c, blk), |c|;
    if KeyItem(target).Some? {
      var x, w := KeyItem(target).value.0, KeyItem(target).value.1;
      TreesOk(cfg, c', n + 1);
      assert TreeAt(c', n) == LastTree(c) && TreeAt(c', n + 1) == c'[n].tree;
      StaleExtend(c, c'[n], s.genesis, since, x, w);
      assert StaleSince(c', s.genesis, since, x, w) <==> StaleSince(c', GenesisAfterAdd(s.genesis), since, x, w);
      assert Dropped(plan, target) <==> LeftIn(c', n + 1, x, w);
    }
  }

  lemma {:induction false} GrowNp(cfg: Config, s: Ledger, c: Chain, blk: Blk, plan: Plan, k: Key, i: nat)
    requires Grows(cfg, s, c, blk, plan)
    ensures After(cfg, s, c, plan, NpKey(k, i))
         == Expect(cfg, Extend(cfg, c, blk), GenesisAfterAdd(s.genesis), NpKey(k, i))
  {
    var c', n := Extend(cfg, c, blk), |c|;
    forall m: nat
      ensures Updates(c', k, m) <==> Updates(c, k, m) || (m == n + 1 && k in blk.updates)
    {
      UpdatesExtend(c, c'[n], k, m);
    }
    assert NoWriteBetween(c', k, i, GenesisAfterAdd(s.genesis)) <==> NoWriteBetween(c, k, i, s.genesis);
  }

  lemma {:induction false} GrowNpStale(
    cfg: Config, s: Ledger, c: Chain, blk: Blk, plan: Plan, since: nat, target: DbKey)
    requires Grows(cfg, s, c, blk, plan)
    ensures After(cfg, s, c, plan, NpStaleKey(since, target))
         == Expect(cfg, Extend(cfg, c, blk), GenesisAfterAdd(s.genesis), NpStaleKey(since, target))
  {
    var c', n := Extend(cfg, c, blk), |c|;
    if target.NpKey? && target.key in cfg.nonProvable {
      var k := target.key;
      forall m: nat
        ensures Updates(c', k, m) <==> Updates(c, k, m) || (m == n + 1 && k in blk.updates)
      {
        UpdatesExtend(c, c'[n], k, m);
      }
      assert since <= n + 1 ==> (NoWriteBetween(c', k, target.id, since) <==> NoWriteBetween(c, k, target.id, since));
      if n > 0 {
        NpRead(cfg, s.db, c, s.genesis, k, n);
        NpHistory(cfg, c, k, n);
      }
    }
  }

  lemma {:induction false} GrowKey(cfg: Config, s: Ledger, c: Chain, blk: Blk, plan: Plan, y: DbKey)
    requires Grows(cfg, s, c, blk, plan)
    ensures After(cfg, s, c, plan, y) == Expect(cfg, Extend(cfg, c, blk), GenesisAfterAdd(s.genesis), y)
  {
    match y
    case BlockKey(i) =>
    case InternalKey(w, p) => GrowInternal(cfg, s, c, blk, plan, w, p);
    case LeafKey(k, w) => GrowLeaf(cfg, s, c, blk, plan, k, w);
    case StaleKey(since, target) => GrowStale(cfg, s, c, blk, plan, since, target);
    case NpKey(k, i) => GrowNp(cfg, s, c, blk, plan, k, i);
    case NpStaleKey(since, target) => GrowNpStale(cfg, s, c, blk, plan, since, target);
  }

  /**
   * Adding a block: the operation succeeds, and the database it leaves is, key by key,
   * the one of the chain extended by the block. The cached tree is the tree of the chain.
   */
  lemma {:induction false} AddBlockExtends(
    cfg: Config, s: Ledger, c: Chain, updates: map<Key, Value>, deletes: set<Key>)
    requires Addable(cfg, s, c, updates, deletes)
    ensures var r := AddBlock(cfg, s, updates, deletes);
      var c' := Extend(cfg, c, EffectiveBlk(c, updates, deletes));
      && r.Ok? && Inv(cfg, r.value, c') && r.value.tree == LastTree(c')
      && r.value.genesis == GenesisAfterAdd(s.genesis)
  {
    var blk := EffectiveBlk(c, updates, deletes);
    PlanIs(cfg, s, c, updates, deletes);
    ChainOkExtend(cfg, c, blk);
    var plan := MakePlan(cfg, s, updates, deletes).value;
    forall y
      ensures Lookup(s.db + Writes(cfg, s.db, plan), y)
           == Expect(cfg, Extend(cfg, c, blk), GenesisAfterAdd(s.genesis), y)
    {
      WritesAt(cfg, s.db, plan, y);
      assert Lookup(s.db, y) == Expect(cfg, c, s.genesis, y);
      GrowKey(cfg, s, c, blk, plan, y);
    }
  }

  // ---------- deleting a key twice ----------

  /** Adding a block never fails on a represented chain, unless a non-provable key is deleted. */
  lemma {:induction false} AddSucceeds(cfg: Config, s: Ledger, c: Chain, updates: map<Key, Value>, deletes: set<Key>)
    requires Inv(cfg, s, c) && deletes !! cfg.nonProvable
    ensures var plan := MakePlan(cfg, s, updates, deletes);
      && plan.Ok?
      && plan.value.id == |c| + 1 && plan.value.cached == s.tree.version
      && plan.value.deleted == ActuallyDeleted(s.db, s.tree.version, deletes - updates.Keys)
      && (updates.Keys <= cfg.nonProvable && plan.value.deleted == {} ==>
           plan.value.oldTree == plan.value.newTree == s.tree)
      && (!(updates.Keys <= cfg.nonProvable && plan.value.deleted == {}) ==>
           && plan.value.oldTree == LastTree(c)
           && plan.value.newTree
              == Update(cfg.hashPath, LastTree(c), updates - cfg.nonProvable, plan.value.deleted))
  {
    ParentDigestIs(cfg, s, c);
    LatestRootIs(cfg, s.db, c, s.genesis);
    ProvableEmpty(cfg, updates);
  }

  lemma {:induction false} ProvableEmpty(cfg: Config, updates: map<Key, Value>)
    ensures updates - cfg.nonProvable == map[] <==> updates.Keys <= cfg.nonProvable
  {
    forall k | k in updates
      ensures k in updates - cfg.nonProvable <==> k !in cfg.nonProvable
    {
    }
    if updates.Keys <= cfg.nonProvable {
      assert (updates - cfg.nonProvable).Keys == {};
    }
  }

  /** A key of the database after a block is added. */
  lemma {:induction false} AddedAt(
    cfg: Config, s: Ledger, updates: map<Key, Value>, deletes: set<Key>, plan: Plan, y: DbKey)
    requires MakePlan(cfg, s, updates, deletes) == Ok(plan)
    ensures AddBlock(cfg, s, updates, deletes).Ok?
    ensures Lookup(AddBlock(cfg, s, updates, deletes).value.db, y)
         == if WriteAt(cfg, s.db, plan, y).Some? then WriteAt(cfg, s.db, plan, y) else Lookup(s.db, y)
  {
    WritesAt(cfg, s.db, plan, y);
  }

  /** The newest leaf of a key carries a delete stamp: the key is dead, and its leaf not pruned yet. */
  predicate DeadLeaf(s: Ledger, k: Key) {
    var r := LeafAtMost(s.db, k, s.tree.version);
    r.Some? && LeafAt(s.db, k, r.value).value.deletedIn.Some?
  }

  /** The case of a cached tree that is the chain's. */
  lemma {:induction false} SyncedReadsSurvive(
    cfg: Config, s: Ledger, c: Chain, updates: map<Key, Value>, deletes: set<Key>)
    requires Inv(cfg, s, c) && s.tree == LastTree(c) && deletes !! cfg.nonProvable
    ensures var r := AddBlock(cfg, s, updates, deletes);
      r.Ok? && (ReadsRefine(cfg, r.value, Extend(cfg, c, EffectiveBlk(c, updates, deletes)))
                <==> DeletesLive(s, updates, deletes))
  {
    hide Writes, WriteAt, Update, Expect;
    var c' := Extend(cfg, c, EffectiveBlk(c, updates, deletes));
    AddSucceeds(cfg, s, c, updates, deletes);
    var added := AddBlock(cfg, s, updates, deletes).value;
    if DeletesLive(s, updates, deletes) {
      AddBlockExtends(cfg, s, c, updates, deletes);
      ReadsRefineAll(cfg, added, c');
    } else {
      var k :| k in deletes && k !in updates && DeadLeaf(s, k);
      SyncedKeyRevived(cfg, s, c, updates, deletes, k);
      HistoryExtend(c, c'[|c|], k, |c|);
    }
  }

  /** Every read at a version of the chain returns what the history says. */
  ghost predicate ReadsRefine(cfg: Config, s: Ledger, c: Chain) {
    forall k, v: nat :: s.genesis <= v <= |c| ==> GetValue(cfg, s.db, k, v) == ReadHistory(c, k, v)
  }

  lemma {:induction false} ReadsRefineAll(cfg: Config, s: Ledger, c: Chain)
    requires Inv(cfg, s, c) && c != []
    ensures ReadsRefine(cfg, s, c)
  {
    forall k, v: nat | s.genesis <= v <= |c|
      ensures GetValue(cfg, s.db, k, v) == ReadHistory(c, k, v)
    {
      ReadsRefineHistory(cfg, s.db, c, s.genesis, k, v);
    }
  }

  lemma {:induction false} HistoryExtend(c: Chain, e: Entry, k: Key, v: nat)
    requires v <= |c|
    ensures ReadHistory(c + [e], k, v) == ReadHistory(c, k, v)
  {
    if v > 0 {
      HistoryExtend(c, e, k, v - 1);
    }
  }

  /** A dead key with a leaf belongs to a provable key of a nonempty chain that reads as absent. */
  lemma {:induction false} DeadLeafIsDead(cfg: Config, s: Ledger, c: Chain, k: Key)
    requires Inv(cfg, s, c) && s.tree == LastTree(c) && DeadLeaf(s, k)
    ensures c != [] && 1 <= s.genesis && k !in cfg.nonProvable
    ensures k !in LastTree(c).vals && ReadHistory(c, k, |c|) == Err(NotFound)
    ensures NodeAt(s.db, |c|).Some? && NodeAt(s.db, |c|).value.version == LastTree(c).version
  {
    var n, w := |c|, LeafAtMost(s.db, k, s.tree.version).value;
    assert Lookup(s.db, LeafKey(k, w)) == Expect(cfg, c, s.genesis, LeafKey(k, w));
    KeptLeaf(cfg, c, s.genesis, k, w);
    LiveFound(cfg, s, c, k);
    TreesOk(cfg, c, n);
    LiveIsHistory(cfg, c, k, n);
    HistoryErr(c, k, n);
    assert Lookup(s.db, BlockKey(n)) == Expect(cfg, c, s.genesis, BlockKey(n));
  }

  /** After the second delete the leaf is still the newest one, now stamped by the new block. */
  lemma {:induction false} Restamped(
    cfg: Config, s: Ledger, c: Chain, updates: map<Key, Value>, deletes: set<Key>, k: Key)
    requires Inv(cfg, s, c) && s.tree == LastTree(c) && deletes !! cfg.nonProvable
    requires k in deletes && k !in updates && DeadLeaf(s, k)
    ensures var r := AddBlock(cfg, s, updates, deletes);
      && r.Ok?
      && var w := LeafAtMost(r.value.db, k, LastTree(c).version);
      && w.Some? && LeafAt(r.value.db, k, w.value).value.deletedIn == Some(|c| + 1)
  {
    hide ParentDigest, Below, Expect, Update, Writes;
    var n, w := |c|, LeafAtMost(s.db, k, s.tree.version).value;
    AddSucceeds(cfg, s, c, updates, deletes);
    var plan := MakePlan(cfg, s, updates, deletes).value;
    assert k in plan.deleted;
    TreesOk(cfg, c, n);
    UpdateFollows(cfg.hashPath, LastTree(c), updates - cfg.nonProvable, plan.deleted);
    LeafAfterDelete(cfg, s, updates, deletes, plan, k, w);
    forall u: nat
      ensures LeafAt(s.db, k, u).Some? <==> LeafAt(AddBlock(cfg, s, updates, deletes).value.db, k, u).Some?
    {
      LeafAfterDelete(cfg, s, updates, deletes, plan, k, u);
    }
    LeafAtMostSame(s.db, AddBlock(cfg, s, updates, deletes).value.db, k, s.tree.version);
  }

  lemma {:induction false} LeafAfterDelete(
    cfg: Config, s: Ledger, updates: map<Key, Value>, deletes: set<Key>, plan: Plan, k: Key, u: nat)
    requires MakePlan(cfg, s, updates, deletes) == Ok(plan)
    requires k in plan.deleted && LeafItem(k) !in plan.newTree.items
    ensures AddBlock(cfg, s, updates, deletes).Ok?
    ensures LeafAt(AddBlock(cfg, s, updates, deletes).value.db, k, u)
         == if LeafAtMost(s.db, k, plan.cached) == Some(u)
            then Some(LeafAt(s.db, k, u).value.(deletedIn := Some(plan.id))) else LeafAt(s.db, k, u)
  {
    AddedAt(cfg, s, updates, deletes, plan, LeafKey(k, u));
    StampWrite(cfg, s.db, plan, k, u);
  }

  lemma {:induction false} LeafAtMostSame(db: Db, db': Db, k: Key, v: nat)
    requires forall u: nat :: LeafAt(db, k, u).Some? <==> LeafAt(db', k, u).Some?
    ensures LeafAtMost(db, k, v) == LeafAtMost(db', k, v)
  {
    if v > 0 {
      LeafAtMostSame(db, db', k, v - 1);
    }
  }

  /** For a key that a block only deletes, the only leaf written is the stamped one. */
  lemma {:induction false} StampWrite(cfg: Config, db: Db, plan: Plan, k: Key, u: nat)
    requires k in plan.deleted && LeafItem(k) !in plan.newTree.items
    ensures WriteAt(cfg, db, plan, LeafKey(k, u))
         == if LeafAtMost(db, k, plan.cached) == Some(u)
            then Some(LeafVal(LeafAt(db, k, u).value.(deletedIn := Some(plan.id)))) else None
  {
  }

  lemma {:induction false} SyncedKeyRevived(
    cfg: Config, s: Ledger, c: Chain, updates: map<Key, Value>, deletes: set<Key>, k: Key)
    requires Inv(cfg, s, c) && s.tree == LastTree(c) && deletes !! cfg.nonProvable
    requires k in deletes && k !in updates && DeadLeaf(s, k)
    ensures var r := AddBlock(cfg, s, updates, deletes);
      && r.Ok? && 1 <= s.genesis == r.value.genesis <= |c|
      && GetValue(cfg, r.value.db, k, |c|).Ok?
      && ReadHistory(c, k, |c|) == Err(NotFound)
  {
    hide Update, Writes, ParentDigest, Below;
    DeadLeafIsDead(cfg, s, c, k);
    Restamped(cfg, s, c, updates, deletes, k);
    AddSucceeds(cfg, s, c, updates, deletes);
    AddedAt(cfg, s, updates, deletes, MakePlan(cfg, s, updates, deletes).value, BlockKey(|c|));
    assert BlockAtMost(AddBlock(cfg, s, updates, deletes).value.db, |c|) == Some(|c|);
  }

  // ---------- a cached tree that is newer than the chain ----------

  /** The adapter with the chain's own tree cached. */
  ghost function InStep(s: Ledger, c: Chain): Ledger {
    s.(tree := LastTree(c))
  }

  lemma {:induction false} InStepFinds(cfg: Config, s: Ledger, c: Chain, updates: map<Key, Value>, deletes: set<Key>)
    requires Inv(cfg, s, c)
    ensures Inv(cfg, InStep(s, c), c)
    ensures DeletesLive(InStep(s, c), updates, deletes) <==> DeletesLive(s, updates, deletes)
    ensures forall k :: LeafAtMost(s.db, k, LastTree(c).version) == LeafAtMost(s.db, k, s.tree.version)
    ensures ActuallyDeleted(s.db, LastTree(c).version, deletes - updates.Keys)
         == ActuallyDeleted(s.db, s.tree.version, deletes - updates.Keys)
  {
    hide ChainOk, Holds, LeafAtMost;
    forall k
      ensures LeafAtMost(s.db, k, LastTree(c).version) == LeafAtMost(s.db, k, s.tree.version)
    {
      CachedVersionHarmless(cfg, s, c, k);
    }
  }

  /** A block that reads the root is written the same whatever tree was cached. */
  lemma {:induction false} CachedTreeIgnored(
    cfg: Config, s: Ledger, c: Chain, updates: map<Key, Value>, deletes: set<Key>)
    requires Inv(cfg, s, c) && deletes !! cfg.nonProvable && ReadsRoot(cfg, s, updates, deletes)
    ensures AddBlock(cfg, InStep(s, c), updates, deletes) == AddBlock(cfg, s, updates, deletes)
  {
    hide ChainOk, Holds, LeafAtMost, Writes, WriteAt, Update, ParentDigest, ActuallyDeleted;
    InStepFinds(cfg, s, c, updates, deletes);
    AddSucceeds(cfg, s, c, updates, deletes);
    AddSucceeds(cfg, InStep(s, c), c, updates, deletes);
    var plan, plan' := MakePlan(cfg, s, updates, deletes).value, MakePlan(cfg, InStep(s, c), updates, deletes).value;
    assert plan' == plan.(cached := LastTree(c).version);
    CachedWritesSame(cfg, s.db, plan, LastTree(c).version);
  }

  lemma {:induction false} CachedWritesSame(cfg: Config, db: Db, plan: Plan, cached: nat)
    requires forall k :: LeafAtMost(db, k, cached) == LeafAtMost(db, k, plan.cached)
    ensures Writes(cfg, db, plan.(cached := cached)) == Writes(cfg, db, plan)
  {
    hide LeafAtMost, Writes, NpAtMost;
    var plan' := plan.(cached := cached);
    forall y
      ensures Lookup(Writes(cfg, db, plan'), y) == Lookup(Writes(cfg, db, plan), y)
    {
      WritesAt(cfg, db, plan, y);
      WritesAt(cfg, db, plan', y);
      assert WriteAt(cfg, db, plan', y) == WriteAt(cfg, db, plan, y);
    }
    SameLookups(Writes(cfg, db, plan'), Writes(cfg, db, plan));
  }

  /** A block that does not read the root differs from the one the chain's tree gives only in its node. */
  lemma {:induction false} UnreadRootAt(
    cfg: Config, s: Ledger, c: Chain, updates: map<Key, Value>, deletes: set<Key>, y: DbKey)
    requires Inv(cfg, s, c) && deletes !! cfg.nonProvable && !ReadsRoot(cfg, s, updates, deletes)
    ensures AddBlock(cfg, s, updates, deletes).Ok? && AddBlock(cfg, InStep(s, c), updates, deletes).Ok?
    ensures var db := AddBlock(cfg, s, updates, deletes).value.db;
      var db' := AddBlock(cfg, InStep(s, c), updates, deletes).value.db;
      && (y != BlockKey(|c| + 1) ==> Lookup(db, y) == Lookup(db', y))
      && (y.LeafKey? ==> Lookup(db, y) == Lookup(s.db, y))
      && (y == BlockKey(|c| + 1) ==>
           && NodeAt(db, |c| + 1).Some? && NodeAt(db, |c| + 1).value.version == s.tree.version
           && NodeAt(db', |c| + 1).Some? && NodeAt(db', |c| + 1).value.version == LastTree(c).version)
  {
    hide ChainOk, Holds, LeafAtMost, Writes, Update, ParentDigest, AddBlock, NpAtMost;
    InStepFinds(cfg, s, c, updates, deletes);
    AddSucceeds(cfg, s, c, updates, deletes);
    AddSucceeds(cfg, InStep(s, c), c, updates, deletes);
    var plan, plan' := MakePlan(cfg, s, updates, deletes).value, MakePlan(cfg, InStep(s, c), updates, deletes).value;
    AddedAt(cfg, s, updates, deletes, plan, y);
    AddedAt(cfg, InStep(s, c), updates, deletes, plan', y);
  }

  lemma {:induction false} NpAtMostSame(db: Db, db': Db, k: Key, v: nat)
    requires forall u: nat :: NpAt(db, k, u) == NpAt(db', k, u)
    ensures NpAtMost(db, k, v) == NpAtMost(db', k, v)
  {
    if v > 0 {
      NpAtMostSame(db, db', k, v - 1);
    }
  }

  lemma {:induction false} BlockAtMostSame(db: Db, db': Db, v: nat)
    requires forall u: nat :: NodeAt(db, u).Some? <==> NodeAt(db', u).Some?
    ensures BlockAtMost(db, v) == BlockAtMost(db', v)
  {
    if v > 0 {
      BlockAtMostSame(db, db', v - 1);
    }
  }

  lemma {:induction false} SameRead(cfg: Config, db: Db, db': Db, k: Key, v: nat)
    requires forall u: nat :: NpAt(db, k, u) == NpAt(db', k, u)
    requires forall u: nat :: NodeAt(db, u).Some? <==> NodeAt(db', u).Some?
    requires forall u: nat :: LeafAt(db, k, u) == LeafAt(db', k, u)
    requires forall u: nat :: NodeAt(db, u).Some? ==>
      LeafAtMost(db, k, NodeAt(db, u).value.version) == LeafAtMost(db', k, NodeAt(db', u).value.version)
    ensures GetValue(cfg, db, k, v) == GetValue(cfg, db', k, v)
  {
    hide LeafAtMost, BlockAtMost, NpAtMost, NodeAt, LeafAt, NpAt;
    NpAtMostSame(db, db', k, v);
    BlockAtMostSame(db, db', v);
  }

  /** Reads do not notice that such a block is recorded with the version of a newer tree. */
  lemma {:induction false} UnreadRootReads(
    cfg: Config, s: Ledger, c: Chain, updates: map<Key, Value>, deletes: set<Key>, k: Key, v: nat)
    requires Inv(cfg, s, c) && deletes !! cfg.nonProvable && !ReadsRoot(cfg, s, updates, deletes)
    ensures AddBlock(cfg, s, updates, deletes).Ok? && AddBlock(cfg, InStep(s, c), updates, deletes).Ok?
    ensures GetValue(cfg, AddBlock(cfg, s, updates, deletes).value.db, k, v)
         == GetValue(cfg, AddBlock(cfg, InStep(s, c), updates, deletes).value.db, k, v)
  {
    hide ChainOk, Holds, LeafAtMost, GetValue, AddBlock, BlockUpdates, ReadsRoot;
    UnreadRootAt(cfg, s, c, updates, deletes, BlockKey(|c| + 1));
    var db, db' := AddBlock(cfg, s, updates, deletes).value.db, AddBlock(cfg, InStep(s, c), updates, deletes).value.db;
    forall u: nat
      ensures NpAt(db, k, u) == NpAt(db', k, u)
      ensures NodeAt(db, u).Some? <==> NodeAt(db', u).Some?
      ensures u != |c| + 1 ==> NodeAt(db, u) == NodeAt(db', u)
      ensures LeafAt(db, k, u) == LeafAt(db', k, u) == LeafAt(s.db, k, u)
    {
      UnreadRootAt(cfg, s, c, updates, deletes, NpKey(k, u));
      UnreadRootAt(cfg, s, c, updates, deletes, BlockKey(u));
      UnreadRootAt(cfg, s, c, updates, deletes, LeafKey(k, u));
    }
    forall u: nat | NodeAt(db, u).Some?
      ensures LeafAtMost(db, k, NodeAt(db, u).value.version) == LeafAtMost(db', k, NodeAt(db', u).value.version)
    {
      CachedVersionHarmless(cfg, s, c, k);
      LeafAtMostSame(s.db, db, k, NodeAt(db, u).value.version);
      LeafAtMostSame(s.db, db', k, NodeAt(db', u).value.version);
    }
    SameRead(cfg, db, db', k, v);
  }

  /**
   * Reads after a block refine the history if and only if every delete in it hits a live
   * key or a key without a leaf: deleting a dead key stamps its leaf again, and the key
   * comes back to life for the versions before the new stamp.
   */
  lemma {:induction false} ReadsSurviveIffDeletesLive(
    cfg: Config, s: Ledger, c: Chain, updates: map<Key, Value>, deletes: set<Key>)
    requires Inv(cfg, s, c) && deletes !! cfg.nonProvable
    ensures var r := AddBlock(cfg, s, updates, deletes);
      r.Ok? && (ReadsRefine(cfg, r.value, Extend(cfg, c, EffectiveBlk(c, updates, deletes)))
                <==> DeletesLive(s, updates, deletes))
  {
    hide ChainOk, Holds, GetValue, ReadHistory, DeletesLive, Extend, AddBlock, ReadsRoot;
    InStepFinds(cfg, s, c, updates, deletes);
    SyncedReadsSurvive(cfg, InStep(s, c), c, updates, deletes);
    if ReadsRoot(cfg, s, updates, deletes) {
      CachedTreeIgnored(cfg, s, c, updates, deletes);
    } else {
      UnreadRootAt(cfg, s, c, updates, deletes, BlockKey(0));
      forall k, v: nat
        ensures GetValue(cfg, AddBlock(cfg, s, updates, deletes).value.db, k, v)
             == GetValue(cfg, AddBlock(cfg, InStep(s, c), updates, deletes).value.db, k, v)
      {
        UnreadRootReads(cfg, s, c, updates, deletes, k, v);
      }
      AddedGenesis(cfg, s, c, updates, deletes);
    }
  }

  lemma {:induction false} AddedGenesis(cfg: Config, s: Ledger, c: Chain, updates: map<Key, Value>, deletes: set<Key>)
    requires AddBlock(cfg, s, updates, deletes).Ok? && AddBlock(cfg, InStep(s, c), updates, deletes).Ok?
    ensures AddBlock(cfg, s, updates, deletes).value.genesis
         == AddBlock(cfg, InStep(s, c), updates, deletes).value.genesis
  {
    hide BlockUpdates;
  }

  /** Deleting a dead key whose leaf is still there makes its old value readable at the previous block. */
  lemma {:induction false} DeadKeyRevived(
    cfg: Config, s: Ledger, c: Chain, updates: map<Key, Value>, deletes: set<Key>, k: Key)
    requires Inv(cfg, s, c) && deletes !! cfg.nonProvable
    requires k in deletes && k !in updates && DeadLeaf(s, k)
    ensures var r := AddBlock(cfg, s, updates, deletes);
      && r.Ok? && 1 <= s.genesis == r.value.genesis <= |c|
      && GetValue(cfg, r.value.db, k, |c|).Ok?
      && ReadHistory(c, k, |c|) == Err(NotFound)
  {
    hide ChainOk, Holds, GetValue, ReadHistory, AddBlock, LeafAtMost;
    InStepFinds(cfg, s, c, updates, deletes);
    assert k in ActuallyDeleted(s.db, s.tree.version, deletes - updates.Keys);
    CachedTreeIgnored(cfg, s, c, updates, deletes);
    SyncedKeyRevived(cfg, InStep(s, c), c, updates, deletes, k);
  }
}
