/** Reading back: raw blocks, the tree root, and values at any version of the chain. */
module Reading {
  import opened Common
  import opened SparseTree
  import opened AdapterSpec
  import opened ChainView

  // ---------- raw blocks and the hash chain ----------

  lemma {:induction false} UpdatedKeyValue(cfg: Config, db: Db, c: Chain, g: nat, i: nat, k: Key)
    requires ChainOk(cfg, c) && Holds(cfg, db, c, g)
    requires 1 <= i <= |c| && g <= i && k in c[i - 1].blk.updates
    ensures BlockKeyValue(cfg, db, NodeOf(c, i), k) == Some(c[i - 1].blk.updates[k])
  {
    var w := TreeAt(c, i).version;
    assert Lookup(db, NpKey(k, i)) == Expect(cfg, c, g, NpKey(k, i));
    if k !in cfg.nonProvable {
      assert Lookup(db, LeafKey(k, w)) == Expect(cfg, c, g, LeafKey(k, w));
      BlockLeaf(cfg, c, i, k);
      BlockVersion(cfg, c, i);
      WriterIs(cfg, c, w, i, |c|);
    }
  }

  lemma {:induction false} DeletedKeyValue(cfg: Config, db: Db, c: Chain, g: nat, i: nat, k: Key)
    requires ChainOk(cfg, c)
    requires 1 <= i <= |c| && k in c[i - 1].blk.deletes
    ensures BlockKeyValue(cfg, db, NodeOf(c, i), k) == None
  {
    assert EntryOk(cfg, c, i);
  }

  /** getRawBlock rebuilds, for every block still in the chain, the raw block it was added as. */
  lemma {:induction false} RawBlockRebuilt(cfg: Config, db: Db, temps: map<nat, RawBlock>, c: Chain, g: nat, i: nat)
    requires ChainOk(cfg, c) && Holds(cfg, db, c, g)
    requires 1 <= i <= |c| && g <= i
    ensures GetRawBlock(cfg, db, temps, i) == Ok(c[i - 1].raw)
  {
    var node := NodeOf(c, i);
    assert Lookup(db, BlockKey(i)) == Expect(cfg, c, g, BlockKey(i));
    assert EntryOk(cfg, c, i);
    forall k | k in node.keys
      ensures BlockKeyValue(cfg, db, node, k)
           == if k in c[i - 1].blk.updates then Some(c[i - 1].blk.updates[k]) else None
    {
      if k in c[i - 1].blk.updates {
        UpdatedKeyValue(cfg, db, c, g, i, k);
      } else {
        DeletedKeyValue(cfg, db, c, g, i, k);
      }
    }
    var updates := map k | k in node.keys && BlockKeyValue(cfg, db, node, k).Some?
                     :: BlockKeyValue(cfg, db, node, k).value;
    assert updates == c[i - 1].blk.updates;
    assert node.keys.Keys - updates.Keys == c[i - 1].blk.deletes;
  }

  /**
   * The hash chain: every block above the genesis block stores the digest of the raw
   * block that getRawBlock rebuilds for its parent, in its node and in its raw block.
   */
  lemma {:induction false} HashChain(cfg: Config, s: Ledger, temps: map<nat, RawBlock>, c: Chain, i: nat)
    requires Inv(cfg, s, c) && s.genesis < i <= s.last
    ensures var parent := GetRawBlock(cfg, s.db, temps, i - 1);
      && parent.Ok?
      && NodeAt(s.db, i).Some? && NodeAt(s.db, i).value.parentDigest == DigestOf(i - 1, parent.value)
      && GetRawBlock(cfg, s.db, temps, i).Ok?
      && GetRawBlock(cfg, s.db, temps, i).value.parentDigest == DigestOf(i - 1, parent.value)
  {
    hide BlockKeyValue, LeafAtMost;
    RawBlockRebuilt(cfg, s.db, temps, c, s.genesis, i - 1);
    RawBlockRebuilt(cfg, s.db, temps, c, s.genesis, i);
    assert Lookup(s.db, BlockKey(i)) == Expect(cfg, c, s.genesis, BlockKey(i));
    assert EntryOk(cfg, c, i);
  }

  /** The digest a new block stores is that of the last block of the chain. */
  lemma {:induction false} ParentDigestIs(cfg: Config, s: Ledger, c: Chain)
    requires Inv(cfg, s, c)
    ensures ParentDigest(cfg, s.db, s.last + 1) == Ok(DigestBefore(c, |c| + 1))
  {
    if s.last > 0 {
      RawBlockRebuilt(cfg, s.db, map[], c, s.genesis, s.last);
    }
  }

  // ---------- the tree root ----------

  /** The latest root is readable and is the tree of the last block. */
  lemma {:induction false} LatestRootIs(cfg: Config, db: Db, c: Chain, g: nat)
    requires ChainOk(cfg, c) && Holds(cfg, db, c, g) && g <= |c|
    ensures LatestRoot(db, |c|) == Ok(LastTree(c))
  {
    var n := |c|;
    if n > 0 {
      assert Lookup(db, BlockKey(n)) == Expect(cfg, c, g, BlockKey(n));
      var w := LastTree(c).version;
      TreesOk(cfg, c, n);
      if w == 0 {
        assert LastTree(c).vals == map[];
      } else {
        assert Lookup(db, InternalKey(w, [])) == Expect(cfg, c, g, InternalKey(w, []));
        assert HasItem(TreeAt(c, n), ROOT, w);
        WriterExists(cfg, c, w, n);
        SameVersionSameTree(cfg, c, Writer(c, w, n), n);
      }
    }
  }

  /** Blocks that share a version share the tree. */
  lemma {:induction false} SameVersionSameTree(cfg: Config, c: Chain, i: nat, j: nat)
    requires ChainOk(cfg, c) && i <= j <= |c| && TreeAt(c, i).version == TreeAt(c, j).version
    ensures TreeAt(c, i) == TreeAt(c, j)
    decreases j
  {
    if i < j {
      VersionsGrow(cfg, c, i, j - 1);
      BlockVersion(cfg, c, j);
      SameVersionSameTree(cfg, c, i, j - 1);
    }
  }

  // ---------- values ----------

  /** The reference semantics of a read: the last write at or before v, unless a delete came after it. */
  function ReadHistory(c: Chain, k: Key, v: nat): Result<(Value, nat)>
    requires v <= |c|
  {
    if v == 0 then Err(NotFound)
    else if k in c[v - 1].blk.updates then Ok((c[v - 1].blk.updates[k], v))
    else if k in c[v - 1].blk.deletes then Err(NotFound)
    else ReadHistory(c, k, v - 1)
  }

  /** A provable key is live after block v exactly when the history has a value for it. */
  lemma {:induction false} LiveIsHistory(cfg: Config, c: Chain, k: Key, v: nat)
    requires ChainOk(cfg, c) && v <= |c| && k !in cfg.nonProvable
    ensures LeafItem(k) in TreeAt(c, v).items <==> ReadHistory(c, k, v).Ok?
    ensures LeafItem(k) in TreeAt(c, v).items ==>
      var i := Writer(c, TreeAt(c, v).items[LeafItem(k)], |c|);
      Updates(c, k, i) && i <= v && ReadHistory(c, k, v) == Ok((c[i - 1].blk.updates[k], i))
  {
    if v > 0 {
      BlockLeaf(cfg, c, v, k);
      assert EntryOk(cfg, c, v);
      if k in c[v - 1].blk.updates {
        BlockVersion(cfg, c, v);
        WriterIs(cfg, c, TreeAt(c, v).version, v, |c|);
      } else if k !in c[v - 1].blk.deletes {
        LiveIsHistory(cfg, c, k, v - 1);
        if LeafItem(k) in TreeAt(c, v).items {
          assert HasItem(TreeAt(c, v), LeafItem(k), TreeAt(c, v).items[LeafItem(k)]);
        }
        if LeafItem(k) in TreeAt(c, v - 1).items {
          assert HasItem(TreeAt(c, v - 1), LeafItem(k), TreeAt(c, v - 1).items[LeafItem(k)]);
        }
      }
    }
  }

  /** A version that left the tree through a delete carries the stamp of that block, and only then. */
  lemma {:induction false} DeleterIs(cfg: Config, c: Chain, k: Key, w: nat, j: nat, n: nat)
    requires ChainOk(cfg, c) && 1 <= j <= n <= |c|
    requires HasItem(TreeAt(c, j - 1), LeafItem(k), w) && k in c[j - 1].blk.deletes
    ensures Deleter(c, k, w, n) == Some(j)
    decreases n
  {
    if j < n {
      if HasItem(TreeAt(c, n - 1), LeafItem(k), w) {
        TreesOk(cfg, c, j - 1);
        VersionsGrow(cfg, c, j - 1, j);
        Persists(cfg, c, j, n - 1, LeafItem(k), w);
        BlockLeaf(cfg, c, j, k);
      }
      DeleterIs(cfg, c, k, w, j, n - 1);
    }
  }

  /** A key live at v is not stamped by a block at or before v. */
  lemma {:induction false} LiveNotStamped(cfg: Config, c: Chain, k: Key, w: nat, v: nat, n: nat)
    requires ChainOk(cfg, c) && v <= |c| && n <= |c| && HasItem(TreeAt(c, v), LeafItem(k), w)
    ensures Deleter(c, k, w, n).Some? ==> Deleter(c, k, w, n).value > v
    decreases n
  {
    if n > 0 {
      LiveNotStamped(cfg, c, k, w, v, n - 1);
      if n <= v && k in c[n - 1].blk.deletes && HasItem(TreeAt(c, n - 1), LeafItem(k), w) {
        TreesOk(cfg, c, n - 1);
        VersionsGrow(cfg, c, n - 1, n);
        Persists(cfg, c, n, v, LeafItem(k), w);
        BlockLeaf(cfg, c, n, k);
      }
    }
  }

  /** A leaf version reached by block v but not in its tree left through an update or a delete up to v. */
  lemma {:induction false} GoneBy(cfg: Config, c: Chain, k: Key, w: nat, i: nat, v: nat) returns (j: nat)
    requires ChainOk(cfg, c) && i <= v <= |c|
    requires HasItem(TreeAt(c, i), LeafItem(k), w) && !HasItem(TreeAt(c, v), LeafItem(k), w)
    ensures i < j <= v && HasItem(TreeAt(c, j - 1), LeafItem(k), w) && !HasItem(TreeAt(c, j), LeafItem(k), w)
    decreases v
  {
    if HasItem(TreeAt(c, v - 1), LeafItem(k), w) {
      j := v;
    } else {
      j := GoneBy(cfg, c, k, w, i, v - 1);
    }
  }

  /** A leaf version reached by block v that is present but not live at v, and newest, was deleted by v. */
  lemma {:induction false} NewestDead(cfg: Config, c: Chain, g: nat, k: Key, w: nat, v: nat)
    requires ChainOk(cfg, c) && OldestTree(g) <= v <= |c|
    requires Kept(c, g, LeafItem(k), w) && w <= TreeAt(c, v).version
    requires !HasItem(TreeAt(c, v), LeafItem(k), w)
    requires forall u :: w < u <= TreeAt(c, v).version ==> !Kept(c, g, LeafItem(k), u)
    ensures Deleter(c, k, w, |c|).Some? && Deleter(c, k, w, |c|).value <= v
  {
    var i :| OldestTree(g) <= i <= |c| && HasItem(TreeAt(c, i), LeafItem(k), w);
    if v < i {
      Persists(cfg, c, v, i, LeafItem(k), w);
    } else {
      var j := GoneBy(cfg, c, k, w, i, v);
      BlockLeaf(cfg, c, j, k);
      if k in c[j - 1].blk.deletes {
        DeleterIs(cfg, c, k, w, j, |c|);
      } else {
        assert HasItem(TreeAt(c, j), LeafItem(k), TreeAt(c, j).version);
        TreesOk(cfg, c, j - 1);
        BlockVersion(cfg, c, j);
        VersionsGrow(cfg, c, j, v);
        assert Kept(c, g, LeafItem(k), TreeAt(c, j).version);
      }
    }
  }

  /** The leaf of a provable key at version v of the chain, as getLeafKeyValAtMostVersion finds it. */
  lemma {:induction false} LeafRead(cfg: Config, db: Db, c: Chain, g: nat, k: Key, v: nat)
    requires ChainOk(cfg, c) && Holds(cfg, db, c, g) && OldestTree(g) <= v <= |c|
    ensures var r := LeafAtMost(db, k, TreeAt(c, v).version);
      if LeafItem(k) in TreeAt(c, v).items then
        && r == Some(TreeAt(c, v).items[LeafItem(k)])
        && LeafAt(db, k, r.value) == Some(ExpectLeaf(c, g, k, r.value).value.leaf)
      else r.Some? ==>
        Deleter(c, k, r.value, |c|).Some? && Deleter(c, k, r.value, |c|).value <= v
  {
    var top := TreeAt(c, v).version;
    var r := LeafAtMost(db, k, top);
    forall w
      ensures LeafAt(db, k, w).Some? <==> Kept(c, g, LeafItem(k), w)
    {
      assert Lookup(db, LeafKey(k, w)) == Expect(cfg, c, g, LeafKey(k, w));
      LeafIs(cfg, c, g, k, w);
    }
    if LeafItem(k) in TreeAt(c, v).items {
      var w := TreeAt(c, v).items[LeafItem(k)];
      assert HasItem(TreeAt(c, v), LeafItem(k), w);
      TreesOk(cfg, c, v);
      assert LeafAt(db, k, w).Some?;
      NewestLive(cfg, c, g, k, r.value, v);
      assert Lookup(db, LeafKey(k, w)) == Expect(cfg, c, g, LeafKey(k, w));
    } else if r.Some? {
      NewestDead(cfg, c, g, k, r.value, v);
    }
  }

  /** No kept version of a live key lies between the live one and the version of the tree. */
  lemma {:induction false} NewestLive(cfg: Config, c: Chain, g: nat, k: Key, w: nat, v: nat)
    requires ChainOk(cfg, c) && OldestTree(g) <= v <= |c|
    requires LeafItem(k) in TreeAt(c, v).items
    requires Kept(c, g, LeafItem(k), w) && TreeAt(c, v).items[LeafItem(k)] <= w <= TreeAt(c, v).version
    ensures w == TreeAt(c, v).items[LeafItem(k)]
  {
    var live := TreeAt(c, v).items[LeafItem(k)];
    if w != live {
      var i :| OldestTree(g) <= i <= |c| && HasItem(TreeAt(c, i), LeafItem(k), w);
      if v < i {
        Persists(cfg, c, v, i, LeafItem(k), w);
      } else {
        TreesOk(cfg, c, i);
        Persists(cfg, c, i, v, LeafItem(k), live);
      }
    }
  }

  /** A non-provable key reads as its last write, whatever is pruned before the version read. */
  lemma {:induction false} NpHistory(cfg: Config, c: Chain, k: Key, v: nat)
    requires ChainOk(cfg, c) && v <= |c| && k in cfg.nonProvable
    ensures ReadHistory(c, k, v).Ok? ==>
      var (value, i) := ReadHistory(c, k, v).value;
      Updates(c, k, i) && i <= v && value == c[i - 1].blk.updates[k] && NoWriteBetween(c, k, i, v + 1)
    ensures ReadHistory(c, k, v).Err? ==> ReadHistory(c, k, v) == Err(NotFound) && NoWriteBetween(c, k, 0, v + 1)
  {
    if v > 0 {
      assert EntryOk(cfg, c, v);
      NpHistory(cfg, c, k, v - 1);
    }
  }

  /** The newest non-provable entry at or below v is the last write up to min(v, last). */
  lemma {:induction false} NpRead(cfg: Config, db: Db, c: Chain, g: nat, k: Key, v: nat)
    requires ChainOk(cfg, c) && Holds(cfg, db, c, g) && k in cfg.nonProvable && g <= v
    ensures var h := ReadHistory(c, k, if v <= |c| then v else |c|);
      match NpAtMost(db, k, v)
      case None => h == Err(NotFound)
      case Some(i) => h.Ok? && h.value.1 == i && NpAt(db, k, i) == Some(h.value.0)
  {
    var n := if v <= |c| then v else |c|;
    var h := ReadHistory(c, k, n);
    NpHistory(cfg, c, k, n);
    forall i: nat
      ensures NpAt(db, k, i)
           == if Updates(c, k, i) && NoWriteBetween(c, k, i, g) then Some(c[i - 1].blk.updates[k]) else None
    {
      assert Lookup(db, NpKey(k, i)) == Expect(cfg, c, g, NpKey(k, i));
    }
    if h.Ok? {
      assert NpAt(db, k, h.value.1).Some?;
    }
  }

  /**
   * Versioned reads refine the plain history: for every key, provable or not, and every
   * version from the genesis block on, getValue returns the value and block of the last
   * write at or before that version, and NotFound if there is none or a delete followed.
   */
  lemma {:induction false} ReadsRefineHistory(cfg: Config, db: Db, c: Chain, g: nat, k: Key, v: nat)
    requires ChainOk(cfg, c) && Holds(cfg, db, c, g) && 1 <= g <= |c| && g <= v
    ensures GetValue(cfg, db, k, v) == ReadHistory(c, k, if v <= |c| then v else |c|)
  {
    var n := if v <= |c| then v else |c|;
    if k in cfg.nonProvable {
      NpRead(cfg, db, c, g, k, v);
    }
    forall i: nat
      ensures NodeAt(db, i) == if g <= i <= |c| then Some(NodeOf(c, i)) else None
    {
      assert Lookup(db, BlockKey(i)) == Expect(cfg, c, g, BlockKey(i));
    }
    assert BlockAtMost(db, v) == Some(n) by {
      assert NodeAt(db, n).Some?;
    }
    var w := TreeAt(c, n).version;
    LeafRead(cfg, db, c, g, k, n);
    if k in cfg.nonProvable {
      NoProvableLeaf(cfg, db, c, g, k, w);
    } else {
      ProvableRead(cfg, db, c, g, k, v, n);
    }
  }

  lemma {:induction false} NoProvableLeaf(cfg: Config, db: Db, c: Chain, g: nat, k: Key, w: nat)
    requires ChainOk(cfg, c) && Holds(cfg, db, c, g) && k in cfg.nonProvable
    ensures LeafAtMost(db, k, w) == None
  {
    var r := LeafAtMost(db, k, w);
    if r.Some? {
      assert Lookup(db, LeafKey(k, r.value)) == Expect(cfg, c, g, LeafKey(k, r.value));
      KeptLeaf(cfg, c, g, k, r.value);
    }
  }

  lemma {:induction false} ProvableRead(cfg: Config, db: Db, c: Chain, g: nat, k: Key, v: nat, n: nat)
    requires ChainOk(cfg, c) && Holds(cfg, db, c, g) && 1 <= g <= n <= |c| && k !in cfg.nonProvable
    requires n <= v && (v <= |c| ==> n == v) && (v > |c| ==> n == |c|)
    ensures var r := LeafAtMost(db, k, TreeAt(c, n).version);
      ReadHistory(c, k, n) ==
        if r.None? then Err(NotFound)
        else
          var leaf := LeafAt(db, k, r.value).value;
          if leaf.deletedIn.Some? && leaf.deletedIn.value <= v then Err(NotFound) else Ok((leaf.value, leaf.addedIn))
  {
    var r := LeafAtMost(db, k, TreeAt(c, n).version);
    LeafRead(cfg, db, c, g, k, n);
    LiveIsHistory(cfg, c, k, n);
    HistoryErr(c, k, n);
    if r.Some? {
      assert Lookup(db, LeafKey(k, r.value)) == Expect(cfg, c, g, LeafKey(k, r.value));
      if LeafItem(k) in TreeAt(c, n).items {
        LiveNotStamped(cfg, c, k, r.value, n, |c|);
        DeleterBound(c, k, r.value, |c|);
      }
    }
  }

  lemma {:induction false} HistoryErr(c: Chain, k: Key, v: nat)
    requires v <= |c|
    ensures ReadHistory(c, k, v).Err? ==> ReadHistory(c, k, v) == Err(NotFound)
  {
    if v > 0 {
      HistoryErr(c, k, v - 1);
    }
  }

  lemma {:induction false} DeleterBound(c: Chain, k: Key, w: nat, n: nat)
    requires n <= |c|
    ensures Deleter(c, k, w, n).Some? ==> 1 <= Deleter(c, k, w, n).value <= n
  {
    if n > 0 {
      DeleterBound(c, k, w, n - 1);
    }
  }
}
