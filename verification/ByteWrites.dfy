/** Writing and deleting bytes: the byte database keeps holding the typed one. */
module ByteWrites {
  import opened Common
  import opened SparseTree
  import opened AdapterSpec
  import opened ChainView
  import opened Reading
  import opened Growth
  import opened Linking
  import opened Recovery
  import opened ByteOrder
  import opened KeyCodec
  import opened BlockCodec
  import opened ByteQueries
  import opened ByteReads
  import RawBlockCodec

  // ---------- different keys have different bytes ----------

  lemma {:induction false} SameIsEqual(hash: Hasher, used: set<Key>, a: DbKey, b: DbKey)
    requires CollisionFree(hash, used) && UsesOnly(used, a) && UsesOnly(used, b) && KeySame(hash, a, b)
    ensures a == b
    decreases a
  {
    if a.StaleKey? || a.NpStaleKey? {
      SameIsEqual(hash, used, a.target, b.target);
    }
  }

  lemma {:induction false} EncodeInjective(hash: Hasher, len: nat, used: set<Key>, a: DbKey, b: DbKey)
    requires CollisionFree(hash, used) && UsesOnly(used, a) && UsesOnly(used, b)
    requires Fits(len, a) && Fits(len, b) && Encode(hash, len, a) == Encode(hash, len, b)
    ensures a == b
  {
    hide Encode, KeySame, UsesOnly, KeyLess;
    EncodingIsOrderEmbedding(hash, len, a, b);
    SameIsEqual(hash, used, a, b);
  }

  /** Bytes in the database that are the encoding of a used key belong to that key. */
  lemma {:induction false} StoredKeyIs(
    h: Hashing, len: nat, used: set<Key>, b: ByteDb, db: Db, temps: map<nat, RawBlock>, y: DbKey)
    requires Stores(h, len, used, b, db, temps) && Fits(len, y) && UsesOnly(used, y)
    ensures Encode(h.key, len, y) in b <==> y in db
  {
    hide Encode, Fits, UsesOnly, StoresValue, BigEndian, Pow256, Extracts;
    var x := Encode(h.key, len, y);
    if x in b {
      KeyTag(h.key, len, y);
      var z := ReadKey(h.key, len, used, b.Keys, db, temps, x);
      Stored(h.key, len, used, b.Keys, db, temps, z.value);
      EncodeInjective(h.key, len, used, y, z.value);
    }
  }

  // ---------- putting a batch ----------

  /** Bytes that hold the entries of a typed batch and nothing else. */
  ghost predicate EncodesBatch(h: Hashing, len: nat, batch: ByteDb, w: Db) {
    && (forall y :: y in w ==>
         && Fits(len, y) && ValueFits(y, w[y]) && Encode(h.key, len, y) in batch
         && StoresValue(h, batch[Encode(h.key, len, y)], w[y]))
    && (forall x :: x in batch ==> IsChainKey(h.key, len, w, x))
  }

  /** All keys of a typed batch are used ones. */
  ghost predicate BatchUses(used: set<Key>, w: Db) {
    forall y :: y in w ==> UsesOnly(used, y) && (w[y].NodeVal? ==> w[y].node.keys.Keys <= used)
  }

  lemma {:induction false} PutValue(
    h: Hashing, len: nat, used: set<Key>, b: ByteDb, db: Db, temps: map<nat, RawBlock>, batch: ByteDb, w: Db, y: DbKey)
    requires Stores(h, len, used, b, db, temps) && EncodesBatch(h, len, batch, w) && BatchUses(used, w) && y in db + w
    ensures Fits(len, y) && ValueFits(y, (db + w)[y]) && UsesOnly(used, y)
    ensures Encode(h.key, len, y) in b + batch
    ensures StoresValue(h, (b + batch)[Encode(h.key, len, y)], (db + w)[y])
  {
    hide Encode, StoresValue, UsesOnly, Fits, ValueFits;
    if y !in w {
      Stored(h.key, len, used, b.Keys, db, temps, y);
      var x := Encode(h.key, len, y);
      if x in batch {
        var z :| z in w && Fits(len, z) && Encode(h.key, len, z) == x;
        EncodeInjective(h.key, len, used, y, z);
        assert false;
      }
    }
  }

  lemma {:induction false} PutKey(
    h: Hashing, len: nat, b: ByteDb, db: Db, temps: map<nat, RawBlock>, batch: ByteDb, w: Db, x: Bytes)
    requires x in b ==> Foreign(x) || IsTempKey(temps, x) || IsChainKey(h.key, len, db, x)
    requires x in batch ==> IsChainKey(h.key, len, w, x)
    requires x in b + batch
    ensures Foreign(x) || IsTempKey(temps, x) || IsChainKey(h.key, len, db + w, x)
  {
    hide Encode, Fits, Foreign, IsTempKey;
    if x in batch {
      var y :| y in w && Fits(len, y) && Encode(h.key, len, y) == x;
      assert y in db + w;
    } else if IsChainKey(h.key, len, db, x) {
      var y :| y in db && Fits(len, y) && Encode(h.key, len, y) == x;
      assert y in db + w;
    }
  }

  /** The bytes of a batch do not touch those of the blocks that wait. */
  lemma {:induction false} PutKeepsTemps(
    h: Hashing, len: nat, b: ByteDb, temps: map<nat, RawBlock>, batch: ByteDb, w: Db)
    requires StoresTemps(h, b, temps) && EncodesBatch(h, len, batch, w)
    ensures StoresTemps(h, b + batch, temps)
  {
    hide Encode, StoresValue, Fits, ValueFits, StoresRaw, GenSTTempBlockKey, BigEndian, Pow256;
    forall i | i in temps
      ensures GenSTTempBlockKey(i) !in batch
    {
      if GenSTTempBlockKey(i) in batch {
        var y :| y in w && Fits(len, y) && Encode(h.key, len, y) == GenSTTempBlockKey(i);
        TempIsNoChainKey(h, len, i, y);
        assert false;
      }
    }
  }

  /** Putting the bytes of a batch is putting the batch. */
  lemma {:induction false} PutKeepsStores(
    h: Hashing, len: nat, used: set<Key>, b: ByteDb, db: Db, temps: map<nat, RawBlock>, batch: ByteDb, w: Db)
    requires Stores(h, len, used, b, db, temps) && EncodesBatch(h, len, batch, w) && BatchUses(used, w)
    ensures Stores(h, len, used, b + batch, db + w, temps)
  {
    hide Encode, StoresValue, UsesOnly, Fits, ValueFits, Foreign, IsTempKey, IsChainKey, StoresTemps;
    PutKeepsTemps(h, len, b, temps, batch, w);
    forall y | y in db + w
      ensures Fits(len, y) && ValueFits(y, (db + w)[y]) && UsesOnly(used, y)
      ensures Encode(h.key, len, y) in b + batch
      ensures StoresValue(h, (b + batch)[Encode(h.key, len, y)], (db + w)[y])
    {
      PutValue(h, len, used, b, db, temps, batch, w, y);
    }
    forall x | x in (b + batch).Keys
      ensures Foreign(x) || IsTempKey(temps, x) || IsChainKey(h.key, len, db + w, x)
    {
      PutKey(h, len, b, db, temps, batch, w, x);
    }
  }

  /** The numbers and keys of a value fit the fields they are written to. */
  predicate Storable(h: Hashing, v: DbVal) {
    match v
    case NodeVal(node) => IdsFit(NodeBytes(h, node)) && forall k :: k in node.keys ==> ShortKey(k)
    case LeafVal(leaf) => LeafFits(leaf) && leaf.deletedIn != Some(INVALID_BLOCK_ID)
    case _ => true
  }

  ghost function BytesOf(h: Hashing, v: DbVal): (r: Bytes)
    requires Storable(h, v)
    ensures StoresValue(h, r, v)
  {
    match v
    case NodeVal(node) =>
      var order := Sorted(node.keys.Keys);
      SortedIsOrder(node.keys.Keys);
      EncodeBlockNode(NodeBytes(h, node), order)
    case LeafVal(leaf) => EncodeLeaf(leaf)
    case NpVal(value) => value
    case _ => []
  }

  lemma {:induction false} SortedIsOrder(keys: set<Key>)
    ensures IsOrder(keys, Sorted(keys))
  {
    var order := Sorted(keys);
    forall i, j | 0 <= i < j < |order|
      ensures order[i] != order[j]
    {
      LessIrreflexive(order[i]);
    }
  }

  lemma {:induction false} BatchInjective(h: Hashing, len: nat, used: set<Key>, w: Db)
    requires CollisionFree(h.key, used) && BatchUses(used, w) && forall y :: y in w ==> Fits(len, y)
    ensures forall y, z :: y in w && z in w && Encode(h.key, len, y) == Encode(h.key, len, z) ==> y == z
  {
    hide Encode, Fits, UsesOnly;
    forall y, z | y in w && z in w && Encode(h.key, len, y) == Encode(h.key, len, z)
      ensures y == z
    {
      EncodeInjective(h.key, len, used, y, z);
    }
  }

  /** Every batch of used keys whose numbers fit their fields has its bytes. */
  ghost function EncodeBatch(h: Hashing, len: nat, used: set<Key>, w: Db): (batch: ByteDb)
    requires CollisionFree(h.key, used) && BatchUses(used, w)
    requires forall y :: y in w ==> Fits(len, y) && ValueFits(y, w[y]) && Storable(h, w[y])
    ensures EncodesBatch(h, len, batch, w)
  {
    BatchInjective(h, len, used, w);
    map y | y in w :: Encode(h.key, len, y) := BytesOf(h, w[y])
  }

  // ---------- addBlock ----------

  /** Leaves of the chain's last tree are in the database, so their keys are used. */
  lemma {:induction false} TreeKeysUsed(
    cfg: Config, h: Hashing, len: nat, used: set<Key>, b: ByteDb, s: Ledger, c: Chain, temps: map<nat, RawBlock>, k: Key)
    requires Inv(cfg, s, c) && Stores(h, len, used, b, s.db, temps) && LeafItem(k) in LastTree(c).items
    ensures k in used
  {
    hide Encode, StoresValue, Fits, StoresKeys, ExpectInternal, NodeOf;
    var w := LastTree(c).items[LeafItem(k)];
    assert HasItem(TreeAt(c, |c|), LeafItem(k), w);
    KeptLeaf(cfg, c, s.genesis, k, w);
    assert Lookup(s.db, LeafKey(k, w)) == Expect(cfg, c, s.genesis, LeafKey(k, w));
    Stored(h.key, len, used, b.Keys, s.db, temps, LeafKey(k, w));
  }

  /** Deleted keys have a leaf in the database. */
  lemma {:induction false} FoundKeysUsed(
    h: Hashing, len: nat, used: set<Key>, b: ByteDb, db: Db, temps: map<nat, RawBlock>, k: Key, v: nat)
    requires Stores(h, len, used, b, db, temps) && LeafAtMost(db, k, v).Some?
    ensures k in used
  {
    hide Encode, StoresValue, Fits, StoresKeys;
    Stored(h.key, len, used, b.Keys, db, temps, LeafKey(k, LeafAtMost(db, k, v).value));
  }

  /** Where the keys of a plan come from. */
  ghost predicate PlanUses(used: set<Key>, plan: Plan) {
    && plan.updates.Keys <= used && plan.deleted <= used
    && (plan.newTree.version > plan.oldTree.version ==>
         && (forall k :: LeafItem(k) in plan.oldTree.items ==> k in used)
         && (forall k :: LeafItem(k) in plan.newTree.items ==> k in used))
  }

  lemma {:induction false} PlanIsUsed(
    cfg: Config, h: Hashing, len: nat, used: set<Key>, b: ByteDb, s: Ledger, c: Chain, temps: map<nat, RawBlock>,
    updates: map<Key, Value>, deletes: set<Key>)
    requires Inv(cfg, s, c) && Stores(h, len, used, b, s.db, temps) && updates.Keys <= used
    requires deletes !! cfg.nonProvable
    ensures MakePlan(cfg, s, updates, deletes).Ok?
    ensures PlanUses(used, MakePlan(cfg, s, updates, deletes).value)
    ensures MakePlan(cfg, s, updates, deletes).value.updates == updates
  {
    hide Stores, Holds, ChainOk, LeafAtMost, Update, ParentDigest, LatestRoot;
    AddSucceeds(cfg, s, c, updates, deletes);
    var plan := MakePlan(cfg, s, updates, deletes).value;
    forall k | k in plan.deleted
      ensures k in used
    {
      FoundKeysUsed(h, len, used, b, s.db, temps, k, s.tree.version);
    }
    if plan.newTree.version > plan.oldTree.version {
      forall k | LeafItem(k) in LastTree(c).items
        ensures k in used
      {
        TreeKeysUsed(cfg, h, len, used, b, s, c, temps, k);
      }
      TreesOk(cfg, c, |c|);
      assert TreeAt(c, |c|) == LastTree(c);
      UpdateFollows(cfg.hashPath, LastTree(c), updates - cfg.nonProvable, plan.deleted);
    }
  }

  lemma {:induction false} WrittenUses(cfg: Config, db: Db, plan: Plan, used: set<Key>, y: DbKey)
    requires PlanUses(used, plan) && WriteAt(cfg, db, plan, y).Some?
    ensures UsesOnly(used, y)
    ensures WriteAt(cfg, db, plan, y).value.NodeVal? ==> WriteAt(cfg, db, plan, y).value.node.keys.Keys <= used
  {
    hide LeafAtMost, NpAtMost, Below;
    match y
    case StaleKey(since, target) =>
      assert UsesOnly(used, target);
    case NpStaleKey(since, target) =>
      assert UsesOnly(used, target);
    case _ =>
  }

  /**
   * Putting the encoded batch of addBlock into the bytes of a represented chain gives the bytes of
   * the database with the block.
   */
  lemma {:induction false} AddKeepsStores(
    cfg: Config, h: Hashing, len: nat, used: set<Key>, b: ByteDb, s: Ledger, c: Chain, temps: map<nat, RawBlock>,
    updates: map<Key, Value>, deletes: set<Key>, batch: ByteDb)
    requires Inv(cfg, s, c) && Stores(h, len, used, b, s.db, temps) && updates.Keys <= used
    requires deletes !! cfg.nonProvable
    requires BlockUpdates(cfg, s, updates, deletes).Ok? ==>
      EncodesBatch(h, len, batch, BlockUpdates(cfg, s, updates, deletes).value.0)
    ensures AddBlock(cfg, s, updates, deletes).Ok?
    ensures Stores(h, len, used, b + batch, AddBlock(cfg, s, updates, deletes).value.db, temps)
  {
    hide Stores, Holds, ChainOk, MakePlan, EncodesBatch, UsesOnly, WriteAt, Writes;
    PlanIsUsed(cfg, h, len, used, b, s, c, temps, updates, deletes);
    var plan := MakePlan(cfg, s, updates, deletes).value;
    var w := Writes(cfg, s.db, plan);
    forall y | y in w
      ensures UsesOnly(used, y) && (w[y].NodeVal? ==> w[y].node.keys.Keys <= used)
    {
      WritesAt(cfg, s.db, plan, y);
      WrittenUses(cfg, s.db, plan, used, y);
    }
    PutKeepsStores(h, len, used, b, s.db, temps, batch, w);
  }

  /** After the batch of a block is put, reads through the bytes give the history of the longer chain. */
  lemma {:induction false} BytesAfterAdd(
    cfg: Config, h: Hashing, len: nat, used: set<Key>, b: ByteDb, s: Ledger, c: Chain, temps: map<nat, RawBlock>,
    updates: map<Key, Value>, deletes: set<Key>, batch: ByteDb, k: Key, v: nat)
    requires Addable(cfg, s, c, updates, deletes) && Stores(h, len, used, b, s.db, temps) && updates.Keys <= used
    requires BlockUpdates(cfg, s, updates, deletes).Ok? ==>
      EncodesBatch(h, len, batch, BlockUpdates(cfg, s, updates, deletes).value.0)
    requires k in used && InWidth(v, ID_SIZE) && GenesisAfterAdd(s.genesis) <= v <= |c| + 1
    requires forall l :: l in cfg.nonProvable ==> |l| == len
    ensures GetValueBytes(cfg, h.key, b + batch, k, v)
         == ReadHistory(Extend(cfg, c, EffectiveBlk(c, updates, deletes)), k, v)
  {
    hide Stores, Holds, ChainOk, EncodesBatch, AddBlock, BlockUpdates, GetValueBytes, ReadHistory, BigEndian, Pow256;
    AddBlockExtends(cfg, s, c, updates, deletes);
    AddKeepsStores(cfg, h, len, used, b, s, c, temps, updates, deletes, batch);
    var c' := Extend(cfg, c, EffectiveBlk(c, updates, deletes));
    BytesReadHistory(cfg, h, len, used, b + batch, AddBlock(cfg, s, updates, deletes).value, c', temps, k, v);
  }

  // ---------- temporary blocks ----------

  lemma {:induction false} TempKeysDiffer(i: nat, j: nat)
    requires InWidth(i, ID_SIZE) && InWidth(j, ID_SIZE)
    ensures GenSTTempBlockKey(i) == GenSTTempBlockKey(j) <==> i == j
  {
    hide BigEndian, Pow256;
    SplitEqual([BFT, ST_TEMP_BLOCK], [BFT, ST_TEMP_BLOCK], BigEndian(i, ID_SIZE), BigEndian(j, ID_SIZE));
    BigEndianOrder(i, j, ID_SIZE);
  }

  lemma {:induction false} TempIsNoChainKey(h: Hashing, len: nat, id: nat, y: DbKey)
    requires InWidth(id, ID_SIZE) && Fits(len, y)
    ensures Encode(h.key, len, y) != GenSTTempBlockKey(id) && !Foreign(GenSTTempBlockKey(id))
  {
    hide Encode, GenSTTempBlockKey, BigEndian, Pow256;
    TempTag(id);
    KeyTag(h.key, len, y);
  }

  lemma {:induction false} TempIsPut(
    h: Hashing, b: ByteDb, temps: map<nat, RawBlock>, id: nat, block: RawBlock, bytes: Bytes)
    requires StoresTemps(h, b, temps) && InWidth(id, ID_SIZE) && StoresRaw(h, bytes, block)
    ensures StoresTemps(h, b[GenSTTempBlockKey(id) := bytes], temps[id := block])
  {
    hide GenSTTempBlockKey, BigEndian, Pow256, StoresRaw;
    var b', temps' := b[GenSTTempBlockKey(id) := bytes], temps[id := block];
    forall i | i in temps'
      ensures InWidth(i, ID_SIZE) && GenSTTempBlockKey(i) in b' && StoresRaw(h, b'[GenSTTempBlockKey(i)], temps'[i])
    {
      if i != id {
        TempKeysDiffer(i, id);
      }
    }
  }

  lemma {:induction false} TempIsRemoved(h: Hashing, b: ByteDb, temps: map<nat, RawBlock>, id: nat)
    requires StoresTemps(h, b, temps) && InWidth(id, ID_SIZE)
    ensures StoresTemps(h, b - {GenSTTempBlockKey(id)}, temps - {id})
  {
    hide GenSTTempBlockKey, BigEndian, Pow256, StoresRaw;
    forall i | i in temps - {id}
      ensures InWidth(i, ID_SIZE) && GenSTTempBlockKey(i) != GenSTTempBlockKey(id)
    {
      TempKeysDiffer(i, id);
    }
  }

  /** The bytes of a block that waits give back its updates and its deletes. */
  lemma {:induction false} WaitingReadBack(
    h: Hashing, len: nat, used: set<Key>, b: ByteDb, db: Db, temps: map<nat, RawBlock>, id: nat)
    requires Stores(h, len, used, b, db, temps) && id in temps
    ensures InWidth(id, ID_SIZE) && GenSTTempBlockKey(id) in b
    ensures var bytes, raw := b[GenSTTempBlockKey(id)], temps[id];
      && RawBlockCodec.Data(bytes) == Ok(raw.updates) && RawBlockCodec.DeletedKeysOf(bytes) == Ok(raw.deletes)
      && RawBlockCodec.ParentDigestOf(bytes) == Ok(h.digest(raw.parentDigest))
      && RawBlockCodec.StateHashOf(bytes) == Ok(h.state(raw.stateHash))
  {
    hide GenSTTempBlockKey, BigEndian, Pow256, StoresKeys, RawBlockCodec.MerkleBlock, RawBlockCodec.Data,
         RawBlockCodec.DeletedKeysOf, RawBlockCodec.ParentDigestOf, RawBlockCodec.StateHashOf;
    var raw := temps[id];
    assert StoresTemps(h, b, temps);
    RawBlockCodec.MerkleBlockRoundTrip(
      raw.updates, raw.deletes, h.digest(raw.parentDigest), h.state(raw.stateHash));
  }

  /** Storing a temporary block keeps the rest. */
  lemma {:induction false} TempPut(
    h: Hashing, len: nat, used: set<Key>, b: ByteDb, db: Db, temps: map<nat, RawBlock>, id: nat, block: RawBlock,
    bytes: Bytes)
    requires Stores(h, len, used, b, db, temps) && InWidth(id, ID_SIZE) && StoresRaw(h, bytes, block)
    ensures Stores(h, len, used, b[GenSTTempBlockKey(id) := bytes], db, temps[id := block])
  {
    hide Encode, StoresValue, UsesOnly, Fits, ValueFits, Foreign, IsChainKey, GenSTTempBlockKey, BigEndian, Pow256,
         StoresTemps, StoresRaw;
    TempIsPut(h, b, temps, id, block, bytes);
    var b' := b[GenSTTempBlockKey(id) := bytes];
    forall y | y in db
      ensures Fits(len, y) && Encode(h.key, len, y) in b' && StoresValue(h, b'[Encode(h.key, len, y)], db[y])
    {
      TempIsNoChainKey(h, len, id, y);
    }
    forall x | x in b'.Keys
      ensures Foreign(x) || IsTempKey(temps[id := block], x) || IsChainKey(h.key, len, db, x)
    {
      if x != GenSTTempBlockKey(id) && IsTempKey(temps, x) {
        var i: nat :| i in temps && InWidth(i, ID_SIZE) && GenSTTempBlockKey(i) == x;
        assert i in temps[id := block];
      }
    }
  }

  /** A raw block that has to wait is one put of its bytes; the chain and the other waiting blocks keep theirs. */
  lemma {:induction false} WaitingKeepsStores(
    cfg: Config, h: Hashing, len: nat, used: set<Key>, b: ByteDb, s: State, block: RawBlock, id: nat, bytes: Bytes)
    requires Stores(h, len, used, b, s.ledger.db, s.temps) && id > s.ledger.last + 1 && InWidth(id, ID_SIZE)
    requires StoresRaw(h, bytes, block)
    ensures var r := AddRawBlock(cfg, s, block, id);
      && r.Ok? && r.value.ledger == s.ledger && r.value.temps == s.temps[id := block]
      && Stores(h, len, used, b[GenSTTempBlockKey(id) := bytes], r.value.ledger.db, r.value.temps)
  {
    hide Stores, GenSTTempBlockKey, BigEndian, Pow256, LinkLoop;
    TempPut(h, len, used, b, s.ledger.db, s.temps, id, block, bytes);
  }

  /** Removing a temporary block keeps the rest. */
  lemma {:induction false} TempRemoved(
    h: Hashing, len: nat, used: set<Key>, b: ByteDb, db: Db, temps: map<nat, RawBlock>, id: nat)
    requires Stores(h, len, used, b, db, temps) && InWidth(id, ID_SIZE)
    ensures Stores(h, len, used, b - {GenSTTempBlockKey(id)}, db, temps - {id})
  {
    hide Encode, StoresValue, UsesOnly, Fits, ValueFits, Foreign, IsChainKey, GenSTTempBlockKey, BigEndian, Pow256,
         StoresTemps;
    TempIsRemoved(h, b, temps, id);
    var b', temps' := b - {GenSTTempBlockKey(id)}, temps - {id};
    forall y | y in db
      ensures Fits(len, y) && Encode(h.key, len, y) in b'
    {
      TempIsNoChainKey(h, len, id, y);
    }
    forall i | i in temps'
      ensures InWidth(i, ID_SIZE) && GenSTTempBlockKey(i) in b'
    {
      TempKeysDiffer(i, id);
    }
    forall x | x in b'.Keys
      ensures Foreign(x) || IsTempKey(temps', x) || IsChainKey(h.key, len, db, x)
    {
      if IsTempKey(temps, x) {
        var i: nat :| i in temps && InWidth(i, ID_SIZE) && GenSTTempBlockKey(i) == x;
        assert i in temps';
      }
    }
  }

  /** A link transaction: the temporary block goes and the batch of the block comes. */
  lemma {:induction false} LinkKeepsStores(
    cfg: Config, h: Hashing, len: nat, used: set<Key>, b: ByteDb, s: Ledger, c: Chain, temps: map<nat, RawBlock>,
    block: RawBlock, batch: ByteDb)
    requires Inv(cfg, s, c) && Stores(h, len, used, b, s.db, temps) && block.updates.Keys <= used
    requires block.deletes !! cfg.nonProvable && InWidth(s.last + 1, ID_SIZE)
    requires BlockUpdates(cfg, s, block.updates, block.deletes).Ok? ==>
      EncodesBatch(h, len, batch, BlockUpdates(cfg, s, block.updates, block.deletes).value.0)
    ensures LinkBlock(cfg, s, block).Ok?
    ensures Stores(h, len, used, b - {GenSTTempBlockKey(s.last + 1)} + batch,
                   LinkBlock(cfg, s, block).value.db, temps - {s.last + 1})
  {
    hide Stores, Holds, ChainOk, EncodesBatch, BlockUpdates, GenSTTempBlockKey, BigEndian, Pow256;
    TempRemoved(h, len, used, b, s.db, temps, s.last + 1);
    AddKeepsStores(cfg, h, len, used, b - {GenSTTempBlockKey(s.last + 1)}, s, c, temps - {s.last + 1},
                   block.updates, block.deletes, batch);
  }

  /**
   * The link transaction as it runs: it parses the stored bytes of the next block that waits, and links what it finds
   * there, which is the block as it was received.
   */
  lemma {:induction false} LinkFromBytes(
    cfg: Config, h: Hashing, len: nat, used: set<Key>, b: ByteDb, s: Ledger, c: Chain, temps: map<nat, RawBlock>,
    updates: map<Key, Value>, deletes: set<Key>, batch: ByteDb)
    requires Inv(cfg, s, c) && Stores(h, len, used, b, s.db, temps) && s.last + 1 in temps
    requires InWidth(s.last + 1, ID_SIZE) && GenSTTempBlockKey(s.last + 1) in b
    requires RawBlockCodec.Data(b[GenSTTempBlockKey(s.last + 1)]) == Ok(updates) && updates.Keys <= used
    requires RawBlockCodec.DeletedKeysOf(b[GenSTTempBlockKey(s.last + 1)]) == Ok(deletes) && deletes !! cfg.nonProvable
    requires BlockUpdates(cfg, s, updates, deletes).Ok? ==>
      EncodesBatch(h, len, batch, BlockUpdates(cfg, s, updates, deletes).value.0)
    ensures LinkBlock(cfg, s, temps[s.last + 1]).Ok?
    ensures Stores(h, len, used, b - {GenSTTempBlockKey(s.last + 1)} + batch,
                   LinkBlock(cfg, s, temps[s.last + 1]).value.db, temps - {s.last + 1})
  {
    hide Stores, Inv, EncodesBatch, BlockUpdates, GenSTTempBlockKey, BigEndian, Pow256, RawBlockCodec.Data,
         RawBlockCodec.DeletedKeysOf, RawBlockCodec.ParentDigestOf, RawBlockCodec.StateHashOf;
    WaitingReadBack(h, len, used, b, s.db, temps, s.last + 1);
    LinkKeepsStores(cfg, h, len, used, b, s, c, temps, temps[s.last + 1], batch);
  }

  // ---------- deleting keys ----------

  /** The byte keys delete, of what the database holds, exactly the dead typed keys. */
  ghost predicate DeletesExactly(h: Hashing, len: nat, b: ByteDb, db: Db, dead: DbKey -> bool, keys: set<Bytes>) {
    && (forall y :: y in db && dead(y) ==> Fits(len, y) && Encode(h.key, len, y) in keys)
    && (forall x :: x in keys && x in b ==> exists y :: y in db && dead(y) && Fits(len, y) && Encode(h.key, len, y) == x)
  }

  lemma {:induction false} SurvivorStays(
    h: Hashing, len: nat, used: set<Key>, b: ByteDb, db: Db, temps: map<nat, RawBlock>,
    dead: DbKey -> bool, keys: set<Bytes>, y: DbKey)
    requires Stores(h, len, used, b, db, temps) && DeletesExactly(h, len, b, db, dead, keys)
    requires y in db && !dead(y)
    ensures Fits(len, y) && Encode(h.key, len, y) in b - keys
  {
    hide Encode, StoresValue, UsesOnly, Fits, ValueFits;
    Stored(h.key, len, used, b.Keys, db, temps, y);
    var x := Encode(h.key, len, y);
    if x in keys {
      var z :| z in db && dead(z) && Fits(len, z) && Encode(h.key, len, z) == x;
      Stored(h.key, len, used, b.Keys, db, temps, z);
      EncodeInjective(h.key, len, used, y, z);
      assert false;
    }
  }

  lemma {:induction false} TempStays(
    h: Hashing, len: nat, b: ByteDb, db: Db, dead: DbKey -> bool, keys: set<Bytes>, i: nat)
    requires DeletesExactly(h, len, b, db, dead, keys) && InWidth(i, ID_SIZE) && GenSTTempBlockKey(i) in b
    ensures GenSTTempBlockKey(i) in b - keys
  {
    hide Encode, GenSTTempBlockKey, BigEndian, Pow256;
    var x := GenSTTempBlockKey(i);
    TempTag(i);
    if x in keys {
      var y :| y in db && dead(y) && Fits(len, y) && Encode(h.key, len, y) == x;
      KeyTag(h.key, len, y);
      assert false;
    }
  }

  lemma {:induction false} RemainingKey(
    h: Hashing, len: nat, b: ByteDb, db: Db, temps: map<nat, RawBlock>, dead: DbKey -> bool, keys: set<Bytes>, x: Bytes)
    requires DeletesExactly(h, len, b, db, dead, keys) && x in b - keys
    requires Foreign(x) || IsTempKey(temps, x) || IsChainKey(h.key, len, db, x)
    ensures Foreign(x) || IsTempKey(temps, x) || IsChainKey(h.key, len, Without(db, dead), x)
  {
    hide Encode, Fits, Foreign, IsTempKey;
    if IsChainKey(h.key, len, db, x) {
      var y :| y in db && Fits(len, y) && Encode(h.key, len, y) == x;
      assert Lookup(Without(db, dead), y) == if dead(y) then None else Lookup(db, y);
    }
  }

  lemma {:induction false} RemoveKeepsTemps(
    h: Hashing, len: nat, b: ByteDb, db: Db, temps: map<nat, RawBlock>, dead: DbKey -> bool, keys: set<Bytes>)
    requires StoresTemps(h, b, temps) && DeletesExactly(h, len, b, db, dead, keys)
    ensures StoresTemps(h, b - keys, temps)
  {
    hide GenSTTempBlockKey, BigEndian, Pow256, StoresRaw, DeletesExactly;
    forall i | i in temps
      ensures GenSTTempBlockKey(i) in b - keys
    {
      TempStays(h, len, b, db, dead, keys, i);
    }
  }

  lemma {:induction false} TempKeysStored(h: Hashing, b: ByteDb, temps: map<nat, RawBlock>)
    requires StoresTemps(h, b, temps)
    ensures forall i :: i in temps ==> InWidth(i, ID_SIZE) && GenSTTempBlockKey(i) in b
  {
    hide GenSTTempBlockKey, BigEndian, Pow256, StoresRaw;
  }

  /** Deleting the bytes of the dead keys is deleting those keys. */
  lemma {:induction false} RemoveKeepsStores(
    h: Hashing, len: nat, used: set<Key>, b: ByteDb, db: Db, temps: map<nat, RawBlock>,
    dead: DbKey -> bool, keys: set<Bytes>)
    requires Stores(h, len, used, b, db, temps) && DeletesExactly(h, len, b, db, dead, keys)
    ensures Stores(h, len, used, b - keys, Without(db, dead), temps)
  {
    hide Encode, StoresValue, UsesOnly, Fits, ValueFits, Foreign, IsTempKey, IsChainKey, GenSTTempBlockKey,
         DeletesExactly, BigEndian, Pow256, StoresTemps;
    RemoveKeepsTemps(h, len, b, db, temps, dead, keys);
    var db' := Without(db, dead);
    forall y | y in db'
      ensures y in db && !dead(y) && db'[y] == db[y]
      ensures Fits(len, y) && Encode(h.key, len, y) in b - keys
    {
      assert Lookup(db', y) == if dead(y) then None else Lookup(db, y);
      SurvivorStays(h, len, used, b, db, temps, dead, keys, y);
    }
    TempKeysStored(h, b - keys, temps);
    forall x | x in (b - keys).Keys
      ensures Foreign(x) || IsTempKey(temps, x) || IsChainKey(h.key, len, db', x)
    {
      RemainingKey(h, len, b, db, temps, dead, keys, x);
    }
  }

  // ---------- reading a block node ----------

  /** getBlockNode finds and parses exactly the stored nodes. */
  lemma {:induction false} NodeIsRead(
    h: Hashing, len: nat, used: set<Key>, b: ByteDb, db: Db, temps: map<nat, RawBlock>, id: nat)
    requires Stores(h, len, used, b, db, temps) && InWidth(id, ID_SIZE)
    ensures Encode(h.key, len, BlockKey(id)) == GenBlockDbKey(id)
    ensures match NodeAt(db, id)
      case None => GenBlockDbKey(id) !in b
      case Some(node) =>
        && GenBlockDbKey(id) in b && DecodeBlockNode(b[GenBlockDbKey(id)]) == Ok(NodeBytes(h, node))
        && InWidth(node.version, ID_SIZE) && node.keys.Keys <= used
  {
    hide BigEndian, Pow256, GenBlockDbKey, DecodeBlockNode, EncodeBlockNode, IsOrder, ShortKey, StoresKeys;
    var y := BlockKey(id);
    StoredKeyIs(h, len, used, b, db, temps, y);
    if y in db {
      Stored(h.key, len, used, b.Keys, db, temps, y);
      var node := db[y].node;
      var order :| IsOrder(node.keys.Keys, order) && b[GenBlockDbKey(id)] == EncodeBlockNode(NodeBytes(h, node), order);
      BlockNodeRoundTrip(NodeBytes(h, node), order);
    }
  }

  // ---------- the keys a rollback deletes ----------

  /** The leaf, or the non-provable entry, that a block with this version wrote for a key. */
  function OwnKey(cfg: Config, hash: Hasher, version: nat, id: nat, k: Key): Bytes
    requires InWidth(version, ID_SIZE) && InWidth(id, ID_SIZE)
  {
    if k in cfg.nonProvable then GenNonProvableDbKey(id, k) else GenDataDbKey(hash(k), version)
  }

  /** The keys of a walk over one kind and version. */
  ghost predicate IsWalk(h: Hashing, len: nat, db: Db, kind: VersionedKind, version: nat, run: seq<Bytes>) {
    forall x :: x in run <==>
      exists y :: y in db && KeyOfVersion(kind, version, y) && Fits(len, y) && Encode(h.key, len, y) == x
  }

  /** What a rollback of block id deletes, part by part. */
  ghost predicate RollbackKeys(
    cfg: Config, h: Hashing, len: nat, db: Db, node: Node, id: nat,
    own: set<Bytes>, internal: seq<Bytes>, stale: seq<Bytes>, npStale: seq<Bytes>)
    requires InWidth(node.version, ID_SIZE) && InWidth(id, ID_SIZE)
  {
    && own == (set k | k in node.keys :: OwnKey(cfg, h.key, node.version, id, k))
    && IsWalk(h, len, db, InternalKeys, node.version, internal)
    && IsWalk(h, len, db, StaleKeys, node.version, stale)
    && IsWalk(h, len, db, NpStaleKeys, id, npStale)
  }

  /** A dead key is among the keys of a rollback. */
  lemma {:induction false} DeadIsDeleted(
    cfg: Config, h: Hashing, len: nat, db: Db, node: Node, id: nat,
    own: set<Bytes>, internal: seq<Bytes>, stale: seq<Bytes>, npStale: seq<Bytes>, y: DbKey)
    requires InWidth(node.version, ID_SIZE) && InWidth(id, ID_SIZE) && Fits(len, y)
    requires RollbackKeys(cfg, h, len, db, node, id, own, internal, stale, npStale)
    requires y in db && DiesWithLast(cfg, node, id, y)
    ensures var x := Encode(h.key, len, y);
      x == GenBlockDbKey(id) || x in own || x in internal || x in stale || x in npStale
  {
    hide BigEndian, Pow256, GenBlockDbKey, GenNonProvableDbKey, GenDataDbKey, GenInternalDbKey, GenStaleDbKey,
         GenNonProvableStaleDbKey;
    match y
    case BlockKey(_) =>
    case LeafKey(k, w) => assert Encode(h.key, len, y) == OwnKey(cfg, h.key, node.version, id, k);
    case NpKey(k, i) => assert Encode(h.key, len, y) == OwnKey(cfg, h.key, node.version, id, k);
    case InternalKey(_, _) => assert KeyOfVersion(InternalKeys, node.version, y);
    case StaleKey(_, _) => assert KeyOfVersion(StaleKeys, node.version, y);
    case NpStaleKey(_, _) => assert KeyOfVersion(NpStaleKeys, id, y);
  }

  /** A key of a rollback that is in the database is the encoding of a dead key. */
  lemma {:induction false} DeletedIsDead(
    cfg: Config, h: Hashing, len: nat, used: set<Key>, b: ByteDb, db: Db, temps: map<nat, RawBlock>, node: Node, id: nat,
    own: set<Bytes>, internal: seq<Bytes>, stale: seq<Bytes>, npStale: seq<Bytes>, x: Bytes) returns (y: DbKey)
    requires Stores(h, len, used, b, db, temps) && NodeAt(db, id) == Some(node) && node.keys.Keys <= used
    requires InWidth(node.version, ID_SIZE) && InWidth(id, ID_SIZE) && forall l :: l in cfg.nonProvable ==> |l| == len
    requires RollbackKeys(cfg, h, len, db, node, id, own, internal, stale, npStale)
    requires x in b && (x == GenBlockDbKey(id) || x in own || x in internal || x in stale || x in npStale)
    ensures y in db && DiesWithLast(cfg, node, id, y) && Fits(len, y) && Encode(h.key, len, y) == x
  {
    hide Stores, BigEndian, Pow256, GenBlockDbKey, GenNonProvableDbKey, GenDataDbKey, GenInternalDbKey, GenStaleDbKey,
         GenNonProvableStaleDbKey;
    if x == GenBlockDbKey(id) {
      y := BlockKey(id);
    } else if x in own {
      var k :| k in node.keys && x == OwnKey(cfg, h.key, node.version, id, k);
      y := if k in cfg.nonProvable then NpKey(k, id) else LeafKey(k, node.version);
      StoredKeyIs(h, len, used, b, db, temps, y);
    } else {
      var kind := if x in internal then InternalKeys else if x in stale then StaleKeys else NpStaleKeys;
      var version := if kind == NpStaleKeys then id else node.version;
      y :| y in db && KeyOfVersion(kind, version, y) && Fits(len, y) && Encode(h.key, len, y) == x;
    }
  }

  /** The loops over the keys of the block. */
  method OwnKeys(cfg: Config, hash: Hasher, ks: set<Key>, version: nat, id: nat) returns (own: set<Bytes>)
    requires InWidth(version, ID_SIZE) && InWidth(id, ID_SIZE)
    ensures own == set k | k in ks :: OwnKey(cfg, hash, version, id, k)
  {
    hide OwnKey, BigEndian, Pow256;
    own := {};
    var rest := ks;
    while rest != {}
      invariant rest <= ks
      invariant own == set k | k in ks && k !in rest :: OwnKey(cfg, hash, version, id, k)
      decreases |rest|
    {
      var k :| k in rest;
      rest := rest - {k};
      own := own + {OwnKey(cfg, hash, version, id, k)};
    }
  }

  /** lastReachableBlockKeyDeletes. */
  method LastReachableBlockKeyDeletes(
    cfg: Config, h: Hashing, ghost len: nat, ghost used: set<Key>, b: ByteDb, ghost db: Db,
    ghost temps: map<nat, RawBlock>, id: nat) returns (r: Result<set<Bytes>>)
    requires Stores(h, len, used, b, db, temps) && InWidth(id, ID_SIZE)
    requires forall l :: l in cfg.nonProvable ==> |l| == len
    ensures match NodeAt(db, id)
      case None => r == Err(RuntimeError)
      case Some(node) => r.Ok? && DeletesExactly(h, len, b, db, y => DiesWithLast(cfg, node, id, y), r.value)
  {
    hide StoresValue, StoresKeys, Encode, Fits, DiesWithLast, OwnKey, GenBlockDbKey, DecodeBlockNode, BigEndian, Pow256,
         KeyOfVersion, DeletesExactly;
    NodeIsRead(h, len, used, b, db, temps, id);
    if GenBlockDbKey(id) !in b {
      return Err(RuntimeError);
    }
    var node := DecodeBlockNode(b[GenBlockDbKey(id)]).value;
    ghost var typed := NodeAt(db, id).value;
    var own := OwnKeys(cfg, h.key, node.keys.Keys, node.version, id);
    var internal := KeysOfVersion(h.key, len, used, b.Keys, db, temps, InternalKeys, node.version);
    var stale := KeysOfVersion(h.key, len, used, b.Keys, db, temps, StaleKeys, node.version);
    var npStale := KeysOfVersion(h.key, len, used, b.Keys, db, temps, NpStaleKeys, id);
    var keys := own + {GenBlockDbKey(id)} + (set x | x in internal.value) + (set x | x in stale.value)
              + (set x | x in npStale.value);
    RollbackExact(cfg, h, len, used, b, db, temps, typed, id, own, internal.value, stale.value, npStale.value, keys);
    r := Ok(keys);
  }

  lemma {:induction false} RollbackExact(
    cfg: Config, h: Hashing, len: nat, used: set<Key>, b: ByteDb, db: Db, temps: map<nat, RawBlock>, node: Node, id: nat,
    own: set<Bytes>, internal: seq<Bytes>, stale: seq<Bytes>, npStale: seq<Bytes>, keys: set<Bytes>)
    requires Stores(h, len, used, b, db, temps) && NodeAt(db, id) == Some(node) && node.keys.Keys <= used
    requires InWidth(node.version, ID_SIZE) && InWidth(id, ID_SIZE) && forall l :: l in cfg.nonProvable ==> |l| == len
    requires RollbackKeys(cfg, h, len, db, node, id, own, internal, stale, npStale)
    requires forall x :: x in keys <==> x == GenBlockDbKey(id) || x in own || x in internal || x in stale || x in npStale
    ensures DeletesExactly(h, len, b, db, y => DiesWithLast(cfg, node, id, y), keys)
  {
    hide StoresValue, Encode, Fits, DiesWithLast, RollbackKeys, GenBlockDbKey, BigEndian, Pow256;
    forall y | y in db && DiesWithLast(cfg, node, id, y)
      ensures Fits(len, y) && Encode(h.key, len, y) in keys
    {
      Stored(h.key, len, used, b.Keys, db, temps, y);
      DeadIsDeleted(cfg, h, len, db, node, id, own, internal, stale, npStale, y);
    }
    forall x | x in keys && x in b
      ensures exists y :: y in db && DiesWithLast(cfg, node, id, y) && Fits(len, y) && Encode(h.key, len, y) == x
    {
      var y := DeletedIsDead(cfg, h, len, used, b, db, temps, node, id, own, internal, stale, npStale, x);
    }
  }

  /** deleteLastReachableBlock on the bytes is deleteLastReachableBlock on the typed database. */
  method DeleteLastBytes(
    cfg: Config, h: Hashing, ghost len: nat, ghost used: set<Key>, b: ByteDb, ghost s: Ledger,
    ghost temps: map<nat, RawBlock>, last: nat) returns (r: Result<ByteDb>)
    requires Stores(h, len, used, b, s.db, temps) && last == s.last && InWidth(last, ID_SIZE)
    requires forall l :: l in cfg.nonProvable ==> |l| == len
    ensures r.Ok? <==> DeleteLast(cfg, s).Ok?
    ensures r.Ok? ==> Stores(h, len, used, r.value, DeleteLast(cfg, s).value.db, temps)
  {
    hide Stores, DiesWithLast, DeletesExactly;
    if last == 0 {
      return Ok(b);
    }
    var keys := LastReachableBlockKeyDeletes(cfg, h, len, used, b, s.db, temps, last);
    if keys.Err? {
      return Err(keys.error);
    }
    ghost var node := NodeAt(s.db, last).value;
    RemoveKeepsStores(h, len, used, b, s.db, temps, y => DiesWithLast(cfg, node, last, y), keys.value);
    r := Ok(b - keys.value);
  }

  // ---------- the keys that pruning deletes ----------

  /** The target of an index entry, as the extractors read it. */
  function Target(kind: VersionedKind, x: Bytes): Bytes {
    var t := if kind == StaleKeys then ExtractKeyFromProvableStaleKey(x) else ExtractKeyFromNonProvableStaleKey(x);
    if t.Ok? then t.value else []
  }

  lemma {:induction false} TargetIs(h: Hashing, len: nat, kind: VersionedKind, version: nat, y: DbKey)
    requires Fits(len, y) && kind != InternalKeys && KeyOfVersion(kind, version, y)
    ensures Fits(len, y.target) && Target(kind, Encode(h.key, len, y)) == Encode(h.key, len, y.target)
  {
    hide BigEndian, Pow256, Encode, ExtractKeyFromProvableStaleKey, ExtractKeyFromNonProvableStaleKey, FromBigEndian;
    ExtractorsInvert(h.key, len, y);
  }

  /** The index entries of a version and their targets. */
  ghost predicate IndexKeys(h: Hashing, len: nat, db: Db, kind: VersionedKind, version: nat, keys: set<Bytes>) {
    forall x :: x in keys <==>
      exists y :: y in db && KeyOfVersion(kind, version, y) && Fits(len, y)
                  && (x == Encode(h.key, len, y) || x == Target(kind, Encode(h.key, len, y)))
  }

  /** One of the two parts of genesisBlockKeyDeletes. */
  method IndexKeyDeletes(
    ghost h: Hashing, ghost len: nat, ghost used: set<Key>, b: ByteDb, ghost db: Db, ghost temps: map<nat, RawBlock>,
    kind: VersionedKind, version: nat) returns (keys: set<Bytes>)
    requires Stores(h, len, used, b, db, temps) && InWidth(version, ID_SIZE) && kind != InternalKeys
    ensures IndexKeys(h, len, db, kind, version, keys)
  {
    hide StoresValue, StoresKeys, Encode, Fits, KeyOfVersion, Target, BigEndian, Pow256;
    var run := KeysOfVersion(h.key, len, used, b.Keys, db, temps, kind, version);
    keys := {};
    for i := 0 to |run.value|
      invariant forall x :: x in keys <==> exists j :: 0 <= j < i && (x == run.value[j] || x == Target(kind, run.value[j]))
    {
      keys := keys + {run.value[i], Target(kind, run.value[i])};
    }
    forall x
      ensures x in keys <==>
        exists y :: y in db && KeyOfVersion(kind, version, y) && Fits(len, y)
                    && (x == Encode(h.key, len, y) || x == Target(kind, Encode(h.key, len, y)))
    {
      IndexKeyIs(h, len, db, kind, version, run.value, keys, x);
    }
  }

  lemma {:induction false} IndexKeyIs(
    h: Hashing, len: nat, db: Db, kind: VersionedKind, version: nat, run: seq<Bytes>, keys: set<Bytes>, x: Bytes)
    requires IsWalk(h, len, db, kind, version, run)
    requires x in keys <==> exists j :: 0 <= j < |run| && (x == run[j] || x == Target(kind, run[j]))
    ensures x in keys <==>
      exists y :: y in db && KeyOfVersion(kind, version, y) && Fits(len, y)
                  && (x == Encode(h.key, len, y) || x == Target(kind, Encode(h.key, len, y)))
  {
    hide Encode, Fits, KeyOfVersion, Target;
    if x in keys {
      var j :| 0 <= j < |run| && (x == run[j] || x == Target(kind, run[j]));
      assert run[j] in run;
      var y :| y in db && KeyOfVersion(kind, version, y) && Fits(len, y) && Encode(h.key, len, y) == run[j];
    }
    if y :| y in db && KeyOfVersion(kind, version, y) && Fits(len, y)
            && (x == Encode(h.key, len, y) || x == Target(kind, Encode(h.key, len, y))) {
      assert Encode(h.key, len, y) in run;
      var j :| 0 <= j < |run| && run[j] == Encode(h.key, len, y);
    }
  }

  /** A key that pruning removes is among the keys collected. */
  lemma {:induction false} PrunedIsDeleted(
    h: Hashing, len: nat, used: set<Key>, b: ByteDb, db: Db, temps: map<nat, RawBlock>, node: Node, id: nat,
    stale: set<Bytes>, npStale: set<Bytes>, y: DbKey)
    requires Stores(h, len, used, b, db, temps) && InWidth(id, ID_SIZE)
    requires IndexKeys(h, len, db, StaleKeys, node.version, stale) && IndexKeys(h, len, db, NpStaleKeys, id, npStale)
    requires y in db && DiesWithGenesis(db, node, id, y)
    ensures Fits(len, y)
    ensures var x := Encode(h.key, len, y);
      x == GenBlockDbKey(id) || x in stale || x in npStale
  {
    hide StoresValue, StoresKeys, Target, Encode, GenBlockDbKey, BigEndian, Pow256;
    Stored(h.key, len, used, b.Keys, db, temps, y);
    if y == BlockKey(id) {
      NodeIsRead(h, len, used, b, db, temps, id);
    } else if StaleKey(node.version, y) in db {
      Stored(h.key, len, used, b.Keys, db, temps, StaleKey(node.version, y));
      TargetIs(h, len, StaleKeys, node.version, StaleKey(node.version, y));
    } else if NpStaleKey(id, y) in db {
      Stored(h.key, len, used, b.Keys, db, temps, NpStaleKey(id, y));
      TargetIs(h, len, NpStaleKeys, id, NpStaleKey(id, y));
    } else if y.StaleKey? {
      assert KeyOfVersion(StaleKeys, node.version, y);
    } else {
      assert KeyOfVersion(NpStaleKeys, id, y);
    }
  }

  /** A collected key that is in the database is removed by pruning. */
  lemma {:induction false} DeletedIsPruned(
    h: Hashing, len: nat, used: set<Key>, b: ByteDb, db: Db, temps: map<nat, RawBlock>, node: Node, id: nat,
    kind: VersionedKind, keys: set<Bytes>, x: Bytes) returns (y: DbKey)
    requires Stores(h, len, used, b, db, temps) && kind != InternalKeys
    requires IndexKeys(h, len, db, kind, if kind == StaleKeys then node.version else id, keys) && x in keys && x in b
    ensures y in db && DiesWithGenesis(db, node, id, y) && Fits(len, y) && Encode(h.key, len, y) == x
  {
    hide StoresValue, StoresKeys, Target, Encode, BigEndian, Pow256;
    var version := if kind == StaleKeys then node.version else id;
    var z :| z in db && KeyOfVersion(kind, version, z) && Fits(len, z)
             && (x == Encode(h.key, len, z) || x == Target(kind, Encode(h.key, len, z)));
    if x == Encode(h.key, len, z) {
      y := z;
    } else {
      TargetIs(h, len, kind, version, z);
      Stored(h.key, len, used, b.Keys, db, temps, z);
      StoredKeyIs(h, len, used, b, db, temps, z.target);
      y := z.target;
    }
  }

  /** genesisBlockKeyDeletes. */
  method GenesisBlockKeyDeletes(
    h: Hashing, ghost len: nat, ghost used: set<Key>, b: ByteDb, ghost db: Db, ghost temps: map<nat, RawBlock>, id: nat)
    returns (r: Result<set<Bytes>>)
    requires Stores(h, len, used, b, db, temps) && InWidth(id, ID_SIZE)
    ensures match NodeAt(db, id)
      case None => r == Err(RuntimeError)
      case Some(node) => r.Ok? && DeletesExactly(h, len, b, db, y => DiesWithGenesis(db, node, id, y), r.value)
  {
    hide StoresValue, StoresKeys, Encode, Fits, DiesWithGenesis, IndexKeys, GenBlockDbKey, DecodeBlockNode, BigEndian,
         Pow256;
    NodeIsRead(h, len, used, b, db, temps, id);
    if GenBlockDbKey(id) !in b {
      return Err(RuntimeError);
    }
    var node := DecodeBlockNode(b[GenBlockDbKey(id)]).value;
    var stale := IndexKeyDeletes(h, len, used, b, db, temps, StaleKeys, node.version);
    var npStale := IndexKeyDeletes(h, len, used, b, db, temps, NpStaleKeys, id);
    var keys := {GenBlockDbKey(id)} + stale + npStale;
    PruneExact(h, len, used, b, db, temps, NodeAt(db, id).value, id, stale, npStale, keys);
    r := Ok(keys);
  }

  lemma {:induction false} PruneExact(
    h: Hashing, len: nat, used: set<Key>, b: ByteDb, db: Db, temps: map<nat, RawBlock>, node: Node, id: nat,
    stale: set<Bytes>, npStale: set<Bytes>, keys: set<Bytes>)
    requires Stores(h, len, used, b, db, temps) && NodeAt(db, id) == Some(node) && InWidth(id, ID_SIZE)
    requires IndexKeys(h, len, db, StaleKeys, node.version, stale) && IndexKeys(h, len, db, NpStaleKeys, id, npStale)
    requires keys == {GenBlockDbKey(id)} + stale + npStale
    ensures DeletesExactly(h, len, b, db, y => DiesWithGenesis(db, node, id, y), keys)
  {
    hide Stores, StoresValue, StoresKeys, Encode, Fits, DiesWithGenesis, IndexKeys, GenBlockDbKey, BigEndian, Pow256;
    forall y | y in db && DiesWithGenesis(db, node, id, y)
      ensures Fits(len, y) && Encode(h.key, len, y) in keys
    {
      PrunedIsDeleted(h, len, used, b, db, temps, node, id, stale, npStale, y);
    }
    forall x | x in keys && x in b
      ensures exists y :: y in db && DiesWithGenesis(db, node, id, y) && Fits(len, y) && Encode(h.key, len, y) == x
    {
      if x == GenBlockDbKey(id) {
        BlockIsPruned(h, len, used, b, db, temps, node, id);
      } else if x in stale {
        var y := DeletedIsPruned(h, len, used, b, db, temps, node, id, StaleKeys, stale, x);
      } else {
        var y := DeletedIsPruned(h, len, used, b, db, temps, node, id, NpStaleKeys, npStale, x);
      }
    }
  }

  lemma {:induction false} BlockIsPruned(
    h: Hashing, len: nat, used: set<Key>, b: ByteDb, db: Db, temps: map<nat, RawBlock>, node: Node, id: nat)
    requires Stores(h, len, used, b, db, temps) && NodeAt(db, id) == Some(node) && InWidth(id, ID_SIZE)
    ensures exists y ::
      y in db && DiesWithGenesis(db, node, id, y) && Fits(len, y) && Encode(h.key, len, y) == GenBlockDbKey(id)
  {
    hide StoresValue, StoresKeys, GenBlockDbKey, BigEndian, Pow256;
    var y := BlockKey(id);
    assert y in db && DiesWithGenesis(db, node, id, y) && Fits(len, y) && Encode(h.key, len, y) == GenBlockDbKey(id);
  }

  /** deleteGenesisBlock on the bytes is deleteGenesisBlock on the typed database. */
  method DeleteGenesisBytes(
    cfg: Config, h: Hashing, ghost len: nat, ghost used: set<Key>, b: ByteDb, ghost s: Ledger,
    ghost temps: map<nat, RawBlock>, genesis: nat, last: nat) returns (r: Result<ByteDb>)
    requires Stores(h, len, used, b, s.db, temps) && genesis == s.genesis && last == s.last && InWidth(genesis, ID_SIZE)
    ensures r.Ok? <==> DeleteGenesis(cfg, s).Ok?
    ensures r.Ok? ==> Stores(h, len, used, r.value, DeleteGenesis(cfg, s).value.db, temps)
  {
    hide Stores, DiesWithGenesis, DeletesExactly;
    if genesis < INITIAL_GENESIS_BLOCK_ID || genesis == last {
      return Err(Aborted);
    }
    var keys := GenesisBlockKeyDeletes(h, len, used, b, s.db, temps, genesis);
    if keys.Err? {
      return Err(keys.error);
    }
    ghost var node := NodeAt(s.db, genesis).value;
    RemoveKeepsStores(h, len, used, b, s.db, temps, y => DiesWithGenesis(s.db, node, genesis, y), keys.value);
    r := Ok(b - keys.value);
  }
}
