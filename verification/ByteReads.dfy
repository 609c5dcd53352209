/** getValue as it runs: seeks in the byte keys and decoding of what they find. */
module ByteReads {
  import opened Common
  import opened SparseTree
  import opened AdapterSpec
  import opened ChainView
  import opened Reading
  import opened ByteOrder
  import opened KeyCodec
  import opened BlockCodec
  import opened ByteQueries
  import RawBlockCodec

  type ByteDb = map<Bytes, Bytes>

  /** How the typed database is hashed and digested. */
  datatype Hashing = Hashing(key: Hasher, digest: Digest -> Hash, state: StateHash -> Hash)

  function NodeBytes(h: Hashing, node: Node): BlockNode {
    BlockNode(node.id, h.digest(node.parentDigest), h.state(node.stateHash), node.version, node.keys)
  }

  /** The bytes stored for a value; those of internal nodes and index entries are not read by getValue. */
  ghost predicate StoresValue(h: Hashing, bytes: Bytes, v: DbVal) {
    match v
    case NodeVal(node) =>
      && IdsFit(NodeBytes(h, node)) && (forall k :: k in node.keys ==> ShortKey(k))
      && exists order :: IsOrder(node.keys.Keys, order) && bytes == EncodeBlockNode(NodeBytes(h, node), order)
    case LeafVal(leaf) => LeafFits(leaf) && leaf.deletedIn != Some(INVALID_BLOCK_ID) && bytes == EncodeLeaf(leaf)
    case NpVal(value) => bytes == value
    case _ => true
  }

  /** The bytes stored for a block that waits: the raw block as it was received. */
  ghost predicate StoresRaw(h: Hashing, bytes: Bytes, raw: RawBlock) {
    && RawBlockCodec.InBounds(raw.updates, EncodeMerkleData(MerkleData(h.state(raw.stateHash), raw.deletes)))
    && bytes == RawBlockCodec.MerkleBlock(
         raw.updates, raw.deletes, h.digest(raw.parentDigest), h.state(raw.stateHash))
  }

  /** Every block that waits is stored under its key. */
  ghost predicate StoresTemps(h: Hashing, b: ByteDb, temps: map<nat, RawBlock>) {
    forall i :: i in temps ==>
      InWidth(i, ID_SIZE) && GenSTTempBlockKey(i) in b && StoresRaw(h, b[GenSTTempBlockKey(i)], temps[i])
  }

  /** A byte database that holds the typed one, temporary blocks and the keys of other components. */
  ghost predicate Stores(h: Hashing, len: nat, used: set<Key>, b: ByteDb, db: Db, temps: map<nat, RawBlock>) {
    && StoresKeys(h.key, len, used, b.Keys, db, temps)
    && (forall y :: y in db ==>
         Fits(len, y) && Encode(h.key, len, y) in b && StoresValue(h, b[Encode(h.key, len, y)], db[y]))
    && (forall y :: y in db && db[y].NodeVal? ==> db[y].node.keys.Keys <= used)
    && StoresTemps(h, b, temps)
  }

  /** getValue for a provable key: the version of the block at or below v, then the leaf at or below it. */
  function GetProvableBytes(hash: Hasher, b: ByteDb, k: Key, v: nat): Result<(Value, nat)>
    requires InWidth(v, ID_SIZE)
  {
    match SeekAtMost(b.Keys, GenBlockDbKey(v))
    case None => Err(NotFound)
    case Some(blockKey) =>
      var t :- DbKeyType(blockKey);
      if t != BLOCK then Err(NotFound)
      else
        var version :- DecodeStateRootVersion(b[blockKey]);
        var found :- SeekLeaf(hash, b.Keys, k, version);
        if found.None? then Err(NotFound)
        else
          var leaf :- DecodeLeaf(b[found.value]);
          if leaf.deletedIn.Some? && leaf.deletedIn.value <= v then Err(NotFound)
          else Ok((leaf.value, leaf.addedIn))
  }

  /** getValue. */
  function GetValueBytes(cfg: Config, hash: Hasher, b: ByteDb, k: Key, v: nat): Result<(Value, nat)>
    requires InWidth(v, ID_SIZE)
  {
    if k in cfg.nonProvable then
      var found :- SeekNonProvable(b.Keys, k, v);
      if found.Some? then Ok((b[GenNonProvableDbKey(found.value, k)], found.value))
      else GetProvableBytes(hash, b, k, v)
    else GetProvableBytes(hash, b, k, v)
  }

  function GetProvable(db: Db, k: Key, v: nat): Result<(Value, nat)> {
    if BlockAtMost(db, v).None? then Err(NotFound)
    else
      var version := NodeAt(db, BlockAtMost(db, v).value).value.version;
      if LeafAtMost(db, k, version).None? then Err(NotFound)
      else
        var leaf := LeafAt(db, k, LeafAtMost(db, k, version).value).value;
        if leaf.deletedIn.Some? && leaf.deletedIn.value <= v then Err(NotFound)
        else Ok((leaf.value, leaf.addedIn))
  }

  /** The block found by the seek, by its key. */
  lemma {:induction false} BlockFound(
    h: Hashing, len: nat, used: set<Key>, b: ByteDb, db: Db, temps: map<nat, RawBlock>, v: nat)
    requires Stores(h, len, used, b, db, temps) && InWidth(v, ID_SIZE)
    ensures var found := SeekAtMost(b.Keys, GenBlockDbKey(v));
      match BlockAtMost(db, v)
      case Some(i) =>
        && BlockKey(i) in db && found == Some(Encode(h.key, len, BlockKey(i))) && DbKeyType(found.value) == Ok(BLOCK)
        && DecodeStateRootVersion(b[found.value]) == Ok(NodeAt(db, i).value.version)
        && InWidth(NodeAt(db, i).value.version, ID_SIZE)
      case None => found.None? || (DbKeyType(found.value).Ok? && DbKeyType(found.value) != Ok(BLOCK))
  {
    hide BigEndian, Pow256, FromBigEndian, DecodeStateRootVersion, EncodeBlockNode, IsOrder, ShortKey, StoresKeys,
         BlockAtMost;
    SeekBlockIsNewest(h.key, len, used, b.Keys, db, temps, v);
    var found := SeekAtMost(b.Keys, GenBlockDbKey(v));
    if found.Some? {
      var y := ReadKey(h.key, len, used, b.Keys, db, temps, found.value);
      if y.Some? && y.value.BlockKey? {
        Stored(h.key, len, used, b.Keys, db, temps, y.value);
        var node := db[y.value].node;
        var order :| IsOrder(node.keys.Keys, order) && b[found.value] == EncodeBlockNode(NodeBytes(h, node), order);
        BlockNodeRoundTrip(NodeBytes(h, node), order);
      }
    }
  }

  lemma {:induction false} ProvableBytesRead(
    h: Hashing, len: nat, used: set<Key>, b: ByteDb, db: Db, temps: map<nat, RawBlock>, k: Key, v: nat)
    requires Stores(h, len, used, b, db, temps) && InWidth(v, ID_SIZE) && k in used
    ensures GetProvableBytes(h.key, b, k, v) == GetProvable(db, k, v)
  {
    hide BigEndian, Pow256, DecodeStateRootVersion, SeekLeaf, DecodeLeaf, EncodeLeaf, StoresKeys, LeafAtMost,
         BlockAtMost;
    BlockFound(h, len, used, b, db, temps, v);
    if BlockAtMost(db, v).Some? {
      var version := NodeAt(db, BlockAtMost(db, v).value).value.version;
      SeekLeafIsNewest(h.key, len, used, b.Keys, db, temps, k, version);
      var newest := LeafAtMost(db, k, version);
      if newest.Some? {
        LeafRoundTrip(LeafAt(db, k, newest.value).value);
      }
    }
  }

  /** Reading through the bytes is reading the typed database. */
  lemma {:induction false} BytesRead(
    cfg: Config, h: Hashing, len: nat, used: set<Key>, b: ByteDb, db: Db, temps: map<nat, RawBlock>, k: Key, v: nat)
    requires Stores(h, len, used, b, db, temps) && InWidth(v, ID_SIZE) && k in used
    requires forall l :: l in cfg.nonProvable ==> |l| == len
    ensures GetValueBytes(cfg, h.key, b, k, v) == GetValue(cfg, db, k, v)
  {
    hide BigEndian, Pow256, SeekNonProvable, GetProvableBytes;
    ProvableBytesRead(h, len, used, b, db, temps, k, v);
    if k in cfg.nonProvable {
      SeekNonProvableIsNewest(h.key, len, used, b.Keys, db, temps, k, v);
      if NpAtMost(db, k, v).Some? {
        var y := NpKey(k, NpAtMost(db, k, v).value);
        assert y in db && Encode(h.key, len, y) in b;
      }
    }
  }

  /** From the bytes of the database, a read at any block of the chain gives what the history says. */
  lemma {:induction false} BytesReadHistory(
    cfg: Config, h: Hashing, len: nat, used: set<Key>, b: ByteDb, s: Ledger, c: Chain, temps: map<nat, RawBlock>,
    k: Key, v: nat)
    requires Inv(cfg, s, c) && Stores(h, len, used, b, s.db, temps) && InWidth(v, ID_SIZE) && k in used
    requires forall l :: l in cfg.nonProvable ==> |l| == len
    requires 1 <= s.genesis <= v <= s.last
    ensures GetValueBytes(cfg, h.key, b, k, v) == ReadHistory(c, k, v)
  {
    hide GetValueBytes, GetValue, ReadHistory, Stores;
    BytesRead(cfg, h, len, used, b, s.db, temps, k, v);
    ReadsRefineHistory(cfg, s.db, c, s.genesis, k, v);
  }
}
