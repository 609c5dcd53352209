/**
 * The adapter looks keys up by seeking in an ordered byte-key space. Each such query
 * finds what the query on typed keys finds.
 */
module ByteQueries {
  import opened Common
  import opened SparseTree
  import opened AdapterSpec
  import opened Linking
  import opened ByteOrder
  import opened KeyCodec

  // ---------- prefixes ----------

  lemma {:induction false} PrefixAtMost(p: Bytes, x: Bytes)
    requires p <= x
    ensures AtMost(p, x)
  {
    if p != x {
      PrefixIsLess(p, x);
    }
  }

  /** What lies between a prefix and a string that has it also has it. */
  lemma {:induction false} PrefixConvex(p: Bytes, y: Bytes, z: Bytes)
    requires p <= z && AtMost(p, y) && AtMost(y, z)
    ensures p <= y
  {
    if p != [] && y != z {
      if p == y {
      } else {
        assert y[0] == p[0];
        PrefixConvex(p[1..], y[1..], z[1..]);
        assert p == [p[0]] + p[1..] && y == [y[0]] + y[1..];
      }
    }
  }

  lemma {:induction false} AtMostTransitive(a: Bytes, b: Bytes, c: Bytes)
    requires AtMost(a, b) && AtMost(b, c)
    ensures AtMost(a, c)
  {
    if a != b && b != c {
      LessTransitive(a, b, c);
    }
  }

  /** Between two strings with one prefix. */
  lemma {:induction false} SamePrefix(p: Bytes, x: Bytes, y: Bytes, z: Bytes)
    requires p <= x && p <= z && AtMost(x, y) && AtMost(y, z)
    ensures p <= y
  {
    PrefixAtMost(p, x);
    AtMostTransitive(p, x, y);
    PrefixConvex(p, y, z);
  }

  // ---------- what the database holds ----------

  /** Keys that other components keep in the same database. */
  predicate Foreign(x: Bytes) {
    |x| > 1 && ((x[0] == BFT && x[1] <= 6 && x[1] != ST_TEMP_BLOCK) || x[0] == MIGRATION)
  }

  ghost predicate CollisionFree(hash: Hasher, used: set<Key>) {
    forall k, l :: k in used && l in used && hash(k) == hash(l) ==> k == l
  }

  predicate ValueFits(y: DbKey, v: DbVal) {
    match y
    case BlockKey(_) => v.NodeVal?
    case InternalKey(_, _) => v.InternalVal?
    case LeafKey(_, _) => v.LeafVal?
    case NpKey(_, _) => v.NpVal?
    case _ => v.Marker?
  }

  /** The keys whose hashes a database key holds, directly or in an index entry, are among the used ones. */
  predicate UsesOnly(used: set<Key>, y: DbKey) {
    match y
    case LeafKey(k, _) => k in used
    case StaleKey(_, target) => UsesOnly(used, target)
    case NpStaleKey(_, target) => UsesOnly(used, target)
    case _ => true
  }

  ghost predicate IsChainKey(hash: Hasher, len: nat, db: Db, x: Bytes) {
    exists y :: y in db && Fits(len, y) && Encode(hash, len, y) == x
  }

  ghost predicate IsTempKey(temps: map<nat, RawBlock>, x: Bytes) {
    exists i: nat :: i in temps && InWidth(i, ID_SIZE) && GenSTTempBlockKey(i) == x
  }

  /** The byte keys of a database, of its temporary blocks and of other components; used keys do not collide. */
  ghost predicate StoresKeys(
    hash: Hasher, len: nat, used: set<Key>, keys: set<Bytes>, db: Db, temps: map<nat, RawBlock>)
  {
    && CollisionFree(hash, used)
    && (forall y :: y in db ==> Fits(len, y) && Encode(hash, len, y) in keys && ValueFits(y, db[y]))
    && (forall y :: y in db ==> UsesOnly(used, y))
    && (forall i :: i in temps ==> InWidth(i, ID_SIZE) && GenSTTempBlockKey(i) in keys)
    && (forall x :: x in keys ==> Foreign(x) || IsTempKey(temps, x) || IsChainKey(hash, len, db, x))
  }

  lemma {:induction false} Stored(
    hash: Hasher, len: nat, used: set<Key>, keys: set<Bytes>, db: Db, temps: map<nat, RawBlock>, y: DbKey)
    requires StoresKeys(hash, len, used, keys, db, temps) && y in db
    ensures Fits(len, y) && Encode(hash, len, y) in keys && ValueFits(y, db[y]) && UsesOnly(used, y)
    ensures y.LeafKey? ==> y.key in used
  {
  }

  lemma {:induction false} SameHash(
    hash: Hasher, len: nat, used: set<Key>, keys: set<Bytes>, db: Db, temps: map<nat, RawBlock>, k: Key, y: DbKey)
    requires StoresKeys(hash, len, used, keys, db, temps) && k in used
    requires y in db && y.LeafKey? && hash(y.key) == hash(k)
    ensures y.key == k
  {
  }

  lemma {:induction false} KeyTag(hash: Hasher, len: nat, y: DbKey)
    requires Fits(len, y)
    ensures var x := Encode(hash, len, y);
      |x| > 1 && x[0] == if y.BlockKey? then BLOCK else KEY
  {
    hide BigEndian, Pow256, Pack;
  }

  lemma {:induction false} TempTag(i: nat)
    requires InWidth(i, ID_SIZE)
    ensures var x := GenSTTempBlockKey(i);
      |x| > 1 && x[0] == BFT && x[1] == ST_TEMP_BLOCK
  {
    hide BigEndian, Pow256;
  }

  /** The type bytes of a stored key can be read, and a chain key is told from the others by them. */
  lemma {:induction false} ReadKey(
    hash: Hasher, len: nat, used: set<Key>, keys: set<Bytes>, db: Db, temps: map<nat, RawBlock>, x: Bytes)
    returns (y: Option<DbKey>)
    requires StoresKeys(hash, len, used, keys, db, temps) && x in keys
    ensures DbKeyType(x).Ok? && |x| > 1
    ensures y.Some? ==>
      y.value in db && Fits(len, y.value) && Encode(hash, len, y.value) == x && Extracts(hash, len, y.value)
    ensures DbKeyType(x).value in {BLOCK, KEY} <==> y.Some?
    ensures DbKeyType(x).value == BFT ==> BftSubtype(x).Ok? && (x[1] == ST_TEMP_BLOCK ==> IsTempKey(temps, x))
  {
    hide Extracts, Encode, GenSTTempBlockKey, BigEndian, Pow256, Fits;
    y := None;
    if i: nat :| i in temps && InWidth(i, ID_SIZE) && GenSTTempBlockKey(i) == x {
      TempTag(i);
    }
    if !Foreign(x) && !IsTempKey(temps, x) {
      var k :| k in db && Fits(len, k) && Encode(hash, len, k) == x;
      ExtractorsInvert(hash, len, k);
      KeyTag(hash, len, k);
      y := Some(k);
    }
  }

  // ---------- leaves ----------

  /** getLeafKeyValAtMostVersion, for the key found. */
  function SeekLeaf(hash: Hasher, keys: set<Bytes>, k: Key, w: nat): (r: Result<Option<Bytes>>)
    requires InWidth(w, ID_SIZE)
    ensures r.Ok? && r.value.Some? ==> r.value.value in keys
  {
    match SeekAtMost(keys, GenDataDbKey(hash(k), w))
    case None => Ok(None)
    case Some(x) =>
      var t :- DbKeyType(x);
      if t != KEY then Ok(None)
      else
        var subtype :- KeySubtype(x);
        if subtype != LEAF then Ok(None)
        else
          var h :- ExtractHashFromLeafKey(x);
          Ok(if h == hash(k) then Some(x) else None)
  }

  /** A key found by the seek is the newest leaf at or below the bound. */
  lemma {:induction false} LeafFound(
    hash: Hasher, len: nat, used: set<Key>, keys: set<Bytes>, db: Db, temps: map<nat, RawBlock>, k: Key, w: nat, u: nat)
    requires StoresKeys(hash, len, used, keys, db, temps) && k in used && InWidth(w, ID_SIZE)
    requires Fits(len, LeafKey(k, u)) && LeafKey(k, u) in db
    requires SeekAtMost(keys, GenDataDbKey(hash(k), w)) == Some(Encode(hash, len, LeafKey(k, u)))
    ensures LeafAtMost(db, k, w) == Some(u)
  {
    hide StoresKeys, BigEndian, Pow256, FromBigEndian, Less, Extracts;
    EncodingIsOrderEmbedding(hash, len, LeafKey(k, u), LeafKey(k, w));
    LessIrreflexive(hash(k));
    Stored(hash, len, used, keys, db, temps, LeafKey(k, u));
    assert u <= w && LeafAt(db, k, u).Some?;
    forall v: nat | u < v <= w
      ensures LeafAt(db, k, v).None?
    {
      if LeafKey(k, v) in db {
        Stored(hash, len, used, keys, db, temps, LeafKey(k, v));
        EncodingIsOrderEmbedding(hash, len, LeafKey(k, v), LeafKey(k, w));
        EncodingIsOrderEmbedding(hash, len, LeafKey(k, v), LeafKey(k, u));
      }
    }
  }

  /** The seek for a leaf finds exactly the newest leaf of the key at or below the bound. */
  lemma {:induction false} SeekLeafIsNewest(
    hash: Hasher, len: nat, used: set<Key>, keys: set<Bytes>, db: Db, temps: map<nat, RawBlock>, k: Key, w: nat)
    requires StoresKeys(hash, len, used, keys, db, temps) && k in used && InWidth(w, ID_SIZE)
    ensures match LeafAtMost(db, k, w)
      case Some(u) => Fits(len, LeafKey(k, u)) && SeekLeaf(hash, keys, k, w) == Ok(Some(Encode(hash, len, LeafKey(k, u))))
      case None => SeekLeaf(hash, keys, k, w) == Ok(None)
  {
    hide StoresKeys, BigEndian, Pow256, FromBigEndian, Less, LeafAtMost;
    var target, found := GenDataDbKey(hash(k), w), SeekAtMost(keys, GenDataDbKey(hash(k), w));
    var newest := LeafAtMost(db, k, w);
    if newest.Some? {
      var y := LeafKey(k, newest.value);
      Stored(hash, len, used, keys, db, temps, y);
      EncodingIsOrderEmbedding(hash, len, y, LeafKey(k, w));
      SamePrefix([KEY, LEAF] + hash(k), Encode(hash, len, y), found.value, target);
    }
    if found.Some? {
      var y := ReadKey(hash, len, used, keys, db, temps, found.value);
      if y.Some? && y.value.LeafKey? && hash(y.value.key) == hash(k) {
        SameHash(hash, len, used, keys, db, temps, k, y.value);
        LeafFound(hash, len, used, keys, db, temps, k, w, y.value.version);
      }
    }
  }

  // ---------- non-provable keys ----------

  /** getValueForNonProvableKey, for the block found. */
  function SeekNonProvable(keys: set<Bytes>, k: Key, v: nat): (r: Result<Option<nat>>)
    requires InWidth(v, ID_SIZE)
    ensures r.Ok? && r.value.Some? ==>
      InWidth(r.value.value, ID_SIZE) && GenNonProvableDbKey(r.value.value, k) in keys
  {
    match SeekAtMost(keys, GenNonProvableDbKey(v, k))
    case None => Ok(None)
    case Some(x) =>
      var t :- DbKeyType(x);
      if t != KEY then Ok(None)
      else
        var subtype :- KeySubtype(x);
        if subtype != NON_PROVABLE then Ok(None)
        else
          var found :- ExtractKeyFromNonProvableKey(x);
          if found != k then Ok(None)
          else
            var id :- ExtractBlockIdFromNonProvableKey(x);
            Rebuilt(x);
            Ok(Some(id))
  }

  /** A non-provable key is made of the key and the block id read from it. */
  lemma {:induction false} Rebuilt(x: Bytes)
    requires |x| >= 2 + ID_SIZE && HasSubtype(x, NON_PROVABLE)
    ensures GenNonProvableDbKey(FromBigEndian(x[|x| - ID_SIZE..]), x[2..|x| - ID_SIZE]) == x
  {
    BigEndianInverse(x[|x| - ID_SIZE..]);
    assert x == x[..2] + (x[2..|x| - ID_SIZE] + x[|x| - ID_SIZE..]);
    assert x[..2] == [KEY, NON_PROVABLE];
  }

  lemma {:induction false} NonProvableFound(
    hash: Hasher, len: nat, used: set<Key>, keys: set<Bytes>, db: Db, temps: map<nat, RawBlock>, k: Key, v: nat, i: nat)
    requires StoresKeys(hash, len, used, keys, db, temps) && |k| == len && InWidth(v, ID_SIZE)
    requires Fits(len, NpKey(k, i)) && NpKey(k, i) in db
    requires SeekAtMost(keys, GenNonProvableDbKey(v, k)) == Some(Encode(hash, len, NpKey(k, i)))
    ensures NpAtMost(db, k, v) == Some(i)
  {
    hide StoresKeys, BigEndian, Pow256, FromBigEndian, Less, Extracts;
    EncodingIsOrderEmbedding(hash, len, NpKey(k, i), NpKey(k, v));
    LessIrreflexive(k);
    Stored(hash, len, used, keys, db, temps, NpKey(k, i));
    assert i <= v && NpAt(db, k, i).Some?;
    forall j: nat | i < j <= v
      ensures NpAt(db, k, j).None?
    {
      if NpKey(k, j) in db {
        Stored(hash, len, used, keys, db, temps, NpKey(k, j));
        EncodingIsOrderEmbedding(hash, len, NpKey(k, j), NpKey(k, v));
        EncodingIsOrderEmbedding(hash, len, NpKey(k, j), NpKey(k, i));
      }
    }
  }

  lemma {:induction false} NonProvablePrefix(k: Key, l: Key, i: nat)
    requires |k| == |l| && InWidth(i, ID_SIZE) && [KEY, NON_PROVABLE] + k <= GenNonProvableDbKey(i, l)
    ensures k == l
  {
    hide BigEndian, Pow256;
    var x := GenNonProvableDbKey(i, l);
    assert x[2..2 + |k|] == k;
    assert x[2..2 + |l|] == l;
  }

  /** Among non-provable keys of one length, the seek finds the last block that wrote the key. */
  lemma {:induction false} SeekNonProvableIsNewest(
    hash: Hasher, len: nat, used: set<Key>, keys: set<Bytes>, db: Db, temps: map<nat, RawBlock>, k: Key, v: nat)
    requires StoresKeys(hash, len, used, keys, db, temps) && |k| == len && InWidth(v, ID_SIZE)
    ensures SeekNonProvable(keys, k, v) == Ok(NpAtMost(db, k, v))
  {
    hide StoresKeys, BigEndian, Pow256, FromBigEndian, Less, NpAtMost;
    var target, found := GenNonProvableDbKey(v, k), SeekAtMost(keys, GenNonProvableDbKey(v, k));
    var newest := NpAtMost(db, k, v);
    if newest.Some? {
      var y := NpKey(k, newest.value);
      Stored(hash, len, used, keys, db, temps, y);
      EncodingIsOrderEmbedding(hash, len, y, NpKey(k, v));
      SamePrefix([KEY, NON_PROVABLE] + k, Encode(hash, len, y), found.value, target);
    }
    if found.Some? {
      var y := ReadKey(hash, len, used, keys, db, temps, found.value);
      if y.Some? && y.value.NpKey? {
        if newest.Some? {
          NonProvablePrefix(k, y.value.key, y.value.id);
        }
        if y.value.key == k {
          NonProvableFound(hash, len, used, keys, db, temps, k, v, y.value.id);
        }
      }
    }
  }

  /** A key is missed when an entry of another key lies between its entry and the bound. */
  lemma {:induction false} BetweenMisses(k: Key, l: Key, i: nat, j: nat, v: nat)
    requires k != l && InWidth(i, ID_SIZE) && InWidth(j, ID_SIZE) && InWidth(v, ID_SIZE)
    requires Less(GenNonProvableDbKey(i, k), GenNonProvableDbKey(j, l))
    requires Less(GenNonProvableDbKey(j, l), GenNonProvableDbKey(v, k))
    ensures SeekNonProvable({GenNonProvableDbKey(i, k), GenNonProvableDbKey(j, l)}, k, v) == Ok(None)
  {
    hide Less, BigEndian, Pow256;
    var x, y := GenNonProvableDbKey(i, k), GenNonProvableDbKey(j, l);
    var found := SeekAtMost({x, y}, GenNonProvableDbKey(v, k));
    assert AtMost(y, found.value);
    LessAsymmetric(x, y);
    assert found.value == y;
    ExtractsNp(_ => seq(32, _ => 0), |l|, l, j);
  }

  lemma {:induction false} ZeroId(w: nat)
    ensures InWidth(0, w) && BigEndian(0, w) == seq(w, _ => 0)
  {
    if w > 0 {
      ZeroId(w - 1);
    }
  }

  lemma {:induction false} SmallId(n: nat, w: nat)
    requires w >= 2 && n < 65536
    ensures InWidth(n, w) && BigEndian(n, w) == seq(w - 2, _ => 0) + [n / 256, n % 256]
  {
    ZeroId(w - 2);
    assert Pow256(w) == 256 * Pow256(w - 1) && Pow256(w - 1) == 256 * Pow256(w - 2);
    assert n / 256 / 256 == 0;
    assert BigEndian(n / 256, w - 1) == BigEndian(0, w - 2) + [n / 256];
    assert BigEndian(n, w) == BigEndian(n / 256, w - 1) + [n % 256];
  }

  /** With keys of different lengths the seek can miss a key that is there. */
  lemma {:induction false} UnequalLengthsMiss()
    ensures InWidth(1, ID_SIZE) && InWidth(3, ID_SIZE) && InWidth(256, ID_SIZE)
    ensures SeekNonProvable({GenNonProvableDbKey(1, [97]), GenNonProvableDbKey(256, [97, 0])}, [97], 3) == Ok(None)
  {
    hide BigEndian, Pow256;
    SmallId(1, ID_SIZE);
    SmallId(3, ID_SIZE);
    SmallId(256, ID_SIZE);
    var x, y, target := GenNonProvableDbKey(1, [97]), GenNonProvableDbKey(256, [97, 0]), GenNonProvableDbKey(3, [97]);
    var p: Bytes := [KEY, NON_PROVABLE, 97, 0, 0, 0, 0, 0, 0, 0];
    assert x == p + [1] && y == p + [1, 0] && target == p + [3];
    LessFields(p, p, [1], [1, 0]);
    LessFields(p, p, [1, 0], [3]);
    LessIrreflexive(p);
    BetweenMisses([97], [97, 0], 1, 256, 3);
  }

  // ---------- blocks ----------

  /** The seek of getValue for the block whose state root version a read uses. */
  function SeekBlock(keys: set<Bytes>, v: nat): Result<Option<nat>>
    requires InWidth(v, ID_SIZE)
  {
    match SeekAtMost(keys, GenBlockDbKey(v))
    case None => Ok(None)
    case Some(x) =>
      var t :- DbKeyType(x);
      if t != BLOCK then Ok(None)
      else
        var id :- ExtractBlockIdFromKey(x);
        Ok(Some(id))
  }

  lemma {:induction false} SeekBlockIsNewest(
    hash: Hasher, len: nat, used: set<Key>, keys: set<Bytes>, db: Db, temps: map<nat, RawBlock>, v: nat)
    requires StoresKeys(hash, len, used, keys, db, temps) && InWidth(v, ID_SIZE)
    ensures SeekBlock(keys, v) == Ok(BlockAtMost(db, v))
  {
    hide StoresKeys, BigEndian, Pow256, FromBigEndian, Less, BlockAtMost;
    var target, found := GenBlockDbKey(v), SeekAtMost(keys, GenBlockDbKey(v));
    var newest := BlockAtMost(db, v);
    if newest.Some? {
      var y := BlockKey(newest.value);
      Stored(hash, len, used, keys, db, temps, y);
      EncodingIsOrderEmbedding(hash, len, y, BlockKey(v));
      SamePrefix([BLOCK], Encode(hash, len, y), found.value, target);
    }
    if found.Some? {
      var y := ReadKey(hash, len, used, keys, db, temps, found.value);
      if y.Some? && y.value.BlockKey? {
        var i := y.value.id;
        Stored(hash, len, used, keys, db, temps, y.value);
        EncodingIsOrderEmbedding(hash, len, BlockKey(i), BlockKey(v));
        assert i <= v && NodeAt(db, i).Some?;
        EncodingIsOrderEmbedding(hash, len, BlockKey(newest.value), BlockKey(i));
      }
    }
  }

  // ---------- loading the cached ids ----------

  /** loadGenesisBlockId. */
  function SeekGenesis(keys: set<Bytes>): Result<nat> {
    match SeekAtLeast(keys, GenBlockDbKey(INITIAL_GENESIS_BLOCK_ID))
    case None => Ok(0)
    case Some(x) =>
      var t :- DbKeyType(x);
      if t == BLOCK then ExtractBlockIdFromKey(x) else Ok(0)
  }

  const MAX_BLOCK_ID: nat := Pow256(ID_SIZE) - 1

  /** loadLastReachableBlockId. */
  function SeekLast(keys: set<Bytes>): Result<nat> {
    match SeekAtMost(keys, GenBlockDbKey(MAX_BLOCK_ID))
    case None => Ok(0)
    case Some(x) =>
      var t :- DbKeyType(x);
      if t == BLOCK then ExtractBlockIdFromKey(x) else Ok(0)
  }

  /** loadLatestTempSTBlockId. */
  function SeekLatestTemp(keys: set<Bytes>): Result<Option<nat>> {
    match SeekAtMost(keys, GenSTTempBlockKey(MAX_BLOCK_ID))
    case None => Ok(None)
    case Some(x) =>
      var t :- DbKeyType(x);
      if t != BFT then Ok(None)
      else
        var subtype :- BftSubtype(x);
        if subtype != ST_TEMP_BLOCK then Ok(None)
        else
          var id :- ExtractBlockIdFromKey(x);
          Ok(Some(id))
  }

  lemma {:induction false} SeekGenesisIsFirst(
    hash: Hasher, len: nat, used: set<Key>, keys: set<Bytes>, db: Db, temps: map<nat, RawBlock>)
    requires StoresKeys(hash, len, used, keys, db, temps)
    ensures SeekGenesis(keys) == Ok(LoadGenesis(db))
  {
    hide StoresKeys, BigEndian, Pow256, FromBigEndian, Less;
    SmallId(1, ID_SIZE);
    var target, found := GenBlockDbKey(1), SeekAtLeast(keys, GenBlockDbKey(1));
    if BlockIds(db) != {} {
      var y := BlockKey(MinOf(BlockIds(db)));
      assert y in db;
      Stored(hash, len, used, keys, db, temps, y);
      EncodingIsOrderEmbedding(hash, len, BlockKey(1), y);
      SamePrefix([BLOCK], target, found.value, Encode(hash, len, y));
    }
    if found.Some? {
      var y := ReadKey(hash, len, used, keys, db, temps, found.value);
      if y.Some? && y.value.BlockKey? {
        EncodingIsOrderEmbedding(hash, len, BlockKey(1), y.value);
        assert y.value.id in BlockIds(db);
        EncodingIsOrderEmbedding(hash, len, y.value, BlockKey(MinOf(BlockIds(db))));
      }
    }
  }

  lemma {:induction false} SeekLastIsLast(
    hash: Hasher, len: nat, used: set<Key>, keys: set<Bytes>, db: Db, temps: map<nat, RawBlock>)
    requires StoresKeys(hash, len, used, keys, db, temps)
    ensures SeekLast(keys) == Ok(LoadLast(db))
  {
    hide StoresKeys, BigEndian, Pow256, FromBigEndian, Less, BlockAtMost;
    SeekBlockIsNewest(hash, len, used, keys, db, temps, MAX_BLOCK_ID);
    var newest := BlockAtMost(db, MAX_BLOCK_ID);
    if BlockIds(db) != {} {
      var y := BlockKey(MaxOf(BlockIds(db)));
      assert y in db;
      Stored(hash, len, used, keys, db, temps, y);
      assert NodeAt(db, y.id).Some?;
    }
    if newest.Some? && newest.value >= 1 {
      assert BlockKey(newest.value) in db;
      assert newest.value in BlockIds(db);
    }
  }

  lemma {:induction false} TempOrder(i: nat, j: nat)
    requires InWidth(i, ID_SIZE) && InWidth(j, ID_SIZE)
    ensures AtMost(GenSTTempBlockKey(i), GenSTTempBlockKey(j)) <==> i <= j
    ensures ExtractBlockIdFromKey(GenSTTempBlockKey(i)) == Ok(i)
  {
    var tag := [BFT, ST_TEMP_BLOCK];
    LessFields(tag, tag, BigEndian(i, ID_SIZE), BigEndian(j, ID_SIZE));
    LessIrreflexive(tag);
    BigEndianOrder(i, j, ID_SIZE);
    SplitEqual(tag, tag, BigEndian(i, ID_SIZE), BigEndian(j, ID_SIZE));
    BigEndianRoundTrip(i, ID_SIZE);
    var s := GenSTTempBlockKey(i);
    assert s[|s| - ID_SIZE..] == BigEndian(i, ID_SIZE);
  }

  lemma {:induction false} SeekLatestTempIsLatest(
    hash: Hasher, len: nat, used: set<Key>, keys: set<Bytes>, db: Db, temps: map<nat, RawBlock>)
    requires StoresKeys(hash, len, used, keys, db, temps)
    ensures SeekLatestTemp(keys) == Ok(LatestTemp(temps))
  {
    hide BigEndian, Pow256, Less;
    var target, found := GenSTTempBlockKey(MAX_BLOCK_ID), SeekAtMost(keys, GenSTTempBlockKey(MAX_BLOCK_ID));
    var latest := LatestTemp(temps);
    if latest.Some? {
      TempOrder(latest.value, MAX_BLOCK_ID);
      SamePrefix([BFT, ST_TEMP_BLOCK], GenSTTempBlockKey(latest.value), found.value, target);
    }
    if found.Some? {
      var y := ReadKey(hash, len, used, keys, db, temps, found.value);
      if found.value[0] == BFT && found.value[1] == ST_TEMP_BLOCK {
        var i: nat :| i in temps && InWidth(i, ID_SIZE) && GenSTTempBlockKey(i) == found.value;
        TempOrder(i, i);
        TempOrder(latest.value, i);
      }
    }
  }

  /** What the constructor seeks is what the typed database determines. */
  lemma {:induction false} SeeksLoadIds(
    hash: Hasher, len: nat, used: set<Key>, keys: set<Bytes>, db: Db, temps: map<nat, RawBlock>)
    requires StoresKeys(hash, len, used, keys, db, temps)
    ensures SeekGenesis(keys) == Ok(LoadGenesis(db))
    ensures SeekLast(keys) == Ok(LoadLast(db))
    ensures SeekLatestTemp(keys) == Ok(LatestTemp(temps))
  {
    SeekGenesisIsFirst(hash, len, used, keys, db, temps);
    SeekLastIsLast(hash, len, used, keys, db, temps);
    SeekLatestTempIsLatest(hash, len, used, keys, db, temps);
  }

  // ---------- the keys of a version ----------

  /** The type bytes and the version of a key can be read. */
  predicate Readable(subtype: Byte, extract: Bytes -> Result<nat>, x: Bytes) {
    && DbKeyType(x).Ok?
    && (DbKeyType(x).value == KEY ==> KeySubtype(x).Ok? && (KeySubtype(x).value == subtype ==> extract(x).Ok?))
  }

  predicate OfVersion(subtype: Byte, extract: Bytes -> Result<nat>, version: nat, x: Bytes) {
    HasSubtype(x, subtype) && extract(x) == Ok(version)
  }

  /** Keys from first on, ascending and without gaps, up to the first one of another kind or version. */
  ghost predicate IsRun(keys: set<Bytes>, first: Bytes, good: Bytes -> bool, run: seq<Bytes>) {
    && (forall i :: 0 <= i < |run| ==> run[i] in keys && AtMost(first, run[i]) && good(run[i]))
    && (forall i, j :: 0 <= i < j < |run| ==> Less(run[i], run[j]))
    && (forall y :: y in keys && AtMost(first, y) && y !in run ==>
         exists z :: z in keys && AtMost(first, z) && AtMost(z, y) && !good(z))
  }

  /** keysForVersion: walks the keys from first on until one is of another kind or version. */
  method KeysForVersion(
    keys: set<Bytes>, first: Bytes, version: nat, subtype: Byte, extract: Bytes -> Result<nat>)
    returns (r: Result<seq<Bytes>>)
    ensures r.Ok? ==> IsRun(keys, first, x => OfVersion(subtype, extract, version, x), r.value)
    ensures r.Err? ==> exists x :: x in keys && !Readable(subtype, extract, x)
  {
    hide OfVersion, Readable, Less;
    var run := [];
    var current := SeekAtLeast(keys, first);
    var left := keys;
    while current.Some?
      invariant current.Some? ==> current.value in left && AtMost(first, current.value)
      invariant left <= keys
      invariant forall y :: y in keys && AtMost(first, y) && y !in run ==>
                  y in left && current.Some? && AtMost(current.value, y)
      invariant forall i :: 0 <= i < |run| ==>
                  && run[i] in keys && AtMost(first, run[i]) && OfVersion(subtype, extract, version, run[i])
                  && (current.Some? ==> Less(run[i], current.value))
      invariant forall i, j :: 0 <= i < j < |run| ==> Less(run[i], run[j])
      decreases |left|
    {
      var x := current.value;
      if !Readable(subtype, extract, x) {
        return Err(Aborted);
      }
      if !OfVersion(subtype, extract, version, x) {
        return Ok(run);
      }
      current := Next(keys, x);
      StepOver(keys, first, x, current, run);
      run := run + [x];
      left := left - {x};
    }
    r := Ok(run);
  }

  lemma {:induction false} StepOver(keys: set<Bytes>, first: Bytes, x: Bytes, next: Option<Bytes>, run: seq<Bytes>)
    requires AtMost(first, x) && next == Next(keys, x)
    requires forall i :: 0 <= i < |run| ==> Less(run[i], x)
    requires forall y :: y in keys && AtMost(first, y) && y !in run ==> AtMost(x, y)
    ensures next.Some? ==> AtMost(first, next.value) && next.value != x && next.value !in run
    ensures forall y :: y in keys && AtMost(first, y) && y !in run && y != x ==> next.Some? && AtMost(next.value, y)
    ensures next.Some? ==> forall i :: 0 <= i < |run| ==> Less(run[i], next.value)
  {
    if next.Some? {
      AtMostTransitive(first, x, next.value);
      LessAsymmetric(x, next.value);
      forall i | 0 <= i < |run|
        ensures Less(run[i], next.value) && run[i] != next.value
      {
        LessTransitive(run[i], x, next.value);
        LessAsymmetric(run[i], next.value);
      }
    }
  }

  /** The three kinds of keys that are collected by version. */
  datatype VersionedKind = InternalKeys | StaleKeys | NpStaleKeys

  function SubtypeOf(kind: VersionedKind): Byte {
    match kind
    case InternalKeys => INTERNAL
    case StaleKeys => PROVABLE_STALE
    case NpStaleKeys => NON_PROVABLE_STALE
  }

  function ExtractorOf(kind: VersionedKind): Bytes -> Result<nat> {
    match kind
    case InternalKeys => x => ExtractVersionFromInternalKey(x)
    case StaleKeys => x => ExtractVersionFromProvableStaleKey(x)
    case NpStaleKeys => x => ExtractBlockIdFromNonProvableStaleKey(x)
  }

  /** Where the walk starts: the root's key, or an index entry without a target. */
  function FirstKey(kind: VersionedKind, version: nat): Bytes
    requires InWidth(version, ID_SIZE)
  {
    match kind
    case InternalKeys => GenInternalDbKey(version, [])
    case StaleKeys => GenStaleDbKey(version, [])
    case NpStaleKeys => GenNonProvableStaleDbKey([], version)
  }

  /** A typed key of the kind and version. */
  predicate KeyOfVersion(kind: VersionedKind, version: nat, y: DbKey) {
    match kind
    case InternalKeys => y.InternalKey? && y.version == version
    case StaleKeys => y.StaleKey? && y.since == version
    case NpStaleKeys => y.NpStaleKey? && y.since == version
  }

  function VersionPrefix(kind: VersionedKind, version: nat): Bytes
    requires InWidth(version, ID_SIZE)
  {
    [KEY, SubtypeOf(kind)] + BigEndian(version, ID_SIZE)
  }

  predicate ReadsAs(kind: VersionedKind, version: nat, x: Bytes) {
    OfVersion(SubtypeOf(kind), ExtractorOf(kind), version, x)
  }

  /** The keys of a version are those with its prefix, and the walk starts at or below them. */
  lemma {:induction false} VersionPrefixIs(hash: Hasher, len: nat, kind: VersionedKind, version: nat, y: DbKey)
    requires Fits(len, y) && InWidth(version, ID_SIZE)
    ensures VersionPrefix(kind, version) <= Encode(hash, len, y) <==> KeyOfVersion(kind, version, y)
    ensures Extracts(hash, len, y) ==> (ReadsAs(kind, version, Encode(hash, len, y)) <==> KeyOfVersion(kind, version, y))
    ensures Extracts(hash, len, y) ==> Readable(SubtypeOf(kind), ExtractorOf(kind), Encode(hash, len, y))
    ensures KeyOfVersion(kind, version, y) ==> AtMost(FirstKey(kind, version), Encode(hash, len, y))
  {
    hide BigEndian, Pow256, Less, FromBigEndian, Pack, Unpack;
    PrefixOfVersion(hash, len, kind, version, y);
    StartsBelow(hash, len, kind, version, y);
    ReadsVersion(hash, len, kind, version, y);
  }

  lemma {:induction false} PrefixOfVersion(hash: Hasher, len: nat, kind: VersionedKind, version: nat, y: DbKey)
    requires Fits(len, y) && InWidth(version, ID_SIZE)
    ensures VersionPrefix(kind, version) <= Encode(hash, len, y) <==> KeyOfVersion(kind, version, y)
  {
    hide BigEndian, Pow256, Pack;
    var p, x := VersionPrefix(kind, version), Encode(hash, len, y);
    match y
    case InternalKey(w, q) => PrefixOfField(SubtypeOf(kind), version, INTERNAL, w, [|q|] + Pack(q));
    case StaleKey(w, t) => PrefixOfField(SubtypeOf(kind), version, PROVABLE_STALE, w, Encode(hash, len, t));
    case NpStaleKey(w, t) => PrefixOfField(SubtypeOf(kind), version, NON_PROVABLE_STALE, w, Encode(hash, len, t));
    case BlockKey(_) => assert p[0] != x[0];
    case LeafKey(_, _) => assert p[1] != x[1];
    case NpKey(_, _) => assert p[1] != x[1];
  }

  lemma {:induction false} PrefixOfField(s: Byte, m: nat, t: Byte, n: nat, rest: Bytes)
    requires InWidth(m, ID_SIZE) && InWidth(n, ID_SIZE)
    ensures [KEY, s] + BigEndian(m, ID_SIZE) <= [KEY, t] + (BigEndian(n, ID_SIZE) + rest) <==> s == t && m == n
  {
    hide BigEndian, Pow256;
    var a, b := BigEndian(m, ID_SIZE), BigEndian(n, ID_SIZE);
    var p, x := [KEY, s] + a, [KEY, t] + (b + rest);
    assert x[..|p|] == [KEY, t] + b;
    assert p <= x <==> p == x[..|p|];
    SplitEqual([KEY, s], [KEY, t], a, b);
    BigEndianOrder(m, n, ID_SIZE);
    assert [KEY, s][1] == s && [KEY, t][1] == t;
  }

  lemma {:induction false} StartsBelow(hash: Hasher, len: nat, kind: VersionedKind, version: nat, y: DbKey)
    requires Fits(len, y) && InWidth(version, ID_SIZE)
    ensures VersionPrefix(kind, version) <= FirstKey(kind, version)
    ensures KeyOfVersion(kind, version, y) ==> AtMost(FirstKey(kind, version), Encode(hash, len, y))
  {
    hide BigEndian, Pow256, Less;
    if kind == InternalKeys {
      if y.InternalKey? {
        InternalOrder(version, [], y.version, y.path);
      }
    } else {
      assert FirstKey(kind, version) == VersionPrefix(kind, version);
      PrefixOfVersion(hash, len, kind, version, y);
      if KeyOfVersion(kind, version, y) {
        PrefixAtMost(FirstKey(kind, version), Encode(hash, len, y));
      }
    }
  }

  lemma {:induction false} ReadsVersion(hash: Hasher, len: nat, kind: VersionedKind, version: nat, y: DbKey)
    requires Fits(len, y)
    ensures Extracts(hash, len, y) ==> (ReadsAs(kind, version, Encode(hash, len, y)) <==> KeyOfVersion(kind, version, y))
    ensures Extracts(hash, len, y) ==> Readable(SubtypeOf(kind), ExtractorOf(kind), Encode(hash, len, y))
  {
    hide BigEndian, Pow256, FromBigEndian, Unpack, Pack, ExtractVersionFromInternalKey,
         ExtractVersionFromProvableStaleKey, ExtractBlockIdFromNonProvableStaleKey;
  }

  /** A walk from the first key of a version collects exactly the keys of that version. */
  lemma {:induction false} RunIsExact(
    hash: Hasher, len: nat, used: set<Key>, keys: set<Bytes>, db: Db, temps: map<nat, RawBlock>,
    kind: VersionedKind, version: nat, run: seq<Bytes>, x: Bytes)
    requires StoresKeys(hash, len, used, keys, db, temps) && InWidth(version, ID_SIZE)
    requires IsRun(keys, FirstKey(kind, version), z => ReadsAs(kind, version, z), run)
    ensures x in run <==> exists y :: y in db && KeyOfVersion(kind, version, y) && Fits(len, y) && Encode(hash, len, y) == x
  {
    hide Extracts, Encode, FirstKey, VersionPrefix, ReadsAs, Less, BigEndian, Pow256;
    if x in run {
      var y := ReadRunKey(hash, len, used, keys, db, temps, kind, version, x);
    } else if exists y :: y in db && KeyOfVersion(kind, version, y) && Fits(len, y) && Encode(hash, len, y) == x {
      var y :| y in db && KeyOfVersion(kind, version, y) && Fits(len, y) && Encode(hash, len, y) == x;
      VersionPrefixIs(hash, len, kind, version, y);
      var z :| z in keys && AtMost(FirstKey(kind, version), z) && AtMost(z, x) && !ReadsAs(kind, version, z);
      StartsBelow(hash, len, kind, version, y);
      SamePrefix(VersionPrefix(kind, version), FirstKey(kind, version), z, x);
      PrefixReads(hash, len, used, keys, db, temps, kind, version, z);
    }
  }

  lemma {:induction false} ReadRunKey(
    hash: Hasher, len: nat, used: set<Key>, keys: set<Bytes>, db: Db, temps: map<nat, RawBlock>,
    kind: VersionedKind, version: nat, x: Bytes) returns (y: DbKey)
    requires StoresKeys(hash, len, used, keys, db, temps)
    requires x in keys && ReadsAs(kind, version, x)
    ensures y in db && KeyOfVersion(kind, version, y) && Fits(len, y) && Encode(hash, len, y) == x
  {
    hide Extracts, Encode, BigEndian, Pow256, ExtractorOf;
    var found := ReadKey(hash, len, used, keys, db, temps, x);
    y := found.value;
    ReadsVersion(hash, len, kind, version, y);
  }

  lemma {:induction false} PrefixReads(
    hash: Hasher, len: nat, used: set<Key>, keys: set<Bytes>, db: Db, temps: map<nat, RawBlock>,
    kind: VersionedKind, version: nat, z: Bytes)
    requires StoresKeys(hash, len, used, keys, db, temps) && InWidth(version, ID_SIZE)
    requires z in keys && VersionPrefix(kind, version) <= z
    ensures ReadsAs(kind, version, z)
  {
    hide Extracts, Encode, BigEndian, Pow256, ExtractorOf;
    assert z[0] == KEY;
    var found := ReadKey(hash, len, used, keys, db, temps, z);
    VersionPrefixIs(hash, len, kind, version, found.value);
  }

  /**
   * internalProvableKeysForVersion, staleIndexProvableKeysForVersion and
   * staleIndexNonProvableKeysForBlock: exactly the keys of the version, in order.
   */
  method KeysOfVersion(
    ghost hash: Hasher, ghost len: nat, ghost used: set<Key>, keys: set<Bytes>, ghost db: Db,
    ghost temps: map<nat, RawBlock>, kind: VersionedKind, version: nat) returns (r: Result<seq<Bytes>>)
    requires StoresKeys(hash, len, used, keys, db, temps) && InWidth(version, ID_SIZE)
    ensures r.Ok?
    ensures forall i, j :: 0 <= i < j < |r.value| ==> Less(r.value[i], r.value[j])
    ensures forall x :: x in r.value <==>
      exists y :: y in db && KeyOfVersion(kind, version, y) && Fits(len, y) && Encode(hash, len, y) == x
  {
    r := KeysForVersion(keys, FirstKey(kind, version), version, SubtypeOf(kind), ExtractorOf(kind));
    AllReadable(hash, len, used, keys, db, temps, kind);
    assert IsRun(keys, FirstKey(kind, version), z => ReadsAs(kind, version, z), r.value);
    forall x
      ensures x in r.value <==>
        exists y :: y in db && KeyOfVersion(kind, version, y) && Fits(len, y) && Encode(hash, len, y) == x
    {
      RunIsExact(hash, len, used, keys, db, temps, kind, version, r.value, x);
    }
  }

  lemma {:induction false} AllReadable(
    hash: Hasher, len: nat, used: set<Key>, keys: set<Bytes>, db: Db, temps: map<nat, RawBlock>, kind: VersionedKind)
    requires StoresKeys(hash, len, used, keys, db, temps)
    ensures forall x :: x in keys ==> Readable(SubtypeOf(kind), ExtractorOf(kind), x)
  {
    forall x | x in keys
      ensures Readable(SubtypeOf(kind), ExtractorOf(kind), x)
    {
      var y := ReadKey(hash, len, used, keys, db, temps, x);
      if y.Some? {
        ReadsVersion(hash, len, kind, 0, y.value);
      }
    }
  }
}
