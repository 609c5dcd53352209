/**
 * The operations of the Merkle tree DB adapter on the blockchain, as functions on
 * the database, the cached ids of the first and last block, and the cached tree root.
 */
module AdapterSpec {
  import opened Common
  import opened SparseTree

  datatype Config = Config(nonProvable: set<Key>, hashPath: HashPath)

  const INITIAL_GENESIS_BLOCK_ID: nat := 1

  /** A digest stands for what it digests. No result relies on digests being collision free. */
  datatype Digest = ZeroDigest | DigestOf(id: nat, block: RawBlock)

  datatype RawBlock = RawBlock(
    updates: map<Key, Value>, deletes: set<Key>, parentDigest: Digest, stateHash: StateHash)

  /** The block node; a key maps to its 'deleted' flag. */
  datatype Node = Node(
    id: nat, parentDigest: Digest, stateHash: StateHash, version: nat, keys: map<Key, bool>)

  datatype Leaf = Leaf(addedIn: nat, value: Value, deletedIn: Option<nat>)

  datatype DbKey =
    | BlockKey(id: nat)
    | InternalKey(version: nat, path: Path)
    | LeafKey(key: Key, version: nat)
    | StaleKey(since: nat, target: DbKey)
    | NpKey(key: Key, id: nat)
    | NpStaleKey(since: nat, target: DbKey)

  datatype DbVal =
    | NodeVal(node: Node)
    | InternalVal(tree: Tree)
    | LeafVal(leaf: Leaf)
    | NpVal(value: Value)
    | Marker

  type Db = map<DbKey, DbVal>

  /** The blockchain part of the adapter: the database, the cached ids and the cached tree root. */
  datatype Ledger = Ledger(db: Db, genesis: nat, last: nat, tree: Tree)

  function Lookup(db: Db, y: DbKey): Option<DbVal> {
    if y in db then Some(db[y]) else None
  }

  /** Databases with the same lookups are the same. */
  lemma {:induction false} SameLookups(db1: Db, db2: Db)
    requires forall y :: Lookup(db1, y) == Lookup(db2, y)
    ensures db1 == db2
  {
    forall y
      ensures y in db1 <==> y in db2
      ensures y in db1 ==> db1[y] == db2[y]
    {
      assert Lookup(db1, y) == Lookup(db2, y);
    }
  }

  // ---------- reading ----------

  function NodeAt(db: Db, i: nat): Option<Node> {
    match Lookup(db, BlockKey(i)) case Some(NodeVal(n)) => Some(n) case _ => None
  }

  function LeafAt(db: Db, k: Key, w: nat): Option<Leaf> {
    match Lookup(db, LeafKey(k, w)) case Some(LeafVal(l)) => Some(l) case _ => None
  }

  function NpAt(db: Db, k: Key, i: nat): Option<Value> {
    match Lookup(db, NpKey(k, i)) case Some(NpVal(v)) => Some(v) case _ => None
  }

  /** The newest leaf version of a key at or below a bound (getLeafKeyValAtMostVersion). */
  function LeafAtMost(db: Db, k: Key, w: nat): (r: Option<nat>)
    ensures r.Some? ==> r.value <= w && LeafAt(db, k, r.value).Some?
    ensures forall u :: (if r.Some? then r.value else -1) < u <= w ==> LeafAt(db, k, u).None?
  {
    if LeafAt(db, k, w).Some? then Some(w)
    else if w == 0 then None
    else LeafAtMost(db, k, w - 1)
  }

  /** The newest block at or below a bound that wrote a non-provable key (getValueForNonProvableKey). */
  function NpAtMost(db: Db, k: Key, i: nat): (r: Option<nat>)
    ensures r.Some? ==> r.value <= i && NpAt(db, k, r.value).Some?
    ensures forall u :: (if r.Some? then r.value else -1) < u <= i ==> NpAt(db, k, u).None?
  {
    if NpAt(db, k, i).Some? then Some(i)
    else if i == 0 then None
    else NpAtMost(db, k, i - 1)
  }

  /** The newest block node at or below a bound. */
  function BlockAtMost(db: Db, i: nat): (r: Option<nat>)
    ensures r.Some? ==> r.value <= i && NodeAt(db, r.value).Some?
    ensures forall u :: (if r.Some? then r.value else -1) < u <= i ==> NodeAt(db, u).None?
  {
    if NodeAt(db, i).Some? then Some(i)
    else if i == 0 then None
    else BlockAtMost(db, i - 1)
  }

  /** The value of a key at a block version and the block that wrote it (getValue). */
  function GetValue(cfg: Config, db: Db, k: Key, v: nat): Result<(Value, nat)> {
    if k in cfg.nonProvable && NpAtMost(db, k, v).Some? then
      var i := NpAtMost(db, k, v).value;
      Ok((NpAt(db, k, i).value, i))
    else if BlockAtMost(db, v).None? then Err(NotFound)
    else
      var version := NodeAt(db, BlockAtMost(db, v).value).value.version;
      if LeafAtMost(db, k, version).None? then Err(NotFound)
      else
        var leaf := LeafAt(db, k, LeafAtMost(db, k, version).value).value;
        if leaf.deletedIn.Some? && leaf.deletedIn.value <= v then Err(NotFound)
        else Ok((leaf.value, leaf.addedIn))
  }

  /** Where getRawBlock finds the value of a key listed in a block node. */
  function BlockKeyValue(cfg: Config, db: Db, node: Node, k: Key): Option<Value>
    requires k in node.keys
  {
    if k in cfg.nonProvable && NpAt(db, k, node.id).Some? then NpAt(db, k, node.id)
    else if node.keys[k] then None
    else match LeafAt(db, k, node.version)
      case Some(l) => if l.addedIn == node.id then Some(l.value) else None
      case None => None
  }

  /** Rebuilds a raw block from the block node and the leaves it refers to (getRawBlock). */
  function GetRawBlock(cfg: Config, db: Db, temps: map<nat, RawBlock>, i: nat): Result<RawBlock> {
    match NodeAt(db, i)
    case None => if i in temps then Ok(temps[i]) else Err(NotFound)
    case Some(node) =>
      if node.id != i || exists k :: k in node.keys && !node.keys[k] && BlockKeyValue(cfg, db, node, k).None? then
        Err(Aborted)
      else
        var updates := map k | k in node.keys && BlockKeyValue(cfg, db, node, k).Some?
                         :: BlockKeyValue(cfg, db, node, k).value;
        Ok(RawBlock(updates, node.keys.Keys - updates.Keys, node.parentDigest, node.stateHash))
  }

  /** Reader::get_latest_root: the root the block node of the last block points to. */
  function LatestRoot(db: Db, last: nat): Result<Tree> {
    if last == 0 then Ok(EMPTY_TREE)
    else match NodeAt(db, last)
      case None => Err(Aborted)
      case Some(node) =>
        if node.version == 0 then Ok(EMPTY_TREE)
        else match Lookup(db, InternalKey(node.version, []))
          case Some(InternalVal(t)) => Ok(t)
          case _ => Err(RuntimeError)
  }

  // ---------- adding a block ----------

  function ItemKey(x: Item, w: nat): DbKey {
    match x case LeafItem(k) => LeafKey(k, w) case NodeItem(p) => InternalKey(w, p)
  }

  /** The tree item and version a leaf or internal node key refers to. */
  function KeyItem(y: DbKey): Option<(Item, nat)> {
    match y
    case LeafKey(k, w) => Some((LeafItem(k), w))
    case InternalKey(w, p) => Some((NodeItem(p), w))
    case _ => None
  }

  predicate HasItem(t: Tree, x: Item, w: nat) {
    x in t.items && t.items[x] == w
  }

  /** What an internal node holds: the part of the tree below its path. */
  function Below(hashPath: HashPath, t: Tree, p: Path): Tree {
    if p == [] then t
    else Tree(
      t.version,
      map x | x in t.items && (match x case LeafItem(k) => p <= hashPath(k) case NodeItem(q) => p <= q) :: t.items[x],
      map k | k in t.vals && p <= hashPath(k) :: t.vals[k])
  }

  /** Deleted-only keys that have some leaf in the database. */
  function ActuallyDeleted(db: Db, cached: nat, deletesOnly: set<Key>): set<Key> {
    set k | k in deletesOnly && LeafAtMost(db, k, cached).Some?
  }

  /** computeParentBlockDigest; the parent is a block of the chain, never a temporary one. */
  function ParentDigest(cfg: Config, db: Db, id: nat): Result<Digest> {
    if id > INITIAL_GENESIS_BLOCK_ID then
      var parent :- GetRawBlock(cfg, db, map[], id - 1);
      Ok(DigestOf(id - 1, parent))
    else Ok(ZeroDigest)
  }

  /** Everything the writes of a new block are computed from. */
  datatype Plan = Plan(
    id: nat, updates: map<Key, Value>, deleted: set<Key>, digest: Digest,
    cached: nat, oldTree: Tree, newTree: Tree)

  function MakePlan(cfg: Config, s: Ledger, updates: map<Key, Value>, deletes: set<Key>): Result<Plan> {
    var id := s.last + 1;
    var digest :- ParentDigest(cfg, s.db, id);
    if deletes * cfg.nonProvable != {} then Err(RuntimeError)
    else
      var deleted := ActuallyDeleted(s.db, s.tree.version, deletes - updates.Keys);
      var provable := updates - cfg.nonProvable;
      if provable == map[] && deleted == {} then
        Ok(Plan(id, updates, deleted, digest, s.tree.version, s.tree, s.tree))
      else
        var root :- LatestRoot(s.db, s.last);
        Ok(Plan(id, updates, deleted, digest, s.tree.version, root,
                Update(cfg.hashPath, root, provable, deleted)))
  }

  function PlanNode(plan: Plan): Node {
    Node(plan.id, plan.digest, StateHash(plan.newTree.vals), plan.newTree.version,
         (map k | k in plan.deleted :: true) + (map k | k in plan.updates :: false))
  }

  /** An item of the new tree that the update wrote. */
  predicate Fresh(plan: Plan, x: Item, w: nat) {
    && plan.newTree.version > plan.oldTree.version
    && w == plan.newTree.version
    && HasItem(plan.newTree, x, w)
  }

  /** An item of the old tree that the update made stale. */
  predicate Dropped(plan: Plan, y: DbKey) {
    && plan.newTree.version > plan.oldTree.version
    && KeyItem(y).Some?
    && HasItem(plan.oldTree, KeyItem(y).value.0, KeyItem(y).value.1)
    && !HasItem(plan.newTree, KeyItem(y).value.0, KeyItem(y).value.1)
  }

  /** The value lastReachableBlockDbUpdates writes at a database key, if any. */
  function WriteAt(cfg: Config, db: Db, plan: Plan, y: DbKey): Option<DbVal> {
    match y
    case BlockKey(i) => if i == plan.id then Some(NodeVal(PlanNode(plan))) else None
    case InternalKey(w, p) =>
      if Fresh(plan, NodeItem(p), w) then Some(InternalVal(Below(cfg.hashPath, plan.newTree, p))) else None
    case LeafKey(k, w) =>
      if k in plan.deleted && LeafAtMost(db, k, plan.cached) == Some(w) then
        Some(LeafVal(LeafAt(db, k, w).value.(deletedIn := Some(plan.id))))
      else if Fresh(plan, LeafItem(k), w) && k in plan.newTree.vals then
        Some(LeafVal(Leaf(plan.id, plan.newTree.vals[k], None)))
      else None
    case StaleKey(since, target) =>
      if since == plan.newTree.version && Dropped(plan, target) then Some(Marker) else None
    case NpKey(k, i) =>
      if i == plan.id && k in cfg.nonProvable && k in plan.updates then Some(NpVal(plan.updates[k])) else None
    case NpStaleKey(since, target) =>
      if && since == plan.id && plan.id > INITIAL_GENESIS_BLOCK_ID && target.NpKey?
         && target.key in cfg.nonProvable && target.key in plan.updates
         && NpAtMost(db, target.key, plan.id - 1) == Some(target.id)
      then Some(Marker) else None
  }

  /** A finite set of keys that contains every key a plan writes. */
  function WriteKeys(cfg: Config, db: Db, plan: Plan): set<DbKey> {
    var written := set x | x in plan.newTree.items :: ItemKey(x, plan.newTree.items[x]);
    var stale := set x | x in plan.oldTree.items :: StaleKey(plan.newTree.version, ItemKey(x, plan.oldTree.items[x]));
    var np := set k | k in plan.updates :: NpKey(k, plan.id);
    var npStale := set k | k in plan.updates && plan.id > 0 && NpAtMost(db, k, plan.id - 1).Some?
                     :: NpStaleKey(plan.id, NpKey(k, NpAtMost(db, k, plan.id - 1).value));
    {BlockKey(plan.id)} + db.Keys + written + stale + np + npStale
  }

  lemma {:induction false} WriteKeysComplete(cfg: Config, db: Db, plan: Plan, y: DbKey)
    requires WriteAt(cfg, db, plan, y).Some?
    ensures y in WriteKeys(cfg, db, plan)
  {
    match y
    case StaleKey(since, target) =>
      assert ItemKey(KeyItem(target).value.0, KeyItem(target).value.1) == target;
    case LeafKey(k, w) =>
      assert ItemKey(LeafItem(k), w) == y;
      if !(k in plan.deleted && LeafAtMost(db, k, plan.cached) == Some(w)) {
        assert LeafItem(k) in plan.newTree.items;
      }
    case InternalKey(w, p) =>
      assert ItemKey(NodeItem(p), w) == y;
    case NpStaleKey(since, target) =>
      assert y == NpStaleKey(plan.id, NpKey(target.key, NpAtMost(db, target.key, plan.id - 1).value));
    case _ =>
  }

  /** The map with the values f gives to some keys. */
  function Collect(keys: set<DbKey>, f: DbKey -> Option<DbVal>): (r: Db)
    ensures forall y :: Lookup(r, y) == if y in keys then f(y) else None
  {
    map y | y in keys && f(y).Some? :: f(y).value
  }

  /** The batch of writes of a block. */
  function Writes(cfg: Config, db: Db, plan: Plan): Db {
    Collect(WriteKeys(cfg, db, plan), y => WriteAt(cfg, db, plan, y))
  }

  lemma {:induction false} WritesAt(cfg: Config, db: Db, plan: Plan, y: DbKey)
    ensures Lookup(Writes(cfg, db, plan), y) == WriteAt(cfg, db, plan, y)
    ensures Lookup(db + Writes(cfg, db, plan), y)
         == if WriteAt(cfg, db, plan, y).Some? then WriteAt(cfg, db, plan, y) else Lookup(db, y)
  {
    if WriteAt(cfg, db, plan, y).Some? {
      WriteKeysComplete(cfg, db, plan, y);
    }
  }

  /** lastReachableBlockDbUpdates: the writes of the next block and the tree it leads to. */
  function BlockUpdates(cfg: Config, s: Ledger, updates: map<Key, Value>, deletes: set<Key>): Result<(Db, Tree)> {
    var plan :- MakePlan(cfg, s, updates, deletes);
    Ok((Writes(cfg, s.db, plan), plan.newTree))
  }

  /** addBlock. */
  function AddBlock(cfg: Config, s: Ledger, updates: map<Key, Value>, deletes: set<Key>): Result<Ledger> {
    var (batch, tree) :- BlockUpdates(cfg, s, updates, deletes);
    Ok(Ledger(s.db + batch, if s.genesis == 0 then INITIAL_GENESIS_BLOCK_ID else s.genesis, s.last + 1, tree))
  }

  /** The chain part of writeSTLinkTransaction; unlike addBlock it leaves the genesis id alone. */
  function LinkBlock(cfg: Config, s: Ledger, block: RawBlock): Result<Ledger> {
    var (batch, tree) :- BlockUpdates(cfg, s, block.updates, block.deletes);
    Ok(Ledger(s.db + batch, s.genesis, s.last + 1, tree))
  }

  // ---------- deleting blocks ----------

  function Without(db: Db, dead: DbKey -> bool): (r: Db)
    ensures forall y :: Lookup(r, y) == if dead(y) then None else Lookup(db, y)
  {
    map y | y in db && !dead(y) :: db[y]
  }

  /** Keys removed with the last reachable block (lastReachableBlockKeyDeletes). */
  predicate DiesWithLast(cfg: Config, node: Node, id: nat, y: DbKey) {
    match y
    case BlockKey(i) => i == id
    case InternalKey(w, _) => w == node.version
    case LeafKey(k, w) => k in node.keys && k !in cfg.nonProvable && w == node.version
    case StaleKey(since, _) => since == node.version
    case NpKey(k, i) => k in node.keys && k in cfg.nonProvable && i == id
    case NpStaleKey(since, _) => since == id
  }

  /** deleteLastReachableBlock; the cached tree root is left as it is. */
  function DeleteLast(cfg: Config, s: Ledger): Result<Ledger> {
    if s.last == 0 then Ok(s)
    else match NodeAt(s.db, s.last)
      case None => Err(RuntimeError)
      case Some(node) =>
        var only := s.last == s.genesis;
        Ok(s.(db := Without(s.db, y => DiesWithLast(cfg, node, s.last, y)),
              genesis := if only then 0 else s.genesis,
              last := if only then 0 else s.last - 1))
  }

  /** Keys removed with the genesis block: its node, and whatever became stale in it (genesisBlockKeyDeletes). */
  predicate DiesWithGenesis(db: Db, node: Node, id: nat, y: DbKey) {
    || y == BlockKey(id)
    || (y.StaleKey? && y.since == node.version)
    || (y.NpStaleKey? && y.since == id)
    || StaleKey(node.version, y) in db
    || NpStaleKey(id, y) in db
  }

  /** deleteGenesisBlock. */
  function DeleteGenesis(cfg: Config, s: Ledger): Result<Ledger> {
    if s.genesis < INITIAL_GENESIS_BLOCK_ID || s.genesis == s.last then Err(Aborted)
    else match NodeAt(s.db, s.genesis)
      case None => Err(RuntimeError)
      case Some(node) =>
        Ok(s.(db := Without(s.db, y => DiesWithGenesis(s.db, node, s.genesis, y)), genesis := s.genesis + 1))
  }

  // ---------- construction ----------

  function BlockIds(db: Db): set<nat> {
    set y | y in db && y.BlockKey? && y.id >= INITIAL_GENESIS_BLOCK_ID :: y.id
  }

  function LoadGenesis(db: Db): nat {
    if BlockIds(db) == {} then 0 else MinOf(BlockIds(db))
  }

  function LoadLast(db: Db): nat {
    if BlockIds(db) == {} then 0 else MaxOf(BlockIds(db))
  }

  /** What the constructor loads from the database. */
  function Load(db: Db): Result<Ledger> {
    var tree :- LatestRoot(db, LoadLast(db));
    Ok(Ledger(db, LoadGenesis(db), LoadLast(db), tree))
  }
}
