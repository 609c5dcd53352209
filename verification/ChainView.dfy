/**
 * The abstract blockchain behind a database: every block with the tree and the raw
 * block it gives rise to. Expect says, key by key, what a database holds when its
 * chain is c and its genesis block is g.
 */
module ChainView {
  import opened Common
  import opened SparseTree
  import opened AdapterSpec

  datatype Blk = Blk(updates: map<Key, Value>, deletes: set<Key>)

  datatype Entry = Entry(blk: Blk, tree: Tree, raw: RawBlock)

  /** c[i - 1] is block i. */
  type Chain = seq<Entry>

  function TreeAt(c: Chain, i: nat): Tree
    requires i <= |c|
  {
    if i == 0 then EMPTY_TREE else c[i - 1].tree
  }

  function LastTree(c: Chain): Tree {
    TreeAt(c, |c|)
  }

  function DigestBefore(c: Chain, i: nat): Digest
    requires 1 <= i <= |c| + 1
  {
    if i == 1 then ZeroDigest else DigestOf(i - 1, c[i - 2].raw)
  }

  /** Block i follows from its predecessors, and deletes only live keys. */
  ghost predicate EntryOk(cfg: Config, c: Chain, i: nat)
    requires 1 <= i <= |c|
  {
    var Entry(blk, tree, raw) := c[i - 1];
    && blk.updates.Keys !! blk.deletes
    && blk.deletes !! cfg.nonProvable
    && blk.deletes <= TreeAt(c, i - 1).vals.Keys
    && tree == Update(cfg.hashPath, TreeAt(c, i - 1), blk.updates - cfg.nonProvable, blk.deletes)
    && raw == RawBlock(blk.updates, blk.deletes, DigestBefore(c, i), StateHash(tree.vals))
  }

  ghost predicate ChainOk(cfg: Config, c: Chain) {
    forall i :: 1 <= i <= |c| ==> EntryOk(cfg, c, i)
  }

  /** The chain after one more block. */
  function Extend(cfg: Config, c: Chain, blk: Blk): Chain {
    var tree := Update(cfg.hashPath, LastTree(c), blk.updates - cfg.nonProvable, blk.deletes);
    c + [Entry(blk, tree, RawBlock(blk.updates, blk.deletes, DigestBefore(c, |c| + 1), StateHash(tree.vals)))]
  }

  // ---------- what the database holds ----------

  /** The oldest tree whose leaves and nodes are kept: the one just before the genesis block. */
  function OldestTree(g: nat): nat {
    if g == 0 then 0 else g - 1
  }

  /** A tree item version is kept while some tree from the oldest to the newest contains it. */
  ghost predicate Kept(c: Chain, g: nat, x: Item, w: nat) {
    exists i :: OldestTree(g) <= i <= |c| && HasItem(TreeAt(c, i), x, w)
  }

  /** The first of the first n blocks whose tree has reached a version. */
  function Writer(c: Chain, w: nat, n: nat): (i: nat)
    requires n <= |c|
    ensures i <= n
  {
    if n == 0 then 0
    else if TreeAt(c, n - 1).version >= w then Writer(c, w, n - 1)
    else n
  }

  /** The block among the first n that deleted version w of a key. */
  function Deleter(c: Chain, k: Key, w: nat, n: nat): Option<nat>
    requires n <= |c|
  {
    if n == 0 then None
    else if k in c[n - 1].blk.deletes && HasItem(TreeAt(c, n - 1), LeafItem(k), w) then Some(n)
    else Deleter(c, k, w, n - 1)
  }

  /** Item version (x, w) left the tree in block j, a block from the genesis on. */
  ghost predicate LeftIn(c: Chain, j: nat, x: Item, w: nat)
    requires 1 <= j <= |c|
  {
    HasItem(TreeAt(c, j - 1), x, w) && !HasItem(TreeAt(c, j), x, w)
  }

  ghost predicate StaleSince(c: Chain, g: nat, since: nat, x: Item, w: nat) {
    exists j :: 1 <= j <= |c| && g <= j && TreeAt(c, j).version == since && LeftIn(c, j, x, w)
  }

  predicate Updates(c: Chain, k: Key, i: nat) {
    1 <= i <= |c| && k in c[i - 1].blk.updates
  }

  predicate WritesNp(cfg: Config, c: Chain, k: Key, i: nat) {
    k in cfg.nonProvable && Updates(c, k, i)
  }

  predicate NoWriteBetween(c: Chain, k: Key, i: nat, j: nat) {
    forall m :: i < m < j ==> !Updates(c, k, m)
  }

  function NodeFlags(updates: map<Key, Value>, deletes: set<Key>): map<Key, bool> {
    (map k | k in deletes :: true) + (map k | k in updates :: false)
  }

  function NodeOf(c: Chain, i: nat): Node
    requires 1 <= i <= |c|
  {
    var Entry(blk, tree, _) := c[i - 1];
    Node(i, DigestBefore(c, i), StateHash(tree.vals), tree.version, NodeFlags(blk.updates, blk.deletes))
  }

  ghost function Expect(cfg: Config, c: Chain, g: nat, y: DbKey): Option<DbVal> {
    match y
    case BlockKey(i) => if 1 <= i <= |c| && g <= i then Some(NodeVal(NodeOf(c, i))) else None
    case InternalKey(w, p) => ExpectInternal(cfg, c, g, p, w)
    case LeafKey(k, w) => ExpectLeaf(c, g, k, w)
    case StaleKey(since, target) =>
      if KeyItem(target).Some? && StaleSince(c, g, since, KeyItem(target).value.0, KeyItem(target).value.1)
      then Some(Marker) else None
    case NpKey(k, i) =>
      if WritesNp(cfg, c, k, i) && NoWriteBetween(c, k, i, g) then Some(NpVal(c[i - 1].blk.updates[k])) else None
    case NpStaleKey(since, target) =>
      if && target.NpKey? && target.id < since && g <= since
         && WritesNp(cfg, c, target.key, target.id) && WritesNp(cfg, c, target.key, since)
         && NoWriteBetween(c, target.key, target.id, since)
      then Some(Marker) else None
  }

  ghost function ExpectInternal(cfg: Config, c: Chain, g: nat, p: Path, w: nat): Option<DbVal> {
    if Kept(c, g, NodeItem(p), w) then
      Some(InternalVal(Below(cfg.hashPath, TreeAt(c, Writer(c, w, |c|)), p)))
    else None
  }

  ghost function ExpectLeaf(c: Chain, g: nat, k: Key, w: nat): Option<DbVal> {
    var i := Writer(c, w, |c|);
    if Kept(c, g, LeafItem(k), w) && 1 <= i <= |c| && k in c[i - 1].blk.updates then
      Some(LeafVal(Leaf(i, c[i - 1].blk.updates[k], Deleter(c, k, w, |c|))))
    else None
  }

  /** A database represents chain c from genesis g. */
  ghost predicate Holds(cfg: Config, db: Db, c: Chain, g: nat) {
    forall y :: Lookup(db, y) == Expect(cfg, c, g, y)
  }

  /** The state of an adapter whose chain is c; after a rollback the cached tree is a newer one. */
  ghost predicate Inv(cfg: Config, s: Ledger, c: Chain) {
    && ChainOk(cfg, c)
    && s.last == |c|
    && (if c == [] then s.genesis == 0 else 1 <= s.genesis <= |c|)
    && Holds(cfg, s.db, c, s.genesis)
    && (s.tree == LastTree(c) || LastTree(c).version < s.tree.version)
  }

  // ---------- trees along the chain ----------

  lemma {:induction false} TreesOk(cfg: Config, c: Chain, i: nat)
    requires ChainOk(cfg, c) && i <= |c|
    ensures TreeOk(TreeAt(c, i))
    ensures i > 0 ==> Follows(TreeAt(c, i - 1), TreeAt(c, i))
  {
    if i > 0 {
      TreesOk(cfg, c, i - 1);
      assert EntryOk(cfg, c, i);
      UpdateFollows(cfg.hashPath, TreeAt(c, i - 1), c[i - 1].blk.updates - cfg.nonProvable, c[i - 1].blk.deletes);
    }
  }

  /** What block i does to the leaf of a key. */
  lemma {:induction false} BlockLeaf(cfg: Config, c: Chain, i: nat, k: Key)
    requires ChainOk(cfg, c) && 1 <= i <= |c|
    ensures var blk, old', new' := c[i - 1].blk, TreeAt(c, i - 1), TreeAt(c, i);
      && (k in blk.updates && k !in cfg.nonProvable ==> HasItem(new', LeafItem(k), new'.version))
      && (k in blk.deletes ==> LeafItem(k) !in new'.items)
      && ((k in cfg.nonProvable || k !in blk.updates) && k !in blk.deletes ==>
           forall w :: HasItem(new', LeafItem(k), w) <==> HasItem(old', LeafItem(k), w))
  {
    TreesOk(cfg, c, i - 1);
    assert EntryOk(cfg, c, i);
    UpdateFollows(cfg.hashPath, TreeAt(c, i - 1), c[i - 1].blk.updates - cfg.nonProvable, c[i - 1].blk.deletes);
  }

  /** Whether a block changes the tree. */
  predicate TouchesTree(cfg: Config, blk: Blk) {
    !(blk.updates.Keys <= cfg.nonProvable) || blk.deletes != {}
  }

  /** Every tree along the chain has exactly the internal nodes that its keys call for. */
  lemma {:induction false} TreeNodes(cfg: Config, c: Chain, i: nat)
    requires ChainOk(cfg, c) && i <= |c|
    ensures NodesExact(cfg.hashPath, TreeAt(c, i))
  {
    if i > 0 {
      TreeNodes(cfg, c, i - 1);
      TreesOk(cfg, c, i - 1);
      assert EntryOk(cfg, c, i);
      UpdateNodes(cfg.hashPath, TreeAt(c, i - 1), c[i - 1].blk.updates - cfg.nonProvable, c[i - 1].blk.deletes);
    }
  }

  lemma {:induction false} BlockVersion(cfg: Config, c: Chain, i: nat)
    requires ChainOk(cfg, c) && 1 <= i <= |c|
    ensures TreeAt(c, i).version == TreeAt(c, i - 1).version + (if TouchesTree(cfg, c[i - 1].blk) then 1 else 0)
    ensures !TouchesTree(cfg, c[i - 1].blk) ==> TreeAt(c, i) == TreeAt(c, i - 1)
  {
    assert EntryOk(cfg, c, i);
    var blk := c[i - 1].blk;
    var ups := blk.updates - cfg.nonProvable;
    assert ups.Keys == blk.updates.Keys - cfg.nonProvable;
    assert Touched(TreeAt(c, i - 1), ups, blk.deletes) == ups.Keys + blk.deletes;
  }

  lemma {:induction false} VersionsGrow(cfg: Config, c: Chain, i: nat, j: nat)
    requires ChainOk(cfg, c) && i <= j <= |c|
    ensures TreeAt(c, i).version <= TreeAt(c, j).version
    decreases j
  {
    if i < j {
      VersionsGrow(cfg, c, i, j - 1);
      TreesOk(cfg, c, j);
    }
  }

  /** An item version that some tree had reached and a later tree contains was never away. */
  lemma {:induction false} Persists(cfg: Config, c: Chain, i: nat, j: nat, x: Item, w: nat)
    requires ChainOk(cfg, c) && i <= j <= |c|
    requires HasItem(TreeAt(c, j), x, w) && w <= TreeAt(c, i).version
    ensures HasItem(TreeAt(c, i), x, w)
    decreases j
  {
    if i < j {
      TreesOk(cfg, c, j);
      VersionsGrow(cfg, c, i, j - 1);
      Persists(cfg, c, i, j - 1, x, w);
    }
  }

  /** The writer of a version is the one block that moves the tree to it. */
  lemma {:induction false} WriterIs(cfg: Config, c: Chain, w: nat, i: nat, n: nat)
    requires ChainOk(cfg, c) && 1 <= i <= n <= |c|
    requires TreeAt(c, i - 1).version < w <= TreeAt(c, i).version
    ensures Writer(c, w, n) == i
    decreases n
  {
    if i < n {
      VersionsGrow(cfg, c, i, n - 1);
      WriterIs(cfg, c, w, i, n - 1);
    }
  }

  /** Every positive version the chain reached has a writer. */
  lemma {:induction false} WriterExists(cfg: Config, c: Chain, w: nat, n: nat)
    requires ChainOk(cfg, c) && n <= |c| && 0 < w <= TreeAt(c, n).version
    ensures var i := Writer(c, w, n); 1 <= i <= n && TreeAt(c, i - 1).version < w == TreeAt(c, i).version
    decreases n
  {
    if n > 0 {
      TreesOk(cfg, c, n);
      if TreeAt(c, n - 1).version >= w {
        WriterExists(cfg, c, w, n - 1);
      }
    }
  }

  /** A kept leaf was written by the writer of its version. */
  lemma {:induction false} KeptLeaf(cfg: Config, c: Chain, g: nat, k: Key, w: nat)
    requires ChainOk(cfg, c) && Kept(c, g, LeafItem(k), w)
    ensures var i := Writer(c, w, |c|);
      && 1 <= i <= |c| && TreeAt(c, i - 1).version < w == TreeAt(c, i).version
      && k in c[i - 1].blk.updates && k !in cfg.nonProvable
  {
    var j :| OldestTree(g) <= j <= |c| && HasItem(TreeAt(c, j), LeafItem(k), w);
    TreesOk(cfg, c, j);
    VersionsGrow(cfg, c, j, |c|);
    WriterExists(cfg, c, w, |c|);
    var i := Writer(c, w, |c|);
    if j < i {
      VersionsGrow(cfg, c, j, i - 1);
    }
    Persists(cfg, c, i, j, LeafItem(k), w);
    TreesOk(cfg, c, i - 1);
    BlockLeaf(cfg, c, i, k);
  }

  /** A kept leaf is in the database as written, with the block that deleted it. */
  lemma {:induction false} LeafIs(cfg: Config, c: Chain, g: nat, k: Key, w: nat)
    requires ChainOk(cfg, c)
    ensures Kept(c, g, LeafItem(k), w) <==> ExpectLeaf(c, g, k, w).Some?
  {
    if Kept(c, g, LeafItem(k), w) {
      KeptLeaf(cfg, c, g, k, w);
    }
  }
}
