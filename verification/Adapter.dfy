/** The DB adapter as it works: a class that updates its database and cached values in place. */
module Adapter {
  import opened Common
  import opened SparseTree
  import opened AdapterSpec
  import opened Linking
  import opened Recovery
  import opened AdapterRuns

  // ---------- the batch of a new block, part by part ----------

  /** The delete stamps of a block. */
  function StampAt(db: Db, cached: nat, deleted: set<Key>, id: nat, y: DbKey): Option<DbVal> {
    if y.LeafKey? && y.key in deleted && LeafAtMost(db, y.key, cached) == Some(y.version) then
      Some(LeafVal(LeafAt(db, y.key, y.version).value.(deletedIn := Some(id))))
    else None
  }

  /** What batchToDbUpdates writes: the new items of the tree and the index of the stale ones. */
  function TreeWriteAt(cfg: Config, plan: Plan, y: DbKey): Option<DbVal> {
    match y
    case InternalKey(w, p) =>
      if Fresh(plan, NodeItem(p), w) then Some(InternalVal(Below(cfg.hashPath, plan.newTree, p))) else None
    case LeafKey(k, w) =>
      if Fresh(plan, LeafItem(k), w) && k in plan.newTree.vals then
        Some(LeafVal(Leaf(plan.id, plan.newTree.vals[k], None))) else None
    case StaleKey(since, target) =>
      if since == plan.newTree.version && Dropped(plan, target) then Some(Marker) else None
    case _ => None
  }

  /** The non-provable entries of some of the updated keys, and the index of the ones they make stale. */
  function NpWriteAt(db: Db, done: map<Key, Value>, id: nat, y: DbKey): Option<DbVal> {
    match y
    case NpKey(k, i) => if i == id && k in done then Some(NpVal(done[k])) else None
    case NpStaleKey(since, target) =>
      if && since == id && id > INITIAL_GENESIS_BLOCK_ID && target.NpKey? && target.key in done
         && NpAtMost(db, target.key, id - 1) == Some(target.id)
      then Some(Marker) else None
    case _ => None
  }

  function NonProvableOf(cfg: Config, updates: map<Key, Value>): map<Key, Value> {
    map k | k in updates && k in cfg.nonProvable :: updates[k]
  }

  /** The stale index of the items already visited. */
  function StaleWriteAt(cfg: Config, plan: Plan, rest: set<Item>, y: DbKey): Option<DbVal> {
    if y.StaleKey? && KeyItem(y.target).Some? && KeyItem(y.target).value.0 !in rest
    then TreeWriteAt(cfg, plan, y) else None
  }

  /** The whole stale index, and the new items already visited. */
  function FreshWriteAt(cfg: Config, plan: Plan, rest: set<Item>, y: DbKey): Option<DbVal> {
    if y.StaleKey? || (KeyItem(y).Some? && KeyItem(y).value.0 !in rest)
    then TreeWriteAt(cfg, plan, y) else None
  }

  /** A key of the batch comes from exactly one of its parts. */
  lemma {:induction false} PartOf(cfg: Config, db: Db, plan: Plan, y: DbKey)
    ensures WriteAt(cfg, db, plan, y) ==
      var np := NpWriteAt(db, NonProvableOf(cfg, plan.updates), plan.id, y);
      var stamp := StampAt(db, plan.cached, plan.deleted, plan.id, y);
      if np.Some? then np
      else if y == BlockKey(plan.id) then Some(NodeVal(PlanNode(plan)))
      else if stamp.Some? then stamp
      else TreeWriteAt(cfg, plan, y)
  {
  }

  function Assemble(treeBatch: Db, stamps: Db, id: nat, node: Node, npBatch: Db): Db {
    treeBatch + stamps + map[BlockKey(id) := NodeVal(node)] + npBatch
  }

  lemma {:induction false} AssembledAt(treeBatch: Db, stamps: Db, id: nat, node: Node, npBatch: Db, y: DbKey)
    ensures Lookup(Assemble(treeBatch, stamps, id, node, npBatch), y) ==
      if y in npBatch then Lookup(npBatch, y)
      else if y == BlockKey(id) then Some(NodeVal(node))
      else if y in stamps then Lookup(stamps, y)
      else Lookup(treeBatch, y)
  {
  }

  lemma {:induction false} WritesAreParts(cfg: Config, db: Db, plan: Plan, stamps: Db, treeBatch: Db, npBatch: Db)
    requires forall y :: Lookup(stamps, y) == StampAt(db, plan.cached, plan.deleted, plan.id, y)
    requires forall y :: Lookup(treeBatch, y) == TreeWriteAt(cfg, plan, y)
    requires forall y :: Lookup(npBatch, y) == NpWriteAt(db, NonProvableOf(cfg, plan.updates), plan.id, y)
    ensures Assemble(treeBatch, stamps, plan.id, PlanNode(plan), npBatch) == Writes(cfg, db, plan)
  {
    var node := PlanNode(plan);
    forall y
      ensures Lookup(Assemble(treeBatch, stamps, plan.id, node, npBatch), y) == Lookup(Writes(cfg, db, plan), y)
    {
      WritesAt(cfg, db, plan, y);
      PartOf(cfg, db, plan, y);
      AssembledAt(treeBatch, stamps, plan.id, node, npBatch, y);
      assert Lookup(stamps, y) == StampAt(db, plan.cached, plan.deleted, plan.id, y);
      assert Lookup(treeBatch, y) == TreeWriteAt(cfg, plan, y);
      assert Lookup(npBatch, y) == NpWriteAt(db, NonProvableOf(cfg, plan.updates), plan.id, y);
    }
    SameLookups(Assemble(treeBatch, stamps, plan.id, node, npBatch), Writes(cfg, db, plan));
  }

  // ---------- one iteration of each loop ----------

  lemma {:induction false} StampStep(db: Db, cached: nat, deleted: set<Key>, id: nat, k: Key, batch: Db)
    requires k !in deleted && LeafAtMost(db, k, cached).Some?
    requires forall y :: Lookup(batch, y) == StampAt(db, cached, deleted, id, y)
    ensures var w := LeafAtMost(db, k, cached).value;
      var batch' := batch[LeafKey(k, w) := LeafVal(LeafAt(db, k, w).value.(deletedIn := Some(id)))];
      forall y :: Lookup(batch', y) == StampAt(db, cached, deleted + {k}, id, y)
  {
    var w := LeafAtMost(db, k, cached).value;
    var batch' := batch[LeafKey(k, w) := LeafVal(LeafAt(db, k, w).value.(deletedIn := Some(id)))];
    forall y
      ensures Lookup(batch', y) == StampAt(db, cached, deleted + {k}, id, y)
    {
      assert Lookup(batch, y) == StampAt(db, cached, deleted, id, y);
    }
  }

  lemma {:induction false} StaleStep(cfg: Config, plan: Plan, rest: set<Item>, x: Item, batch: Db, batch': Db)
    requires plan.newTree.version > plan.oldTree.version && x in rest && x in plan.oldTree.items
    requires forall y :: Lookup(batch, y) == StaleWriteAt(cfg, plan, rest, y)
    requires var w := plan.oldTree.items[x];
      batch' == if HasItem(plan.newTree, x, w) then batch
                else batch[StaleKey(plan.newTree.version, ItemKey(x, w)) := Marker]
    ensures forall y :: Lookup(batch', y) == StaleWriteAt(cfg, plan, rest - {x}, y)
  {
    var w := plan.oldTree.items[x];
    assert KeyItem(ItemKey(x, w)) == Some((x, w));
    forall y
      ensures Lookup(batch', y) == StaleWriteAt(cfg, plan, rest - {x}, y)
    {
      assert Lookup(batch, y) == StaleWriteAt(cfg, plan, rest, y);
      assert y.StaleKey? && KeyItem(y.target) == Some((x, w)) ==> y.target == ItemKey(x, w);
    }
  }

  /** The write of one new item of the tree. */
  function ItemVal(cfg: Config, plan: Plan, x: Item): Option<DbVal> {
    match x
    case LeafItem(k) =>
      if k in plan.newTree.vals then Some(LeafVal(Leaf(plan.id, plan.newTree.vals[k], None))) else None
    case NodeItem(p) => Some(InternalVal(Below(cfg.hashPath, plan.newTree, p)))
  }

  lemma {:induction false} FreshStep(cfg: Config, plan: Plan, rest: set<Item>, x: Item, batch: Db, batch': Db)
    requires plan.newTree.version > plan.oldTree.version && x in rest && x in plan.newTree.items
    requires forall y :: Lookup(batch, y) == FreshWriteAt(cfg, plan, rest, y)
    requires var w := plan.newTree.items[x];
      batch' == if w == plan.newTree.version && ItemVal(cfg, plan, x).Some?
                then batch[ItemKey(x, w) := ItemVal(cfg, plan, x).value] else batch
    ensures forall y :: Lookup(batch', y) == FreshWriteAt(cfg, plan, rest - {x}, y)
  {
    var w := plan.newTree.items[x];
    assert KeyItem(ItemKey(x, w)) == Some((x, w));
    forall y
      ensures Lookup(batch', y) == FreshWriteAt(cfg, plan, rest - {x}, y)
    {
      assert Lookup(batch, y) == FreshWriteAt(cfg, plan, rest, y);
      if KeyItem(y).Some? && KeyItem(y).value.0 == x {
        assert y == ItemKey(x, KeyItem(y).value.1);
      }
    }
  }

  /** Between the two loops of batchToDbUpdates, and after them. */
  lemma {:induction false} LoopEnds(cfg: Config, plan: Plan, y: DbKey)
    requires plan.newTree.version > plan.oldTree.version
    ensures StaleWriteAt(cfg, plan, {}, y) == FreshWriteAt(cfg, plan, plan.newTree.items.Keys, y)
    ensures FreshWriteAt(cfg, plan, {}, y) == TreeWriteAt(cfg, plan, y)
  {
  }

  lemma {:induction false} UntouchedTree(cfg: Config, plan: Plan, y: DbKey)
    requires plan.newTree.version <= plan.oldTree.version
    ensures TreeWriteAt(cfg, plan, y) == None
  {
  }

  lemma {:induction false} NpStep(db: Db, done: map<Key, Value>, id: nat, k: Key, value: Value, batch: Db, batch': Db)
    requires k !in done
    requires forall y :: Lookup(batch, y) == NpWriteAt(db, done, id, y)
    requires var written := batch[NpKey(k, id) := NpVal(value)];
      batch' == if id > INITIAL_GENESIS_BLOCK_ID && NpAtMost(db, k, id - 1).Some?
                then written[NpStaleKey(id, NpKey(k, NpAtMost(db, k, id - 1).value)) := Marker] else written
    ensures forall y :: Lookup(batch', y) == NpWriteAt(db, done[k := value], id, y)
  {
    forall y
      ensures Lookup(batch', y) == NpWriteAt(db, done[k := value], id, y)
    {
      assert Lookup(batch, y) == NpWriteAt(db, done, id, y);
    }
  }

  // ---------- deleting keys ----------

  /** The keys of a block node already visited, and the block node. */
  predicate KeyOfBlock(cfg: Config, node: Node, id: nat, rest: set<Key>, y: DbKey) {
    match y
    case BlockKey(i) => i == id
    case LeafKey(k, w) => k in node.keys && k !in rest && k !in cfg.nonProvable && w == node.version
    case NpKey(k, i) => k in node.keys && k !in rest && k in cfg.nonProvable && i == id
    case _ => false
  }

  lemma {:induction false} RemovedIsWithout(db: Db, keys: set<DbKey>, dead: DbKey -> bool)
    requires forall y :: y in db ==> (y in keys <==> dead(y))
    ensures db - keys == Without(db, dead)
  {
    forall y
      ensures Lookup(db - keys, y) == Lookup(Without(db, dead), y)
    {
      assert Lookup(Without(db, dead), y) == if dead(y) then None else Lookup(db, y);
    }
    SameLookups(db - keys, Without(db, dead));
  }

  lemma {:induction false} RemovesLast(cfg: Config, s: Ledger, node: Node, keys: set<DbKey>)
    requires s.last > 0 && NodeAt(s.db, s.last) == Some(node)
    requires forall y :: y in s.db ==> (y in keys <==> DiesWithLast(cfg, node, s.last, y))
    ensures DeleteLast(cfg, s).Ok? && DeleteLast(cfg, s).value.db == s.db - keys
  {
    RemovedIsWithout(s.db, keys, y => DiesWithLast(cfg, node, s.last, y));
  }

  lemma {:induction false} RemovesGenesis(cfg: Config, s: Ledger, node: Node, keys: set<DbKey>)
    requires s.genesis >= INITIAL_GENESIS_BLOCK_ID && s.genesis != s.last && NodeAt(s.db, s.genesis) == Some(node)
    requires forall y :: y in s.db ==> (y in keys <==> DiesWithGenesis(s.db, node, s.genesis, y))
    ensures DeleteGenesis(cfg, s).Ok? && DeleteGenesis(cfg, s).value.db == s.db - keys
  {
    RemovedIsWithout(s.db, keys, y => DiesWithGenesis(s.db, node, s.genesis, y));
  }

  /** A stale index entry, or the key such an entry points to. */
  predicate IndexedBy(index: set<DbKey>, y: DbKey)
    requires forall z :: z in index ==> z.StaleKey? || z.NpStaleKey?
  {
    y in index || exists z :: z in index && z.target == y
  }

  // ---------- reading a block back ----------

  /** The values of the keys of a block already visited. */
  function ValuesOf(cfg: Config, db: Db, node: Node, rest: set<Key>): map<Key, Value> {
    map k | k in node.keys && k !in rest && BlockKeyValue(cfg, db, node, k).Some?
      :: BlockKeyValue(cfg, db, node, k).value
  }

  lemma {:induction false} NoValues(cfg: Config, db: Db, node: Node)
    ensures ValuesOf(cfg, db, node, node.keys.Keys) == map[]
  {
  }

  lemma {:induction false} NextValue(cfg: Config, db: Db, node: Node, rest: set<Key>, k: Key)
    requires k in rest && k in node.keys
    ensures k !in ValuesOf(cfg, db, node, rest)
    ensures ValuesOf(cfg, db, node, rest - {k}) ==
      match BlockKeyValue(cfg, db, node, k)
      case Some(v) => ValuesOf(cfg, db, node, rest)[k := v]
      case None => ValuesOf(cfg, db, node, rest)
  {
    hide BlockKeyValue;
  }

  /** Non-provable keys must all have the same length. */
  predicate SameLength(keys: set<Key>) {
    forall a, b :: a in keys && b in keys ==> |a| == |b|
  }

  class DBAdapter {
    const cfg: Config
    var db: Db
    var temps: map<nat, RawBlock>
    var genesisBlockId: nat
    var lastReachableBlockId: nat
    var latestSTTempBlockId: Option<nat>
    var smTree: Tree

    function Current(): State
      reads this
    {
      State(Ledger(db, genesisBlockId, lastReachableBlockId, smTree), temps, latestSTTempBlockId)
    }

    /** Loads the cached ids. The tree root is read and the chains are linked by Start. */
    constructor (cfg: Config, db: Db, temps: map<nat, RawBlock>)
      ensures this.cfg == cfg
      ensures Current() == State(Ledger(db, LoadGenesis(db), LoadLast(db), EMPTY_TREE), temps, LatestTemp(temps))
    {
      this.cfg := cfg;
      this.db := db;
      this.temps := temps;
      genesisBlockId := LoadGenesis(db);
      lastReachableBlockId := LoadLast(db);
      latestSTTempBlockId := LatestTemp(temps);
      smTree := EMPTY_TREE;
    }

    /**
     * The rest of construction: reads the latest root, checks the non-provable keys and, when asked
     * to, finishes an interrupted linking.
     */
    method Start(linkTempSTChain: bool) returns (r: Result<()>)
      requires genesisBlockId == LoadGenesis(db) && lastReachableBlockId == LoadLast(db)
      requires latestSTTempBlockId == LatestTemp(temps)
      modifies this
      ensures match Load(old(db))
        case Err(e) => r == Err(e)
        case Ok(l) =>
          if !SameLength(cfg.nonProvable) then r == Err(RuntimeError)
          else if !linkTempSTChain then r.Ok? && Current() == State(l, old(temps), LatestTemp(old(temps)))
          else
            var spec := Open(cfg, old(db), old(temps));
            (r.Ok? <==> spec.Ok?) && (r.Ok? ==> Current() == spec.value)
    {
      hide LatestRoot, LinkLoop, LatestTemp, LoadGenesis, LoadLast;
      match LatestRoot(db, lastReachableBlockId)
      case Err(e) =>
        r := Err(e);
      case Ok(root) =>
        smTree := root;
        var same := CheckNonProvableKeys();
        if !same {
          r := Err(RuntimeError);
        } else if linkTempSTChain {
          r := LinkSTChainFrom(lastReachableBlockId + 1);
        } else {
          r := Ok(());
        }
    }

    /** Compares the length of every non-provable key with that of the first one. */
    method CheckNonProvableKeys() returns (same: bool)
      ensures same <==> SameLength(cfg.nonProvable)
    {
      if cfg.nonProvable == {} {
        return true;
      }
      var first :| first in cfg.nonProvable;
      var rest := cfg.nonProvable;
      while rest != {}
        invariant rest <= cfg.nonProvable
        invariant forall k :: k in cfg.nonProvable && k !in rest ==> |k| == |first|
        decreases |rest|
      {
        var k :| k in rest;
        if |first| != |k| {
          return false;
        }
        rest := rest - {k};
      }
      same := true;
    }

    // ---------- adding ----------

    /** Splits updates by walking over the non-provable keys. */
    method SplitToProvableAndNonProvable(updates: map<Key, Value>)
      returns (provable: map<Key, Value>, nonProvable: map<Key, Value>)
      ensures provable == updates - cfg.nonProvable
      ensures nonProvable == NonProvableOf(cfg, updates)
    {
      provable, nonProvable := updates, map[];
      var rest := cfg.nonProvable;
      while rest != {}
        invariant rest <= cfg.nonProvable
        invariant provable == updates - (cfg.nonProvable - rest)
        invariant nonProvable == map k | k in updates && k in cfg.nonProvable && k !in rest :: updates[k]
        decreases |rest|
      {
        var k :| k in rest;
        rest := rest - {k};
        if k in provable {
          nonProvable := nonProvable[k := provable[k]];
          provable := provable - {k};
        }
      }
    }

    /** Stamps the newest leaf of every deleted-only key that has one. */
    method StampDeletes(deletesOnly: set<Key>, id: nat) returns (batch: Db, actuallyDeleted: set<Key>)
      ensures actuallyDeleted == ActuallyDeleted(db, smTree.version, deletesOnly)
      ensures forall y :: Lookup(batch, y) == StampAt(db, smTree.version, actuallyDeleted, id, y)
    {
      batch, actuallyDeleted := map[], {};
      var rest := deletesOnly;
      while rest != {}
        invariant rest <= deletesOnly
        invariant actuallyDeleted == ActuallyDeleted(db, smTree.version, deletesOnly - rest)
        invariant forall y :: Lookup(batch, y) == StampAt(db, smTree.version, actuallyDeleted, id, y)
        decreases |rest|
      {
        var k :| k in rest;
        rest := rest - {k};
        var found := LeafAtMost(db, k, smTree.version);
        if found.Some? {
          StampStep(db, smTree.version, actuallyDeleted, id, k, batch);
          var stamped := LeafAt(db, k, found.value).value.(deletedIn := Some(id));
          batch := batch[LeafKey(k, found.value) := LeafVal(stamped)];
          actuallyDeleted := actuallyDeleted + {k};
        }
      }
    }

    /** Turns the update of the tree into database writes. */
    method BatchToDbUpdates(plan: Plan) returns (batch: Db)
      requires plan.newTree.version > plan.oldTree.version
      ensures forall y :: Lookup(batch, y) == TreeWriteAt(cfg, plan, y)
    {
      batch := map[];
      var rest := plan.oldTree.items.Keys;
      while rest != {}
        invariant rest <= plan.oldTree.items.Keys
        invariant forall y :: Lookup(batch, y) == StaleWriteAt(cfg, plan, rest, y)
        decreases |rest|
      {
        var x :| x in rest;
        ghost var before := batch;
        var w := plan.oldTree.items[x];
        if !HasItem(plan.newTree, x, w) {
          batch := batch[StaleKey(plan.newTree.version, ItemKey(x, w)) := Marker];
        }
        StaleStep(cfg, plan, rest, x, before, batch);
        rest := rest - {x};
      }
      forall y
        ensures Lookup(batch, y) == FreshWriteAt(cfg, plan, plan.newTree.items.Keys, y)
      {
        assert Lookup(batch, y) == StaleWriteAt(cfg, plan, {}, y);
        LoopEnds(cfg, plan, y);
      }
      rest := plan.newTree.items.Keys;
      while rest != {}
        invariant rest <= plan.newTree.items.Keys
        invariant forall y :: Lookup(batch, y) == FreshWriteAt(cfg, plan, rest, y)
        decreases |rest|
      {
        var x :| x in rest;
        ghost var before := batch;
        var w := plan.newTree.items[x];
        var value := ItemVal(cfg, plan, x);
        if w == plan.newTree.version && value.Some? {
          batch := batch[ItemKey(x, w) := value.value];
        }
        FreshStep(cfg, plan, rest, x, before, batch);
        rest := rest - {x};
      }
      forall y
        ensures Lookup(batch, y) == TreeWriteAt(cfg, plan, y)
      {
        assert Lookup(batch, y) == FreshWriteAt(cfg, plan, {}, y);
        LoopEnds(cfg, plan, y);
      }
    }

    /** Writes the non-provable pairs and marks the entries they make stale. */
    method NonProvableUpdates(pairs: map<Key, Value>, id: nat) returns (batch: Db)
      ensures forall y :: Lookup(batch, y) == NpWriteAt(db, pairs, id, y)
    {
      batch := map[];
      var rest := pairs.Keys;
      ghost var done: map<Key, Value> := map[];
      while rest != {}
        invariant rest <= pairs.Keys && done == pairs - rest
        invariant forall y :: Lookup(batch, y) == NpWriteAt(db, done, id, y)
        decreases |rest|
      {
        var k :| k in rest;
        rest := rest - {k};
        ghost var before := batch;
        batch := batch[NpKey(k, id) := NpVal(pairs[k])];
        if id > INITIAL_GENESIS_BLOCK_ID {
          var stale := NpAtMost(db, k, id - 1);
          if stale.Some? {
            batch := batch[NpStaleKey(id, NpKey(k, stale.value)) := Marker];
          }
        }
        NpStep(db, done, id, k, pairs[k], before, batch);
        done := done[k := pairs[k]];
      }
      assert pairs - {} == pairs;
    }

    /** lastReachableBlockDbUpdates: the writes of the next block and the tree it leads to. */
    method LastReachableBlockDbUpdates(updates: map<Key, Value>, deletes: set<Key>) returns (r: Result<(Db, Tree)>)
      ensures r == BlockUpdates(cfg, Current().ledger, updates, deletes)
    {
      hide Writes, ParentDigest, LatestRoot, Update, PlanNode, StampAt, TreeWriteAt, NpWriteAt;
      var id := lastReachableBlockId + 1;
      var digest := ParentDigest(cfg, db, id);
      if digest.Err? {
        return Err(digest.error);
      }
      if deletes * cfg.nonProvable != {} {
        return Err(RuntimeError);
      }
      var stamps, deleted := StampDeletes(deletes - updates.Keys, id);
      var provable, nonProvable := SplitToProvableAndNonProvable(updates);
      var oldTree, newTree := smTree, smTree;
      if provable != map[] || deleted != {} {
        var root := LatestRoot(db, lastReachableBlockId);
        if root.Err? {
          return Err(root.error);
        }
        oldTree := root.value;
        newTree := Update(cfg.hashPath, oldTree, provable, deleted);
      }
      var plan := Plan(id, updates, deleted, digest.value, smTree.version, oldTree, newTree);
      var treeBatch: Db := map[];
      if newTree.version > oldTree.version {
        treeBatch := BatchToDbUpdates(plan);
      } else {
        forall y
          ensures Lookup(treeBatch, y) == TreeWriteAt(cfg, plan, y)
        {
          UntouchedTree(cfg, plan, y);
        }
      }
      var npBatch := NonProvableUpdates(nonProvable, id);
      WritesAreParts(cfg, db, plan, stamps, treeBatch, npBatch);
      r := Ok((Assemble(treeBatch, stamps, id, PlanNode(plan), npBatch), newTree));
    }

    /** addBlock. */
    method AddBlock(updates: map<Key, Value>, deletes: set<Key>) returns (r: Result<nat>)
      modifies this
      ensures match Apply(cfg, old(Current()), AddOp(updates, deletes))
        case Ok(s) => r == Ok(old(lastReachableBlockId) + 1) && Current() == s && s.ledger.last == r.value
        case Err(e) => r == Err(e) && Current() == old(Current())
    {
      hide BlockUpdates;
      var built := LastReachableBlockDbUpdates(updates, deletes);
      if built.Err? {
        return Err(built.error);
      }
      db := db + built.value.0;
      smTree := built.value.1;
      lastReachableBlockId := lastReachableBlockId + 1;
      if genesisBlockId == 0 {
        genesisBlockId := INITIAL_GENESIS_BLOCK_ID;
      }
      r := Ok(lastReachableBlockId);
    }

    /** linkSTChainFrom: moves temporary blocks to the chain until one is missing. */
    method LinkSTChainFrom(from: nat) returns (r: Result<()>)
      requires from == lastReachableBlockId + 1
      modifies this
      ensures match LinkLoop(Linked(cfg), old(Current()), from, LatestBlockId(old(Current())))
        case Ok(s) => r.Ok? && Current() == s
        case Err(e) => r == Err(e)
    {
      hide BlockUpdates;
      var latest := if latestSTTempBlockId.Some? then latestSTTempBlockId.value else lastReachableBlockId;
      var i := from;
      while i <= latest
        invariant i == lastReachableBlockId + 1
        invariant LinkLoop(Linked(cfg), Current(), i, latest)
               == LinkLoop(Linked(cfg), old(Current()), from, LatestBlockId(old(Current())))
        decreases latest + 1 - i
      {
        if i !in temps {
          return Ok(());
        }
        var block := temps[i];
        ghost var before := Current();
        var built := LastReachableBlockDbUpdates(block.updates, block.deletes);
        assert built.Err? ==> Linked(cfg)(before.ledger, block) == Err(built.error);
        if built.Err? {
          return Err(built.error);
        }
        temps := temps - {i};
        db := db + built.value.0;
        smTree := built.value.1;
        lastReachableBlockId := i;
        assert Linked(cfg)(before.ledger, block) == Ok(Current().ledger);
        i := i + 1;
      }
      latestSTTempBlockId := None;
      r := Ok(());
    }

    /** addRawBlock; a failure while linking terminates the process. */
    method AddRawBlock(block: RawBlock, id: nat) returns (r: Result<()>)
      modifies this
      ensures match Apply(cfg, old(Current()), AddRawOp(block, id))
        case Ok(s) => r.Ok? && Current() == s
        case Err(e) => r == Err(e) && (e != Aborted ==> Current() == old(Current()))
    {
      hide AdapterSpec.AddBlock, LinkBlock, LinkLoop;
      if id <= lastReachableBlockId {
        return Err(InvalidArgument);
      }
      if id == lastReachableBlockId + 1 {
        var added := AddBlock(block.updates, block.deletes);
        if added.Err? {
          return Err(added.error);
        }
        assert Adding(cfg)(old(Current()).ledger, block) == Ok(Current().ledger);
        var linked := LinkSTChainFrom(id + 1);
        return if linked.Ok? then Ok(()) else Err(Aborted);
      }
      temps := temps[id := block];
      if latestSTTempBlockId.Some? {
        if id > latestSTTempBlockId.value {
          latestSTTempBlockId := Some(id);
        }
      } else {
        latestSTTempBlockId := Some(id);
      }
      r := Ok(());
    }

    // ---------- deleting ----------

    /** Collects the keys that go with the last block: leaves, non-provable keys, nodes, indexes and the block node. */
    method LastReachableBlockKeyDeletes(node: Node, id: nat) returns (keys: set<DbKey>)
      ensures forall y :: y in db ==> (y in keys <==> DiesWithLast(cfg, node, id, y))
    {
      keys := {BlockKey(id)};
      var rest := node.keys.Keys;
      while rest != {}
        invariant rest <= node.keys.Keys
        invariant forall y :: y in keys <==> KeyOfBlock(cfg, node, id, rest, y)
        decreases |rest|
      {
        var k :| k in rest;
        rest := rest - {k};
        keys := keys + {if k in cfg.nonProvable then NpKey(k, id) else LeafKey(k, node.version)};
      }
      keys := keys
        + (set y | y in db && y.InternalKey? && y.version == node.version)
        + (set y | y in db && y.StaleKey? && y.since == node.version)
        + (set y | y in db && y.NpStaleKey? && y.since == id);
    }

    /** deleteLastReachableBlock. */
    method DeleteLastReachableBlock() returns (r: Result<()>)
      modifies this
      ensures match Apply(cfg, old(Current()), DeleteLastOp)
        case Ok(s) => r.Ok? && Current() == s
        case Err(e) => r == Err(e) && Current() == old(Current())
    {
      if lastReachableBlockId == 0 {
        return Ok(());
      }
      var node := NodeAt(db, lastReachableBlockId);
      if node.None? {
        return Err(RuntimeError);
      }
      var keys := LastReachableBlockKeyDeletes(node.value, lastReachableBlockId);
      RemovesLast(cfg, Current().ledger, node.value, keys);
      db := db - keys;
      if lastReachableBlockId == genesisBlockId {
        genesisBlockId, lastReachableBlockId := 0, 0;
      } else {
        lastReachableBlockId := lastReachableBlockId - 1;
      }
      r := Ok(());
    }

    /** Collects what became stale in the genesis block, the stale index entries, and the block node. */
    method GenesisBlockKeyDeletes(node: Node, id: nat) returns (keys: set<DbKey>)
      ensures forall y :: y in db ==> (y in keys <==> DiesWithGenesis(db, node, id, y))
    {
      keys := {BlockKey(id)};
      var index := set y | y in db && ((y.StaleKey? && y.since == node.version) || (y.NpStaleKey? && y.since == id));
      var rest := index;
      while rest != {}
        invariant rest <= index
        invariant forall y :: y in keys <==> y == BlockKey(id) || IndexedBy(index - rest, y)
        decreases |rest|
      {
        var z :| z in rest;
        ghost var seen := index - rest;
        rest := rest - {z};
        keys := keys + {z, z.target};
        assert index - rest == seen + {z};
      }
      assert index - {} == index;
    }

    /** deleteGenesisBlock; the caller has checked that it is not the only block. */
    method DeleteGenesisBlock() returns (r: Result<()>)
      requires INITIAL_GENESIS_BLOCK_ID <= genesisBlockId != lastReachableBlockId
      modifies this
      ensures match DeleteGenesis(cfg, old(Current()).ledger)
        case Ok(l) => r.Ok? && Current() == old(Current()).(ledger := l)
        case Err(e) => r == Err(e) && Current() == old(Current())
    {
      var node := NodeAt(db, genesisBlockId);
      if node.None? {
        return Err(RuntimeError);
      }
      var keys := GenesisBlockKeyDeletes(node.value, genesisBlockId);
      RemovesGenesis(cfg, Current().ledger, node.value, keys);
      db := db - keys;
      genesisBlockId := genesisBlockId + 1;
      r := Ok(());
    }

    /** deleteBlock. */
    method DeleteBlock(id: nat) returns (r: Result<()>)
      modifies this
      ensures match Apply(cfg, old(Current()), DeleteOp(id))
        case Ok(s) => r.Ok? && Current() == s
        case Err(e) => r == Err(e) && Current() == old(Current())
    {
      var latest := if latestSTTempBlockId.Some? then latestSTTempBlockId.value else lastReachableBlockId;
      if id < INITIAL_GENESIS_BLOCK_ID || latest == 0 || id > latest {
        return Ok(());
      }
      if id > lastReachableBlockId {
        temps := temps - {id};
        latestSTTempBlockId := LatestTemp(temps);
        return Ok(());
      }
      if id == lastReachableBlockId && id == genesisBlockId {
        r := Err(LogicError);
      } else if id == lastReachableBlockId {
        r := DeleteLastReachableBlock();
      } else if id == genesisBlockId {
        r := DeleteGenesisBlock();
      } else {
        r := Err(InvalidArgument);
      }
    }

    // ---------- reading ----------

    /** The loop of getRawBlock: None when the value of an updated key is missing. */
    method CollectKeyValues(node: Node) returns (r: Option<(map<Key, Value>, set<Key>)>)
      ensures r.None? <==> exists k :: k in node.keys && !node.keys[k] && BlockKeyValue(cfg, db, node, k).None?
      ensures r.Some? ==> r.value.0 == ValuesOf(cfg, db, node, {}) && r.value.1 == node.keys.Keys - r.value.0.Keys
    {
      hide BlockKeyValue, ValuesOf;
      var updates: map<Key, Value>, deletes: set<Key> := map[], {};
      var rest := node.keys.Keys;
      NoValues(cfg, db, node);
      while rest != {}
        invariant rest <= node.keys.Keys
        invariant forall k :: k in node.keys && k !in rest && !node.keys[k] ==> BlockKeyValue(cfg, db, node, k).Some?
        invariant updates == ValuesOf(cfg, db, node, rest)
        invariant forall k :: k in deletes <==> k in node.keys && k !in rest && k !in updates
        decreases |rest|
      {
        var k :| k in rest;
        var value := BlockKeyValue(cfg, db, node, k);
        NextValue(cfg, db, node, rest, k);
        if value.Some? {
          updates := updates[k := value.value];
        } else if node.keys[k] {
          deletes := deletes + {k};
        } else {
          return None;
        }
        rest := rest - {k};
      }
      r := Some((updates, deletes));
    }

    /** getRawBlock. */
    method RawBlockOf(id: nat) returns (r: Result<RawBlock>)
      ensures r == GetRawBlock(cfg, db, temps, id)
    {
      hide BlockKeyValue;
      var found := NodeAt(db, id);
      if found.None? {
        return if id in temps then Ok(temps[id]) else Err(NotFound);
      }
      if found.value.id != id {
        return Err(Aborted);
      }
      var pairs := CollectKeyValues(found.value);
      if pairs.None? {
        return Err(Aborted);
      }
      assert pairs.value.0 == map k | k in found.value.keys && BlockKeyValue(cfg, db, found.value, k).Some?
                                :: BlockKeyValue(cfg, db, found.value, k).value;
      r := Ok(RawBlock(pairs.value.0, pairs.value.1, found.value.parentDigest, found.value.stateHash));
    }
  }
}
