/** The internal nodes of the tree in the database: which are stored, what each holds, and walking them to a leaf. */
module StoredTree {
  import opened Common
  import opened SparseTree
  import opened AdapterSpec
  import opened ChainView
  import opened Growth
  import opened Linking
  import opened Recovery
  import opened Crashes
  import opened RawChain

  // ---------- which nodes a block writes ----------

  /** Where the new tree has a node. */
  ghost predicate HasNode(cfg: Config, vals: map<Key, Value>, p: Path) {
    p == [] || (|p| < MAX_NIBBLES && Shared(cfg.hashPath, vals, p))
  }

  /**
   * On any database in order, a block writes the internal node at a path exactly when the hash of a key that it
   * updates or really removes starts with the path, and the path is the root's or two keys of the new tree share
   * it. It indexes as stale exactly the nodes of the old tree on such a path.
   */
  lemma {:induction false} NodesWritten(
    cfg: Config, l: Ledger, updates: map<Key, Value>, deletes: set<Key>, plan: Plan, w: nat, p: Path)
    requires RawOk(cfg, l) && MakePlan(cfg, l, updates, deletes) == Ok(plan)
    ensures AddBlock(cfg, l, updates, deletes).Ok?
    ensures var db' := AddBlock(cfg, l, updates, deletes).value.db;
      var passed := Passes(cfg.hashPath, plan.oldTree, updates - cfg.nonProvable, plan.deleted, p);
      && (InternalKey(w, p) in db' <==>
           || InternalKey(w, p) in l.db
           || (w == plan.newTree.version && passed && HasNode(cfg, plan.newTree.vals, p)))
      && (StaleKey(plan.newTree.version, InternalKey(w, p)) in db' <==>
           || StaleKey(plan.newTree.version, InternalKey(w, p)) in l.db
           || (HasItem(plan.oldTree, NodeItem(p), w) && passed))
  {
    hide MakePlan, RawOk, Writes, AddBlock, Update, Below, Passes, Shared;
    var ups := updates - cfg.nonProvable;
    AddedAt(cfg, l, updates, deletes, plan, InternalKey(w, p));
    AddedAt(cfg, l, updates, deletes, plan, StaleKey(plan.newTree.version, InternalKey(w, p)));
    assert Lookup(l.db, InternalKey(w, p)).Some? <==> InternalKey(w, p) in l.db;
    RootsOf(cfg, l);
    PlanTrees(cfg, l, updates, deletes, plan);
    if ReadsRoot(cfg, l, updates, deletes) {
      PlanNodes(cfg, l, updates, deletes, plan);
      NodeMoves(cfg, plan.oldTree, ups, plan.deleted, w, p);
    } else {
      NothingPasses(cfg, plan.oldTree, updates, p);
    }
  }

  lemma {:induction false} NothingPasses(cfg: Config, t: Tree, updates: map<Key, Value>, p: Path)
    requires updates.Keys <= cfg.nonProvable
    ensures !Passes(cfg.hashPath, t, updates - cfg.nonProvable, {}, p)
  {
  }

  /** One update, one path: which node version comes and which goes. */
  lemma {:induction false} NodeMoves(cfg: Config, t: Tree, ups: map<Key, Value>, dels: set<Key>, w: nat, p: Path)
    requires TreeOk(t) && NodesExact(cfg.hashPath, t)
    ensures var t' := Update(cfg.hashPath, t, ups, dels);
      var passed := Passes(cfg.hashPath, t, ups, dels, p);
      && (t'.version > t.version && w == t'.version && HasItem(t', NodeItem(p), w)
          <==> w == t'.version && passed && HasNode(cfg, t'.vals, p))
      && (t'.version > t.version && HasItem(t, NodeItem(p), w) && !HasItem(t', NodeItem(p), w)
          <==> HasItem(t, NodeItem(p), w) && passed)
  {
    hide Update, Passes, Shared, Touched;
    UpdateFollows(cfg.hashPath, t, ups, dels);
    UpdateNodes(cfg.hashPath, t, ups, dels);
    PassedMeansTouched(cfg, t, ups, dels, p);
  }

  lemma {:induction false} PassedMeansTouched(cfg: Config, t: Tree, ups: map<Key, Value>, dels: set<Key>, p: Path)
    ensures Passes(cfg.hashPath, t, ups, dels, p) ==> Touched(t, ups, dels) != {}
  {
    if Passes(cfg.hashPath, t, ups, dels, p) {
      var k :| (k in ups || (k in dels && k in t.vals)) && p <= cfg.hashPath(k);
      assert k in Touched(t, ups, dels);
    }
  }

  // ---------- the nodes of a represented chain ----------

  /** The hash of a provable key that block i updates, or of one it deletes, starts with a path. */
  ghost predicate Passed(cfg: Config, c: Chain, i: nat, p: Path)
    requires 1 <= i <= |c|
  {
    exists k ::
      ((k in c[i - 1].blk.updates && k !in cfg.nonProvable) || k in c[i - 1].blk.deletes) && p <= cfg.hashPath(k)
  }

  lemma {:induction false} PassedIs(cfg: Config, c: Chain, i: nat, p: Path)
    requires 1 <= i <= |c| && EntryOk(cfg, c, i)
    ensures Passed(cfg, c, i, p)
       <==> Passes(cfg.hashPath, TreeAt(c, i - 1), c[i - 1].blk.updates - cfg.nonProvable, c[i - 1].blk.deletes, p)
  {
  }

  lemma {:induction false} MovedBy(cfg: Config, c: Chain, i: nat, w: nat, p: Path)
    requires ChainOk(cfg, c) && 1 <= i <= |c|
    ensures var v := TreeAt(c, i).version;
      && (v > TreeAt(c, i - 1).version && w == v && HasItem(TreeAt(c, i), NodeItem(p), w)
          <==> w == v && Passed(cfg, c, i, p) && HasNode(cfg, TreeAt(c, i).vals, p))
      && (v > TreeAt(c, i - 1).version && LeftIn(c, i, NodeItem(p), w)
          <==> HasItem(TreeAt(c, i - 1), NodeItem(p), w) && Passed(cfg, c, i, p))
  {
    hide Update, Passed, Passes, Shared;
    assert EntryOk(cfg, c, i);
    TreesOk(cfg, c, i - 1);
    TreeNodes(cfg, c, i - 1);
    PassedIs(cfg, c, i, p);
    NodeMoves(cfg, TreeAt(c, i - 1), c[i - 1].blk.updates - cfg.nonProvable, c[i - 1].blk.deletes, w, p);
  }

  /** Item versions that block i brought, and those it dropped, by block i alone. */
  lemma {:induction false} KeptFrom(cfg: Config, c: Chain, g: nat, i: nat, x: Item)
    requires ChainOk(cfg, c) && 1 <= i <= |c| && g <= i && TreeAt(c, i - 1).version < TreeAt(c, i).version
    ensures Kept(c, g, x, TreeAt(c, i).version) <==> HasItem(TreeAt(c, i), x, TreeAt(c, i).version)
    ensures forall w :: StaleSince(c, g, TreeAt(c, i).version, x, w) <==> LeftIn(c, i, x, w)
  {
    hide ChainOk;
    var v := TreeAt(c, i).version;
    if Kept(c, g, x, v) {
      var j :| OldestTree(g) <= j <= |c| && HasItem(TreeAt(c, j), x, v);
      TreesOk(cfg, c, j);
      if j < i {
        VersionsGrow(cfg, c, j, i - 1);
      } else {
        Persists(cfg, c, i, j, x, v);
      }
    }
    forall j | 1 <= j <= |c| && TreeAt(c, j).version == v && TreeAt(c, j - 1) != TreeAt(c, j)
      ensures j == i
    {
      TreesOk(cfg, c, j);
      if j < i {
        VersionsGrow(cfg, c, j, i - 1);
      } else if i < j {
        VersionsGrow(cfg, c, i, j - 1);
      }
    }
  }

  /**
   * Of every block on a represented chain that changed the tree, the database holds, at the block's version, exactly
   * the nodes on the path of a key it changed where its tree has a node; and its stale index lists exactly the nodes of
   * the tree before it on such a path.
   */
  lemma {:induction false} BlockNodes(cfg: Config, l: Ledger, c: Chain, i: nat, w: nat, p: Path)
    requires Inv(cfg, l, c) && 1 <= i <= |c| && l.genesis <= i && TouchesTree(cfg, c[i - 1].blk)
    ensures var v := TreeAt(c, i).version;
      && v == TreeAt(c, i - 1).version + 1
      && (InternalKey(v, p) in l.db <==> Passed(cfg, c, i, p) && HasNode(cfg, TreeAt(c, i).vals, p))
      && (StaleKey(v, InternalKey(w, p)) in l.db <==>
           HasItem(TreeAt(c, i - 1), NodeItem(p), w) && Passed(cfg, c, i, p))
  {
    hide ChainOk, Kept, StaleSince, Passed, Shared;
    var v := TreeAt(c, i).version;
    BlockVersion(cfg, c, i);
    MovedBy(cfg, c, i, w, p);
    MovedBy(cfg, c, i, v, p);
    KeptFrom(cfg, c, l.genesis, i, NodeItem(p));
    assert Lookup(l.db, InternalKey(v, p)) == Expect(cfg, c, l.genesis, InternalKey(v, p));
    assert Lookup(l.db, StaleKey(v, InternalKey(w, p))) == Expect(cfg, c, l.genesis, StaleKey(v, InternalKey(w, p)));
  }

  /** Hence of the block that addBlock has just added, in terms of what it was asked for. */
  lemma {:induction false} NodesAfterAdd(
    cfg: Config, s: Ledger, c: Chain, updates: map<Key, Value>, deletes: set<Key>, w: nat, p: Path)
    requires Addable(cfg, s, c, updates, deletes) && TouchesTree(cfg, EffectiveBlk(c, updates, deletes))
    ensures AddBlock(cfg, s, updates, deletes).Ok?
    ensures var l' := AddBlock(cfg, s, updates, deletes).value;
      var c' := Extend(cfg, c, EffectiveBlk(c, updates, deletes));
      var v, passed := LastTree(c').version, Passed(cfg, c', |c'|, p);
      && (InternalKey(v, p) in l'.db <==> passed && HasNode(cfg, l'.tree.vals, p))
      && (StaleKey(v, InternalKey(w, p)) in l'.db <==> HasItem(LastTree(c), NodeItem(p), w) && passed)
  {
    hide Addable, Inv, AddBlock, Passed, Update, HasNode;
    AddBlockExtends(cfg, s, c, updates, deletes);
    var c' := Extend(cfg, c, EffectiveBlk(c, updates, deletes));
    assert TreeAt(c', |c|) == LastTree(c);
    ExtendedGenesis(cfg, AddBlock(cfg, s, updates, deletes).value, c');
    BlockNodes(cfg, AddBlock(cfg, s, updates, deletes).value, c', |c'|, w, p);
  }

  lemma {:induction false} ExtendedGenesis(cfg: Config, l: Ledger, c: Chain)
    requires Inv(cfg, l, c)
    ensures l.genesis <= |c|
  {
  }

  // ---------- what a node holds ----------

  /** A leaf or node at or below a path. */
  predicate Under(cfg: Config, q: Path, x: Item) {
    match x
    case LeafItem(k) => q <= cfg.hashPath(k)
    case NodeItem(p) => q <= p
  }

  /** Two trees agree at and below a path. */
  ghost predicate Agree(cfg: Config, t: Tree, t': Tree, q: Path) {
    && (forall x :: Under(cfg, q, x) ==>
         (x in t.items <==> x in t'.items) && (x in t.items ==> t.items[x] == t'.items[x]))
    && (forall k :: q <= cfg.hashPath(k) ==>
         (k in t.vals <==> k in t'.vals) && (k in t.vals ==> t.vals[k] == t'.vals[k]))
  }

  lemma {:induction false} PassesAbove(cfg: Config, c: Chain, i: nat, q: Path, p: Path)
    requires 1 <= i <= |c| && q <= p && Passed(cfg, c, i, p)
    ensures Passed(cfg, c, i, q)
  {
    var k :|
      ((k in c[i - 1].blk.updates && k !in cfg.nonProvable) || k in c[i - 1].blk.deletes) && p <= cfg.hashPath(k);
    assert q <= cfg.hashPath(k);
  }

  /** A block that leaves a node alone leaves everything below it alone. */
  lemma {:induction false} StepAgrees(cfg: Config, c: Chain, i: nat, q: Path, w: nat)
    requires ChainOk(cfg, c) && 1 <= i <= |c|
    requires HasItem(TreeAt(c, i - 1), NodeItem(q), w) && HasItem(TreeAt(c, i), NodeItem(q), w)
    ensures Agree(cfg, TreeAt(c, i - 1), TreeAt(c, i), q)
  {
    hide ChainOk, Update;
    TreesOk(cfg, c, i);
    TreesOk(cfg, c, i - 1);
    MovedBy(cfg, c, i, w, q);
    if TreeAt(c, i) != TreeAt(c, i - 1) {
      assert !Passed(cfg, c, i, q);
      forall x | Under(cfg, q, x)
        ensures x in TreeAt(c, i - 1).items <==> x in TreeAt(c, i).items
        ensures x in TreeAt(c, i).items ==> TreeAt(c, i - 1).items[x] == TreeAt(c, i).items[x]
      {
        ItemStays(cfg, c, i, q, x);
      }
      forall k | q <= cfg.hashPath(k)
        ensures k in TreeAt(c, i - 1).vals <==> k in TreeAt(c, i).vals
        ensures k in TreeAt(c, i).vals ==> TreeAt(c, i - 1).vals[k] == TreeAt(c, i).vals[k]
      {
        ValueStays(cfg, c, i, q, k);
      }
    }
  }

  lemma {:induction false} ItemStays(cfg: Config, c: Chain, i: nat, q: Path, x: Item)
    requires ChainOk(cfg, c) && 1 <= i <= |c| && !Passed(cfg, c, i, q) && Under(cfg, q, x)
    ensures var t, t' := TreeAt(c, i - 1), TreeAt(c, i);
      (x in t.items <==> x in t'.items) && (x in t.items ==> t.items[x] == t'.items[x])
  {
    hide Update, Passes;
    assert EntryOk(cfg, c, i);
    TreesOk(cfg, c, i - 1);
    var t, ups, dels := TreeAt(c, i - 1), c[i - 1].blk.updates - cfg.nonProvable, c[i - 1].blk.deletes;
    match x
    case LeafItem(k) =>
      UpdateFollows(cfg.hashPath, t, ups, dels);
    case NodeItem(p) =>
      TreeNodes(cfg, c, i - 1);
      UpdateNodes(cfg.hashPath, t, ups, dels);
      PassedIs(cfg, c, i, p);
      if Passed(cfg, c, i, p) {
        PassesAbove(cfg, c, i, q, p);
      }
  }

  lemma {:induction false} ValueStays(cfg: Config, c: Chain, i: nat, q: Path, k: Key)
    requires ChainOk(cfg, c) && 1 <= i <= |c| && !Passed(cfg, c, i, q) && q <= cfg.hashPath(k)
    ensures var t, t' := TreeAt(c, i - 1), TreeAt(c, i);
      (k in t.vals <==> k in t'.vals) && (k in t.vals ==> t.vals[k] == t'.vals[k])
  {
    assert EntryOk(cfg, c, i);
  }

  /** As long as a tree contains a node version, nothing below it has changed. */
  lemma {:induction false} TreesAgree(cfg: Config, c: Chain, j: nat, i: nat, q: Path, w: nat)
    requires ChainOk(cfg, c) && j <= i <= |c|
    requires HasItem(TreeAt(c, j), NodeItem(q), w) && HasItem(TreeAt(c, i), NodeItem(q), w)
    ensures Agree(cfg, TreeAt(c, j), TreeAt(c, i), q)
    decreases i
  {
    hide ChainOk;
    if j < i {
      TreesOk(cfg, c, j);
      VersionsGrow(cfg, c, j, i - 1);
      Persists(cfg, c, i - 1, i, NodeItem(q), w);
      TreesAgree(cfg, c, j, i - 1, q, w);
      StepAgrees(cfg, c, i, q, w);
    }
  }

  lemma {:induction false} BelowAgrees(cfg: Config, t: Tree, q: Path)
    ensures Agree(cfg, Below(cfg.hashPath, t, q), t, q)
  {
  }

  /**
   * Every node of every tree that is kept is stored, and holds the leaves, nodes, versions and values at and below its
   * path of that tree, although it was written by an older block.
   */
  lemma {:induction false} NodeHolds(cfg: Config, l: Ledger, c: Chain, i: nat, q: Path, w: nat)
    requires Inv(cfg, l, c) && OldestTree(l.genesis) <= i <= |c| && HasItem(TreeAt(c, i), NodeItem(q), w)
    ensures var n := Lookup(l.db, InternalKey(w, q));
      n.Some? && n.value.InternalVal? && Agree(cfg, n.value.tree, TreeAt(c, i), q)
  {
    hide ChainOk, Agree, Below;
    assert Kept(c, l.genesis, NodeItem(q), w);
    assert Lookup(l.db, InternalKey(w, q)) == Expect(cfg, c, l.genesis, InternalKey(w, q));
    TreesOk(cfg, c, i);
    VersionsGrow(cfg, c, i, |c|);
    WriterExists(cfg, c, w, |c|);
    var j := Writer(c, w, |c|);
    if i < j {
      VersionsGrow(cfg, c, i, j - 1);
    }
    Persists(cfg, c, j, i, NodeItem(q), w);
    TreesAgree(cfg, c, j, i, q, w);
    BelowAgrees(cfg, TreeAt(c, j), q);
    AgreeTransitive(cfg, Below(cfg.hashPath, TreeAt(c, j), q), TreeAt(c, j), TreeAt(c, i), q);
  }

  lemma {:induction false} AgreeTransitive(cfg: Config, t1: Tree, t2: Tree, t3: Tree, q: Path)
    requires Agree(cfg, t1, t2, q) && Agree(cfg, t2, t3, q)
    ensures Agree(cfg, t1, t3, q)
  {
  }

  // ---------- walking the nodes ----------

  /**
   * The walk of an insertion or a removal: from the node of version w at depth d of the key's path to the node below
   * it, as long as there is one, and then to the leaf; the version of the leaf, if there is one.
   */
  function Walk(cfg: Config, db: Db, k: Key, d: nat, w: nat): Option<nat>
    requires d <= |cfg.hashPath(k)|
    decreases |cfg.hashPath(k)| - d
  {
    var path := cfg.hashPath(k);
    match Lookup(db, InternalKey(w, path[..d]))
    case Some(InternalVal(node)) =>
      if d < |path| && NodeItem(path[..d + 1]) in node.items then
        Walk(cfg, db, k, d + 1, node.items[NodeItem(path[..d + 1])])
      else if LeafItem(k) in node.items then Some(node.items[LeafItem(k)])
      else None
    case _ => None
  }

  /** From any node of a kept tree on the key's path, the walk ends at the key's leaf in that tree. */
  lemma {:induction false} WalkFrom(cfg: Config, l: Ledger, c: Chain, i: nat, k: Key, d: nat, w: nat)
    requires Inv(cfg, l, c) && OldestTree(l.genesis) <= i <= |c| && d <= |cfg.hashPath(k)|
    requires HasItem(TreeAt(c, i), NodeItem(cfg.hashPath(k)[..d]), w)
    ensures Walk(cfg, l.db, k, d, w) ==
      if LeafItem(k) in TreeAt(c, i).items then Some(TreeAt(c, i).items[LeafItem(k)]) else None
    decreases |cfg.hashPath(k)| - d
  {
    hide Inv;
    var path := cfg.hashPath(k);
    NodeHolds(cfg, l, c, i, path[..d], w);
    var node := Lookup(l.db, InternalKey(w, path[..d])).value.tree;
    assert Under(cfg, path[..d], LeafItem(k));
    if d < |path| && NodeItem(path[..d + 1]) in node.items {
      assert Under(cfg, path[..d], NodeItem(path[..d + 1]));
      WalkFrom(cfg, l, c, i, k, d + 1, node.items[NodeItem(path[..d + 1])]);
    }
  }

  /**
   * From the stored root of any kept tree, walking the stored nodes finds exactly the keys of that tree, each at the
   * leaf that holds its value.
   */
  lemma {:induction false} WalkFindsLeaf(cfg: Config, l: Ledger, c: Chain, i: nat, k: Key)
    requires Inv(cfg, l, c) && OldestTree(l.genesis) <= i <= |c| && TreeAt(c, i).version > 0
    ensures var t, found := TreeAt(c, i), Walk(cfg, l.db, k, 0, TreeAt(c, i).version);
      && (found.Some? <==> k in t.vals)
      && (found.Some? ==> LeafAt(l.db, k, found.value).Some? && LeafAt(l.db, k, found.value).value.value == t.vals[k])
  {
    hide Holds, ChainOk, Walk, LeafAt;
    TreesOk(cfg, c, i);
    var path := cfg.hashPath(k);
    assert path[..0] == [];
    WalkFrom(cfg, l, c, i, k, 0, TreeAt(c, i).version);
    if k in TreeAt(c, i).vals {
      LeafHolds(cfg, l, c, i, k);
    }
  }

  /** The leaf of a key in a kept tree holds its value. */
  lemma {:induction false} LeafHolds(cfg: Config, l: Ledger, c: Chain, i: nat, k: Key)
    requires Inv(cfg, l, c) && OldestTree(l.genesis) <= i <= |c| && k in TreeAt(c, i).vals
    ensures LeafItem(k) in TreeAt(c, i).items
    ensures var leaf := LeafAt(l.db, k, TreeAt(c, i).items[LeafItem(k)]);
      leaf.Some? && leaf.value.value == TreeAt(c, i).vals[k]
  {
    hide ChainOk;
    TreesOk(cfg, c, i);
    var w := TreeAt(c, i).items[LeafItem(k)];
    assert Kept(c, l.genesis, LeafItem(k), w);
    assert Lookup(l.db, LeafKey(k, w)) == Expect(cfg, c, l.genesis, LeafKey(k, w));
    KeptLeaf(cfg, c, l.genesis, k, w);
    var j := Writer(c, w, |c|);
    if i < j {
      VersionsGrow(cfg, c, i, j - 1);
    }
    ValueSince(cfg, c, j, i, k, w);
  }

  /** A key keeps its value as long as it keeps its leaf version. */
  lemma {:induction false} ValueSince(cfg: Config, c: Chain, j: nat, i: nat, k: Key, w: nat)
    requires ChainOk(cfg, c) && 1 <= j <= i <= |c| && k in c[j - 1].blk.updates && k !in cfg.nonProvable
    requires TreeAt(c, j - 1).version < w == TreeAt(c, j).version
    requires HasItem(TreeAt(c, i), LeafItem(k), w) && k in TreeAt(c, i).vals
    ensures TreeAt(c, i).vals[k] == c[j - 1].blk.updates[k]
    decreases i
  {
    hide Update;
    assert EntryOk(cfg, c, i);
    var ups, dels := c[i - 1].blk.updates - cfg.nonProvable, c[i - 1].blk.deletes;
    TreesOk(cfg, c, i - 1);
    UpdateFollows(cfg.hashPath, TreeAt(c, i - 1), ups, dels);
    if j == i {
      UpdatedVal(cfg, TreeAt(c, i - 1), ups, dels, k);
    } else {
      VersionsGrow(cfg, c, j, i - 1);
      Persists(cfg, c, i - 1, i, LeafItem(k), w);
      assert k !in ups;
      OldVal(cfg, TreeAt(c, i - 1), ups, dels, k);
      ValueSince(cfg, c, j, i - 1, k, w);
    }
  }

  lemma {:induction false} OldVal(cfg: Config, t: Tree, ups: map<Key, Value>, dels: set<Key>, k: Key)
    requires k !in ups && k in Update(cfg.hashPath, t, ups, dels).vals
    ensures k in t.vals && Update(cfg.hashPath, t, ups, dels).vals[k] == t.vals[k]
  {
  }
}
