/**
 * The sparse Merkle tree as the adapter sees it: which leaves and which batched
 * internal nodes a version of the tree consists of, and at which version each of
 * them was last written. Hashes are not computed; the state hash of a tree is a
 * function of its key/value pairs.
 */
module SparseTree {
  import opened Common

  type Key = Bytes
  type Value = Bytes

  /** A sequence of nibbles, most significant first. */
  type Path = seq<nat>

  /** Hash::MAX_NIBBLES; internal nodes sit at paths shorter than this. */
  const MAX_NIBBLES: nat := 64

  /** The nibbles of the hash of every key, an arbitrary function. */
  type HashPath = Key -> Path

  datatype Item = LeafItem(key: Key) | NodeItem(path: Path)

  /** A tree version: the version of each of its leaves and internal nodes, and the values. */
  datatype Tree = Tree(version: nat, items: map<Item, nat>, vals: map<Key, Value>)

  const EMPTY_TREE := Tree(0, map[], map[])

  const ROOT := NodeItem([])

  /** What the state hash commits to. */
  datatype StateHash = StateHash(vals: map<Key, Value>)

  /** The keys an update really changes: removing an absent key changes nothing. */
  function Touched(t: Tree, ups: map<Key, Value>, dels: set<Key>): set<Key> {
    ups.Keys + dels * t.vals.Keys
  }

  /** Paths of the internal nodes between the root and a touched leaf. */
  function TouchedPaths(hashPath: HashPath, touched: set<Key>): set<Path> {
    set k, n: nat | k in touched && n < MAX_NIBBLES && n <= |hashPath(k)| :: hashPath(k)[..n]
  }

  /** An internal node other than the root exists where at least two leaves share its path. */
  predicate NodeExists(hashPath: HashPath, vals: map<Key, Value>, p: Path) {
    || p == []
    || exists a, b :: a in vals && b in vals && a != b && p <= hashPath(a) && p <= hashPath(b)
  }

  /** Removals come before insertions. */
  function NewVals(t: Tree, ups: map<Key, Value>, dels: set<Key>): map<Key, Value> {
    (t.vals - dels) + ups
  }

  predicate IsTouched(x: Item, touched: set<Key>, paths: set<Path>) {
    match x
    case LeafItem(k) => k in touched
    case NodeItem(p) => p in paths
  }

  /** Whether an item of the old tree, or on a touched path, belongs to the new tree. */
  predicate Survives(hashPath: HashPath, x: Item, vals: map<Key, Value>, paths: set<Path>) {
    match x
    case LeafItem(k) => k in vals
    case NodeItem(p) => p in paths ==> NodeExists(hashPath, vals, p)
  }

  function Candidates(t: Tree, ups: map<Key, Value>, paths: set<Path>): set<Item> {
    t.items.Keys + (set k | k in ups :: LeafItem(k)) + (set p | p in paths :: NodeItem(p))
  }

  function NewItems(hashPath: HashPath, t: Tree, ups: map<Key, Value>, dels: set<Key>): (m: map<Item, nat>)
    ensures var touched := Touched(t, ups, dels);
      var paths := TouchedPaths(hashPath, touched);
      var vals := NewVals(t, ups, dels);
      && (forall x :: x in m <==> x in Candidates(t, ups, paths) && Survives(hashPath, x, vals, paths))
      && (forall x :: x in m && IsTouched(x, touched, paths) ==> m[x] == t.version + 1)
      && (forall x :: x in m && !IsTouched(x, touched, paths) ==> x in t.items && m[x] == t.items[x])
  {
    var touched := Touched(t, ups, dels);
    var paths := TouchedPaths(hashPath, touched);
    var vals := NewVals(t, ups, dels);
    map x | x in Candidates(t, ups, paths) && Survives(hashPath, x, vals, paths)
      :: if IsTouched(x, touched, paths) then t.version + 1 else t.items[x]
  }

  /**
   * Tree::update: every existing node on the path of a touched leaf is rewritten at
   * the next version. When nothing is touched the root is not rewritten and the
   * version stays.
   */
  function Update(hashPath: HashPath, t: Tree, ups: map<Key, Value>, dels: set<Key>): Tree {
    if Touched(t, ups, dels) == {} then t
    else Tree(t.version + 1, NewItems(hashPath, t, ups, dels), NewVals(t, ups, dels))
  }

  /** Consistency of one tree version. */
  ghost predicate TreeOk(t: Tree) {
    && (forall x :: x in t.items ==> 1 <= t.items[x] <= t.version)
    && (forall k :: k in t.vals <==> LeafItem(k) in t.items)
    && (t.version > 0 ==> ROOT in t.items && t.items[ROOT] == t.version)
    && (t.version == 0 ==> t.items == map[])
  }

  /** How a tree may evolve in one block: nothing changes, or changed items get the next version. */
  ghost predicate Follows(t: Tree, t': Tree) {
    || t' == t
    || (&& t'.version == t.version + 1
        && forall x :: x in t'.items ==>
             t'.items[x] == t'.version || (x in t.items && t'.items[x] == t.items[x]))
  }

  /** An update keeps the tree consistent and gives a new version exactly to what it touches. */
  lemma {:induction false} UpdateFollows(hashPath: HashPath, t: Tree, ups: map<Key, Value>, dels: set<Key>)
    requires TreeOk(t)
    ensures var t' := Update(hashPath, t, ups, dels);
      && TreeOk(t')
      && Follows(t, t')
      && (t'.version == t.version <==> Touched(t, ups, dels) == {})
      && (forall k :: k in ups ==> LeafItem(k) in t'.items && t'.items[LeafItem(k)] == t'.version)
      && (forall k :: k !in ups && k in dels ==> LeafItem(k) !in t'.items)
      && (forall k :: k !in ups && k !in dels ==>
           (LeafItem(k) in t'.items <==> LeafItem(k) in t.items)
           && (LeafItem(k) in t.items ==> t'.items[LeafItem(k)] == t.items[LeafItem(k)]))
  {
    var t' := Update(hashPath, t, ups, dels);
    var touched := Touched(t, ups, dels);
    if touched != {} {
      var paths := TouchedPaths(hashPath, touched);
      RootTouched(hashPath, touched);
      forall k
        ensures k in t'.vals <==> LeafItem(k) in t'.items
        ensures k in ups ==> LeafItem(k) in t'.items && t'.items[LeafItem(k)] == t'.version
        ensures k !in ups && k in dels ==> LeafItem(k) !in t'.items
      {
        assert LeafItem(k) in Candidates(t, ups, paths) <==> LeafItem(k) in t.items || k in ups;
      }
      assert ROOT in Candidates(t, ups, paths);
    }
  }

  /** The hashes of two keys start with a path. */
  predicate Shared(hashPath: HashPath, vals: map<Key, Value>, p: Path) {
    exists a, b :: a in vals && b in vals && a != b && p <= hashPath(a) && p <= hashPath(b)
  }

  /**
   * The internal nodes of a tree: the root, and one at every path shorter than a hash that at least two of
   * the tree's keys share.
   */
  ghost predicate NodesExact(hashPath: HashPath, t: Tree) {
    forall p :: NodeItem(p) in t.items <==>
      t.version > 0 && (p == [] || (|p| < MAX_NIBBLES && Shared(hashPath, t.vals, p)))
  }

  /** The hash of a key that an update writes or removes starts with a path. */
  ghost predicate Passes(hashPath: HashPath, t: Tree, ups: map<Key, Value>, dels: set<Key>, p: Path) {
    exists k :: (k in ups || (k in dels && k in t.vals)) && p <= hashPath(k)
  }

  /**
   * An update leaves exactly the nodes that the new keys call for, and rewrites exactly those on the path of
   * a changed key.
   */
  lemma {:induction false} UpdateNodes(hashPath: HashPath, t: Tree, ups: map<Key, Value>, dels: set<Key>)
    requires TreeOk(t) && NodesExact(hashPath, t)
    ensures var t' := Update(hashPath, t, ups, dels);
      && NodesExact(hashPath, t')
      && (forall p :: NodeItem(p) in t'.items ==>
           if Passes(hashPath, t, ups, dels, p) then t'.items[NodeItem(p)] == t.version + 1
           else NodeItem(p) in t.items && t'.items[NodeItem(p)] == t.items[NodeItem(p)])
      && (forall p :: NodeItem(p) in t.items && !Passes(hashPath, t, ups, dels, p) ==> NodeItem(p) in t'.items)
  {
    hide Update, Passes, Shared;
    var t' := Update(hashPath, t, ups, dels);
    forall p
      ensures NodeItem(p) in t'.items <==>
        t'.version > 0 && (p == [] || (|p| < MAX_NIBBLES && Shared(hashPath, t'.vals, p)))
      ensures NodeItem(p) in t'.items ==>
        if Passes(hashPath, t, ups, dels, p) then t'.items[NodeItem(p)] == t.version + 1
        else NodeItem(p) in t.items && t'.items[NodeItem(p)] == t.items[NodeItem(p)]
      ensures NodeItem(p) in t.items && !Passes(hashPath, t, ups, dels, p) ==> NodeItem(p) in t'.items
    {
      UpdatedPath(hashPath, t, ups, dels, p);
    }
  }

  lemma {:induction false} UpdatedPath(hashPath: HashPath, t: Tree, ups: map<Key, Value>, dels: set<Key>, p: Path)
    requires TreeOk(t) && NodesExact(hashPath, t)
    ensures var t' := Update(hashPath, t, ups, dels);
      && (NodeItem(p) in t'.items <==>
           t'.version > 0 && (p == [] || (|p| < MAX_NIBBLES && Shared(hashPath, t'.vals, p))))
      && (NodeItem(p) in t'.items ==>
           if Passes(hashPath, t, ups, dels, p) then t'.items[NodeItem(p)] == t.version + 1
           else NodeItem(p) in t.items && t'.items[NodeItem(p)] == t.items[NodeItem(p)])
      && (NodeItem(p) in t.items && !Passes(hashPath, t, ups, dels, p) ==> NodeItem(p) in t'.items)
  {
    hide Passes, Shared, NewItems, NewVals, TouchedPaths;
    PathTouched(hashPath, t, ups, dels, p);
    if Touched(t, ups, dels) == {} {
      NoPaths(hashPath, p);
    } else {
      UpdatedNode(hashPath, t, ups, dels, p);
    }
  }

  lemma {:induction false} NoPaths(hashPath: HashPath, p: Path)
    ensures p !in TouchedPaths(hashPath, {})
  {
  }

  /** Short paths are touched exactly when a changed key passes through them. */
  lemma {:induction false} PathTouched(hashPath: HashPath, t: Tree, ups: map<Key, Value>, dels: set<Key>, p: Path)
    ensures p in TouchedPaths(hashPath, Touched(t, ups, dels))
       <==> |p| < MAX_NIBBLES && Passes(hashPath, t, ups, dels, p)
  {
    var touched := Touched(t, ups, dels);
    if k :| k in touched && p <= hashPath(k) && |p| < MAX_NIBBLES {
      assert hashPath(k)[..|p|] == p;
    }
  }

  lemma {:induction false} UpdatedNode(hashPath: HashPath, t: Tree, ups: map<Key, Value>, dels: set<Key>, p: Path)
    requires TreeOk(t) && NodesExact(hashPath, t) && Touched(t, ups, dels) != {}
    ensures var t', paths := Update(hashPath, t, ups, dels), TouchedPaths(hashPath, Touched(t, ups, dels));
      && (NodeItem(p) in t'.items <==> p == [] || (|p| < MAX_NIBBLES && Shared(hashPath, t'.vals, p)))
      && (NodeItem(p) in t'.items <==>
           if p in paths then p == [] || Shared(hashPath, t'.vals, p) else NodeItem(p) in t.items)
      && (NodeItem(p) in t'.items ==>
           t'.items[NodeItem(p)] == if p in paths then t.version + 1 else t.items[NodeItem(p)])
  {
    var t', touched := Update(hashPath, t, ups, dels), Touched(t, ups, dels);
    var paths := TouchedPaths(hashPath, touched);
    RootTouched(hashPath, touched);
    assert NodeItem(p) in Candidates(t, ups, paths) <==> NodeItem(p) in t.items || p in paths;
    if p !in paths && |p| < MAX_NIBBLES {
      UntouchedShare(hashPath, t, ups, dels, p);
    }
  }

  /** Off the changed paths the same keys share a path before and after. */
  lemma {:induction false} UntouchedShare(hashPath: HashPath, t: Tree, ups: map<Key, Value>, dels: set<Key>, p: Path)
    requires p !in TouchedPaths(hashPath, Touched(t, ups, dels)) && |p| < MAX_NIBBLES
    ensures Shared(hashPath, NewVals(t, ups, dels), p) <==> Shared(hashPath, t.vals, p)
  {
    var touched := Touched(t, ups, dels);
    forall k | p <= hashPath(k)
      ensures k in NewVals(t, ups, dels) <==> k in t.vals
    {
      OffPath(hashPath, touched, p, k);
    }
  }

  lemma {:induction false} OffPath(hashPath: HashPath, touched: set<Key>, p: Path, k: Key)
    requires p !in TouchedPaths(hashPath, touched) && |p| < MAX_NIBBLES && p <= hashPath(k)
    ensures k !in touched
  {
    assert hashPath(k)[..|p|] == p;
  }

  lemma {:induction false} RootTouched(hashPath: HashPath, touched: set<Key>)
    requires touched != {}
    ensures [] in TouchedPaths(hashPath, touched)
  {
    var k :| k in touched;
    assert hashPath(k)[..0] == [];
  }
}
