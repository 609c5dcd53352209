/** Which blocks the direct key-value adapter holds, and up to where the chain has no gap. */
module DirectAdapter {
  import opened Common
  import opened ByteOrder
  import opened DirectKeys

  /** Blocks 1 to n are all there. */
  ghost predicate AllPresent(ids: set<nat>, n: nat) {
    forall i :: 1 <= i <= n ==> i in ids
  }

  /** The largest n such that blocks 1 to n are all there. */
  ghost predicate IsReach(ids: set<nat>, n: nat) {
    AllPresent(ids, n) && n + 1 !in ids
  }

  lemma {:induction false} ReachUnique(ids: set<nat>, m: nat, n: nat)
    requires IsReach(ids, m) && IsReach(ids, n)
    ensures m == n
  {
    assert m < n ==> m + 1 in ids;
    assert n < m ==> n + 1 in ids;
  }

  class DBAdapter {
    var blocks: map<nat, Bytes>
    var others: set<DirectKey>
    var lastBlockId: nat
    var lastReachableBlockId: nat

    ghost predicate Valid()
      reads this
    {
      && IsReach(blocks.Keys, lastReachableBlockId)
      && (forall i :: i in blocks ==> InWidth(i, 8) && i <= lastBlockId)
      && (lastBlockId in blocks || (blocks == map[] && lastBlockId == 0))
      && (forall k :: k in others ==> k.Valid() && !k.BlockKey?)
    }

    constructor ()
      ensures Valid() && blocks == map[] && lastReachableBlockId == 0
    {
      blocks, others, lastBlockId, lastReachableBlockId := map[], {}, 0, 0;
    }

    predicate HasBlock(id: nat)
      reads this
    {
      id in blocks
    }

    /** addRawBlock: stores the block and closes the gap behind it, if there is one to close. */
    method AddRawBlock(block: Bytes, id: nat)
      requires Valid() && InWidth(id, 8)
      modifies this
      ensures Valid() && blocks == old(blocks)[id := block] && others == old(others)
      ensures lastBlockId == if id > old(lastBlockId) then id else old(lastBlockId)
    {
      hide Pow256;
      blocks := blocks[id := block];
      if id > lastBlockId {
        lastBlockId := id;
      }
      if id == lastReachableBlockId + 1 {
        var i := id;
        lastReachableBlockId := i;
        i := i + 1;
        while i <= lastBlockId && HasBlock(i)
          invariant i == lastReachableBlockId + 1
          invariant AllPresent(blocks.Keys, lastReachableBlockId)
          invariant blocks == old(blocks)[id := block] && others == old(others)
          invariant lastBlockId == if id > old(lastBlockId) then id else old(lastBlockId)
          decreases lastBlockId + 1 - i
        {
          lastReachableBlockId := i;
          i := i + 1;
        }
      }
    }

    /**
     * addBlock, for the bytes of the block: sets both ids to the new block. With later blocks
     * present the kept ids are wrong, and only then.
     */
    method AddBlock(block: Bytes) returns (id: nat)
      requires Valid() && InWidth(lastReachableBlockId + 1, 8)
      modifies this
      ensures id == old(lastReachableBlockId) + 1 && blocks == old(blocks)[id := block] && others == old(others)
      ensures lastReachableBlockId == id && lastBlockId == id
      ensures Valid() <==> forall i :: i in old(blocks) ==> i <= old(lastReachableBlockId)
    {
      id := lastReachableBlockId + 1;
      blocks := blocks[id := block];
      lastBlockId := id;
      lastReachableBlockId := id;
      assert forall i :: i in old(blocks) ==> i in blocks;
    }

    /** fetchLastReachableBlockId: what a restart computes is what was kept. */
    method FetchLastReachableBlockId() returns (n: nat)
      requires Valid()
      ensures n == lastReachableBlockId
    {
      n := ScanBlockKeys(others + BlockKeys(blocks.Keys), blocks.Keys, lastBlockId);
      ReachUnique(blocks.Keys, n, lastReachableBlockId);
    }
  }

  function BlockKeys(ids: set<nat>): (r: set<DirectKey>)
    ensures forall i :: i in ids <==> BlockKey(i) in r
    ensures forall k :: k in r ==> k.BlockKey?
  {
    set i | i in ids :: BlockKey(i)
  }

  /** Walks the keys from block 1 on until the next block is missing. */
  method ScanBlockKeys(keys: set<DirectKey>, ghost ids: set<nat>, ghost top: nat) returns (n: nat)
    requires forall i :: i in ids <==> BlockKey(i) in keys
    requires forall i :: i in ids ==> i <= top
    ensures IsReach(ids, n)
  {
    hide Before, SeekAtLeastKey, NextKey;
    n := 0;
    var current := SeekAtLeastKey(keys, BlockKey(1));
    while current.Some? && current.value.BlockKey?
      invariant AllPresent(ids, n) && n <= top
      invariant current == SeekAtLeastKey(keys, BlockKey(n + 1))
      decreases top - n
    {
      if current.value.id != n + 1 {
        break;
      }
      SeekFindsBlock(keys, ids, n + 1);
      n := n + 1;
      NextBlock(keys, n);
      current := NextKey(keys, BlockKey(n));
    }
    SeekFindsBlock(keys, ids, n + 1);
  }

  lemma {:induction false} NextBlock(keys: set<DirectKey>, n: nat)
    ensures NextKey(keys, BlockKey(n)) == SeekAtLeastKey(keys, BlockKey(n + 1))
  {
    NextIsSeek(keys, BlockKey(n), BlockKey(n + 1));
  }

  // ---------- walking keys in the order of the comparator ----------

  lemma {:induction false} FirstKeyExists(keys: set<DirectKey>) returns (m: DirectKey)
    requires keys != {}
    ensures m in keys && forall x :: x in keys ==> x == m || Before(m, x)
  {
    m :| m in keys;
    var rest := keys - {m};
    assert forall x :: x in keys ==> x == m || x in rest;
    if rest != {} {
      var low := FirstKeyExists(rest);
      BeforeIsStrictOrder(m, low, low);
      if Before(m, low) {
        forall x | x in rest
          ensures Before(m, x)
        {
          BeforeIsStrictOrder(m, low, x);
        }
      } else {
        m := low;
      }
    }
  }

  function FirstKey(keys: set<DirectKey>): (m: DirectKey)
    requires keys != {}
    ensures m in keys && forall x :: x in keys ==> x == m || Before(m, x)
  {
    assert exists m :: m in keys && forall x :: x in keys ==> x == m || Before(m, x) by {
      var _ := FirstKeyExists(keys);
    }
    FirstKeyUnique(keys);
    var m :| m in keys && forall x :: x in keys ==> x == m || Before(m, x);
    m
  }

  lemma {:induction false} FirstKeyUnique(keys: set<DirectKey>)
    ensures forall x, y :: x in keys && y in keys && (x == y || Before(x, y)) && (x == y || Before(y, x)) ==> x == y
  {
    forall x, y | x in keys && y in keys && Before(x, y)
      ensures !Before(y, x)
    {
      BeforeIsStrictOrder(x, y, y);
    }
  }

  function SeekAtLeastKey(keys: set<DirectKey>, k: DirectKey): (r: Option<DirectKey>)
    ensures r.Some? ==> r.value in keys && !Before(r.value, k)
    ensures forall x :: x in keys && !Before(x, k) ==> r.Some? && (r.value == x || Before(r.value, x))
  {
    var above := set x | x in keys && !Before(x, k);
    assert forall x :: x in keys && !Before(x, k) ==> x in above;
    if above == {} then None else Some(FirstKey(above))
  }

  function NextKey(keys: set<DirectKey>, k: DirectKey): (r: Option<DirectKey>)
    ensures r.Some? ==> r.value in keys && Before(k, r.value)
    ensures forall x :: x in keys && Before(k, x) ==> r.Some? && (r.value == x || Before(r.value, x))
  {
    var above := set x | x in keys && Before(k, x);
    assert forall x :: x in keys && Before(k, x) ==> x in above;
    if above == {} then None else Some(FirstKey(above))
  }

  /** With nothing strictly between two keys, what follows the first is what is at or after the second. */
  lemma {:induction false} NextIsSeek(keys: set<DirectKey>, a: DirectKey, b: DirectKey)
    requires Before(a, b)
    requires forall x :: !(Before(a, x) && Before(x, b))
    ensures NextKey(keys, a) == SeekAtLeastKey(keys, b)
  {
    var r, s := NextKey(keys, a), SeekAtLeastKey(keys, b);
    if r.Some? {
      BeforeIsStrictOrder(a, r.value, b);
    }
    if s.Some? {
      BeforeIsStrictOrder(a, b, s.value);
      BeforeIsStrictOrder(b, s.value, s.value);
    }
    if r.Some? && s.Some? {
      BeforeIsStrictOrder(r.value, s.value, s.value);
    }
  }

  lemma {:induction false} SeekFindsBlock(keys: set<DirectKey>, ids: set<nat>, n: nat)
    requires forall i :: i in ids <==> BlockKey(i) in keys
    ensures n in ids <==> SeekAtLeastKey(keys, BlockKey(n)) == Some(BlockKey(n))
  {
  }

  // ---------- any order of arrival ----------

  /** Feeds raw blocks to an adapter one by one. */
  method AddRawBlocks(adapter: DBAdapter, arrivals: seq<(nat, Bytes)>)
    requires adapter.Valid() && forall i :: 0 <= i < |arrivals| ==> InWidth(arrivals[i].0, 8)
    modifies adapter
    ensures adapter.Valid()
    ensures adapter.blocks.Keys == old(adapter.blocks.Keys) + Arrived(arrivals)
  {
    var i := 0;
    while i < |arrivals|
      invariant i <= |arrivals| && adapter.Valid()
      invariant adapter.blocks.Keys == old(adapter.blocks.Keys) + Arrived(arrivals[..i])
    {
      assert arrivals[..i + 1] == arrivals[..i] + [arrivals[i]];
      adapter.AddRawBlock(arrivals[i].1, arrivals[i].0);
      i := i + 1;
    }
    assert arrivals[..i] == arrivals;
  }

  function Arrived(arrivals: seq<(nat, Bytes)>): set<nat> {
    set a | a in arrivals :: a.0
  }
}
