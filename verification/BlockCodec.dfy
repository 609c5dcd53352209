/** The serialized forms of a block node, of the Merkle data of a raw block, and of a leaf. */
module BlockCodec {
  import opened Common
  import opened SparseTree
  import opened AdapterSpec
  import opened ByteOrder
  import opened KeyCodec

  const KEY_LENGTH_SIZE: nat := 4
  const NODE_MIN_SIZE: nat := 80
  const NODE_MIN_KEY_SIZE: nat := 5
  const MERKLE_DATA_MIN_SIZE: nat := 32
  const LEAF_MIN_SIZE: nat := 16
  const INVALID_BLOCK_ID: nat := 0

  // ---------- block nodes ----------

  /** A block node as bytes know it; a key maps to its 'deleted' flag. */
  datatype BlockNode = BlockNode(id: nat, parentDigest: Hash, stateHash: Hash, version: nat, keys: map<Key, bool>)

  predicate ShortKey(k: Key) {
    InWidth(|k|, KEY_LENGTH_SIZE)
  }

  predicate IdsFit(node: BlockNode) {
    InWidth(node.id, ID_SIZE) && InWidth(node.version, ID_SIZE)
  }

  function EncodeKeyEntry(k: Key, deleted: bool): Bytes
    requires ShortKey(k)
  {
    [if deleted then 1 else 0] + (BigEndian(|k|, KEY_LENGTH_SIZE) + k)
  }

  function EncodeKeys(keys: map<Key, bool>, order: seq<Key>): Bytes
    requires forall i :: 0 <= i < |order| ==> order[i] in keys && ShortKey(order[i])
  {
    if order == [] then [] else EncodeKeyEntry(order[0], keys[order[0]]) + EncodeKeys(keys, order[1..])
  }

  function EncodeHead(node: BlockNode): (r: Bytes)
    requires IdsFit(node)
    ensures |r| == NODE_MIN_SIZE
  {
    BigEndian(node.id, ID_SIZE) + (node.parentDigest + (node.stateHash + BigEndian(node.version, ID_SIZE)))
  }

  /** Every key once. */
  ghost predicate IsOrder(keys: set<Key>, order: seq<Key>) {
    && (forall i, j :: 0 <= i < j < |order| ==> order[i] != order[j])
    && (forall k :: k in order <==> k in keys)
  }

  ghost function EncodeBlockNode(node: BlockNode, order: seq<Key>): Bytes
    requires IdsFit(node) && IsOrder(node.keys.Keys, order)
    requires forall k :: k in node.keys ==> ShortKey(k)
  {
    EncodeHead(node) + EncodeKeys(node.keys, order)
  }

  /** emplace keeps the value of a key that is already there. */
  function Emplace(keys: map<Key, bool>, k: Key, deleted: bool): map<Key, bool> {
    if k in keys then keys else keys[k := deleted]
  }

  function DecodeKeys(buf: Bytes, keys: map<Key, bool>): Result<map<Key, bool>>
    decreases |buf|
  {
    if buf == [] then Ok(keys)
    else if |buf| < NODE_MIN_KEY_SIZE then Err(Aborted)
    else
      var len := FromBigEndian(buf[1..NODE_MIN_KEY_SIZE]);
      if len > |buf| - NODE_MIN_KEY_SIZE then Err(Aborted)
      else
        var k := buf[NODE_MIN_KEY_SIZE..NODE_MIN_KEY_SIZE + len];
        DecodeKeys(buf[NODE_MIN_KEY_SIZE + len..], Emplace(keys, k, buf[0] != 0))
  }

  function DecodeHead(buf: Bytes): BlockNode
    requires |buf| >= NODE_MIN_SIZE
  {
    BlockNode(FromBigEndian(buf[..8]), buf[8..40], buf[40..72], FromBigEndian(buf[72..80]), map[])
  }

  function DecodeBlockNode(buf: Bytes): Result<BlockNode> {
    if |buf| < NODE_MIN_SIZE then Err(Aborted)
    else
      var keys :- DecodeKeys(buf[NODE_MIN_SIZE..], map[]);
      Ok(DecodeHead(buf).(keys := keys))
  }

  /** deserializeStateRootVersion. */
  function DecodeStateRootVersion(buf: Bytes): Result<nat> {
    if |buf| < NODE_MIN_SIZE then Err(Aborted) else Ok(FromBigEndian(buf[72..80]))
  }

  lemma {:induction false} FourParts(a: Bytes, b: Bytes, c: Bytes, d: Bytes, tail: Bytes)
    ensures var s := a + (b + (c + d)) + tail;
      var i, j, n := |a| + |b|, |a| + |b| + |c|, |a| + |b| + |c| + |d|;
      && |s| == n + |tail|
      && s[..|a|] == a && s[|a|..i] == b && s[i..j] == c && s[j..n] == d && s[n..] == tail
  {
  }

  lemma {:induction false} HeadRoundTrip(node: BlockNode, tail: Bytes)
    requires IdsFit(node)
    ensures DecodeHead(EncodeHead(node) + tail) == node.(keys := map[])
    ensures (EncodeHead(node) + tail)[NODE_MIN_SIZE..] == tail
    ensures DecodeStateRootVersion(EncodeHead(node) + tail) == Ok(node.version)
  {
    hide BigEndian, FromBigEndian, Pow256;
    BigEndianRoundTrip(node.id, ID_SIZE);
    BigEndianRoundTrip(node.version, ID_SIZE);
    FourParts(BigEndian(node.id, ID_SIZE), node.parentDigest, node.stateHash, BigEndian(node.version, ID_SIZE), tail);
  }

  /** One key entry comes off the front of the buffer. */
  lemma {:induction false} EntryRoundTrip(k: Key, deleted: bool, tail: Bytes, keys: map<Key, bool>)
    requires ShortKey(k)
    ensures DecodeKeys(EncodeKeyEntry(k, deleted) + tail, keys) == DecodeKeys(tail, Emplace(keys, k, deleted))
  {
    hide BigEndian, FromBigEndian, Pow256;
    var buf := EncodeKeyEntry(k, deleted) + tail;
    BigEndianRoundTrip(|k|, KEY_LENGTH_SIZE);
    FourParts([if deleted then 1 else 0], BigEndian(|k|, KEY_LENGTH_SIZE), k, [], tail);
    assert k + [] == k;
    assert buf[1..NODE_MIN_KEY_SIZE] == BigEndian(|k|, KEY_LENGTH_SIZE);
  }

  /** The part of a map with the given keys. */
  function Part(keys: map<Key, bool>, order: seq<Key>): (r: map<Key, bool>)
    requires forall i :: 0 <= i < |order| ==> order[i] in keys
    ensures forall k :: k in r <==> k in order
    ensures forall k :: k in r ==> r[k] == keys[k]
  {
    if order == [] then map[] else Part(keys, order[1..])[order[0] := keys[order[0]]]
  }

  lemma {:induction false} KeysRoundTrip(keys: map<Key, bool>, order: seq<Key>, seen: map<Key, bool>)
    requires forall i :: 0 <= i < |order| ==> order[i] in keys && ShortKey(order[i]) && order[i] !in seen
    requires forall i, j :: 0 <= i < j < |order| ==> order[i] != order[j]
    ensures DecodeKeys(EncodeKeys(keys, order), seen) == Ok(seen + Part(keys, order))
  {
    hide EncodeKeyEntry, ShortKey, FromBigEndian;
    if order == [] {
      assert seen + Part(keys, order) == seen;
    } else {
      var k := order[0];
      EntryRoundTrip(k, keys[k], EncodeKeys(keys, order[1..]), seen);
      KeysRoundTrip(keys, order[1..], seen[k := keys[k]]);
      MergeNext(seen, Part(keys, order[1..]), k, keys[k]);
    }
  }

  lemma {:induction false} MergeNext(seen: map<Key, bool>, later: map<Key, bool>, k: Key, deleted: bool)
    requires k !in later
    ensures seen[k := deleted] + later == seen + later[k := deleted]
  {
  }

  /** In whatever order the keys are written, reading them back gives the node. */
  lemma {:induction false} BlockNodeRoundTrip(node: BlockNode, order: seq<Key>)
    requires IdsFit(node) && IsOrder(node.keys.Keys, order)
    requires forall k :: k in node.keys ==> ShortKey(k)
    ensures DecodeBlockNode(EncodeBlockNode(node, order)) == Ok(node)
    ensures DecodeStateRootVersion(EncodeBlockNode(node, order)) == Ok(node.version)
  {
    hide EncodeHead, DecodeHead, EncodeKeys, DecodeKeys, DecodeStateRootVersion, Part, ShortKey;
    HeadRoundTrip(node, EncodeKeys(node.keys, order));
    KeysRoundTrip(node.keys, order, map[]);
    WholePart(node.keys, order);
  }

  lemma {:induction false} WholePart(keys: map<Key, bool>, order: seq<Key>)
    requires forall k :: k in order <==> k in keys
    ensures map[] + Part(keys, order) == keys
  {
  }

  /** serialize of a block node: the keys are written in the order of an unordered map. */
  method SerializeNode(node: BlockNode) returns (r: Result<Bytes>)
    requires IdsFit(node)
    ensures r.Err? <==> exists k :: k in node.keys && !ShortKey(k)
    ensures r.Ok? ==> exists order :: IsOrder(node.keys.Keys, order) && r.value == EncodeBlockNode(node, order)
  {
    hide EncodeKeyEntry, EncodeHead;
    if exists k :: k in node.keys && !ShortKey(k) {
      return Err(Aborted);
    }
    var buf := EncodeHead(node);
    var rest := node.keys.Keys;
    ghost var order: seq<Key> := [];
    while rest != {}
      invariant rest <= node.keys.Keys
      invariant forall i, j :: 0 <= i < j < |order| ==> order[i] != order[j]
      invariant forall k :: k in order <==> k in node.keys && k !in rest
      invariant forall i :: 0 <= i < |order| ==> order[i] in node.keys && ShortKey(order[i])
      invariant buf == EncodeHead(node) + EncodeKeys(node.keys, order)
      decreases |rest|
    {
      var k :| k in rest;
      rest := rest - {k};
      KeysAppend(node.keys, order, k);
      buf := buf + EncodeKeyEntry(k, node.keys[k]);
      order := order + [k];
    }
    r := Ok(buf);
    assert IsOrder(node.keys.Keys, order) && r.value == EncodeBlockNode(node, order);
  }

  lemma {:induction false} KeysAppend(keys: map<Key, bool>, order: seq<Key>, k: Key)
    requires forall i :: 0 <= i < |order| ==> order[i] in keys && ShortKey(order[i])
    requires k in keys && ShortKey(k)
    ensures EncodeKeys(keys, order + [k]) == EncodeKeys(keys, order) + EncodeKeyEntry(k, keys[k])
  {
    hide EncodeKeyEntry;
    if order == [] {
      assert [k][1..] == [];
      assert EncodeKeys(keys, [k]) == EncodeKeyEntry(k, keys[k]) + [];
    } else {
      KeysAppend(keys, order[1..], k);
      assert (order + [k])[1..] == order[1..] + [k];
      Assoc(EncodeKeyEntry(order[0], keys[order[0]]), EncodeKeys(keys, order[1..]), EncodeKeyEntry(k, keys[k]));
    }
  }

  /** deserialize of a block node: a loop over a shrinking buffer. */
  method DeserializeNode(buf: Bytes) returns (r: Result<BlockNode>)
    ensures r == DecodeBlockNode(buf)
  {
    hide FromBigEndian, DecodeHead;
    if |buf| < NODE_MIN_SIZE {
      return Err(Aborted);
    }
    var keyBuffer, keys := buf[NODE_MIN_SIZE..], map[];
    while keyBuffer != []
      invariant DecodeKeys(keyBuffer, keys) == DecodeKeys(buf[NODE_MIN_SIZE..], map[])
      decreases |keyBuffer|
    {
      if |keyBuffer| < NODE_MIN_KEY_SIZE {
        return Err(Aborted);
      }
      var len := FromBigEndian(keyBuffer[1..NODE_MIN_KEY_SIZE]);
      if len > |keyBuffer| - NODE_MIN_KEY_SIZE {
        return Err(Aborted);
      }
      keys := Emplace(keys, keyBuffer[NODE_MIN_KEY_SIZE..NODE_MIN_KEY_SIZE + len], keyBuffer[0] != 0);
      keyBuffer := keyBuffer[NODE_MIN_KEY_SIZE + len..];
    }
    r := Ok(DecodeHead(buf).(keys := keys));
  }

  // ---------- the Merkle data of a raw block ----------

  datatype MerkleData = MerkleData(stateHash: Hash, deletedKeys: set<Key>)

  /** The length field of a key; longer keys are cut to 32 bits. */
  function LengthField(k: Key): (r: Bytes)
    ensures |r| == KEY_LENGTH_SIZE
  {
    BigEndian(|k| % Pow256(KEY_LENGTH_SIZE), KEY_LENGTH_SIZE)
  }

  function EncodeDeleted(keys: seq<Key>): Bytes {
    if keys == [] then [] else LengthField(keys[0]) + keys[0] + EncodeDeleted(keys[1..])
  }

  /** The state hash and the deleted keys in ascending order. */
  function EncodeMerkleData(data: MerkleData): Bytes {
    data.stateHash + EncodeDeleted(Sorted(data.deletedKeys))
  }

  function DecodeDeleted(buf: Bytes, keys: set<Key>): Result<set<Key>>
    decreases |buf|
  {
    if buf == [] then Ok(keys)
    else if |buf| < KEY_LENGTH_SIZE then Err(Aborted)
    else
      var len := FromBigEndian(buf[..KEY_LENGTH_SIZE]);
      if len > |buf| - KEY_LENGTH_SIZE then Err(Aborted)
      else DecodeDeleted(buf[KEY_LENGTH_SIZE + len..], keys + {buf[KEY_LENGTH_SIZE..KEY_LENGTH_SIZE + len]})
  }

  function DecodeMerkleData(buf: Bytes): Result<MerkleData> {
    if |buf| < MERKLE_DATA_MIN_SIZE then Err(Aborted)
    else
      var keys :- DecodeDeleted(buf[MERKLE_DATA_MIN_SIZE..], {});
      Ok(MerkleData(buf[..32], keys))
  }

  lemma {:induction false} DeletedEntry(k: Key, tail: Bytes, seen: set<Key>)
    requires ShortKey(k)
    ensures DecodeDeleted(LengthField(k) + k + tail, seen) == DecodeDeleted(tail, seen + {k})
  {
    hide BigEndian, FromBigEndian, Pow256;
    BigEndianRoundTrip(|k|, KEY_LENGTH_SIZE);
    assert |k| % Pow256(KEY_LENGTH_SIZE) == |k|;
    FourParts(LengthField(k), k, [], [], tail);
    assert k + ([] + []) == k;
  }

  function SetOf(order: seq<Key>): (r: set<Key>)
    ensures forall k :: k in r <==> k in order
  {
    if order == [] then {} else {order[0]} + SetOf(order[1..])
  }

  lemma {:induction false} DeletedRoundTrip(order: seq<Key>, seen: set<Key>)
    requires forall i :: 0 <= i < |order| ==> ShortKey(order[i])
    ensures DecodeDeleted(EncodeDeleted(order), seen) == Ok(seen + SetOf(order))
  {
    hide LengthField, ShortKey, FromBigEndian;
    if order != [] {
      var k := order[0];
      DeletedEntry(k, EncodeDeleted(order[1..]), seen);
      DeletedRoundTrip(order[1..], seen + {k});
      assert seen + {k} + SetOf(order[1..]) == seen + SetOf(order);
    } else {
      assert seen + SetOf(order) == seen;
    }
  }

  lemma {:induction false} DecodedShort(buf: Bytes, seen: set<Key>)
    requires DecodeDeleted(buf, seen).Ok?
    ensures forall k :: k in DecodeDeleted(buf, seen).value ==> k in seen || ShortKey(k)
    decreases |buf|
  {
    if buf != [] {
      var len := FromBigEndian(buf[..KEY_LENGTH_SIZE]);
      DecodedShort(buf[KEY_LENGTH_SIZE + len..], seen + {buf[KEY_LENGTH_SIZE..KEY_LENGTH_SIZE + len]});
    }
  }

  /** Reading back gives the data exactly when no deleted key is longer than 32 bits can tell. */
  lemma {:induction false} MerkleDataRoundTrip(data: MerkleData)
    ensures DecodeMerkleData(EncodeMerkleData(data)) == Ok(data)
       <==> forall k :: k in data.deletedKeys ==> ShortKey(k)
  {
    hide Sorted, ShortKey, EncodeDeleted, FromBigEndian;
    var order, buf := Sorted(data.deletedKeys), EncodeMerkleData(data);
    assert buf[..32] == data.stateHash && buf[32..] == EncodeDeleted(order);
    if forall k :: k in data.deletedKeys ==> ShortKey(k) {
      assert forall i :: 0 <= i < |order| ==> order[i] in order;
      DeletedRoundTrip(order, {});
      assert {} + SetOf(order) == data.deletedKeys;
    } else if DecodeDeleted(EncodeDeleted(order), {}).Ok? {
      DecodedShort(EncodeDeleted(order), {});
    }
  }

  lemma {:induction false} DeletedAppend(order: seq<Key>, k: Key)
    ensures EncodeDeleted(order + [k]) == EncodeDeleted(order) + (LengthField(k) + k)
  {
    hide LengthField;
    if order == [] {
      assert EncodeDeleted([k]) == LengthField(k) + k + EncodeDeleted([k][1..]);
    } else {
      DeletedAppend(order[1..], k);
      assert (order + [k])[1..] == order[1..] + [k];
      Assoc(LengthField(order[0]) + order[0], EncodeDeleted(order[1..]), LengthField(k) + k);
    }
  }

  /** serialize of the Merkle data: appends the deleted keys in order. */
  method SerializeMerkleData(data: MerkleData) returns (buf: Bytes)
    ensures buf == EncodeMerkleData(data)
  {
    hide LengthField, Sorted;
    buf := data.stateHash;
    var order, i := Sorted(data.deletedKeys), 0;
    while i < |order|
      invariant i <= |order|
      invariant buf == data.stateHash + EncodeDeleted(order[..i])
    {
      DeletedAppend(order[..i], order[i]);
      assert order[..i + 1] == order[..i] + [order[i]];
      buf := buf + LengthField(order[i]) + order[i];
      i := i + 1;
    }
    assert order[..i] == order;
  }

  /** deserialize of the Merkle data: a loop over a shrinking buffer. */
  method DeserializeMerkleData(buf: Bytes) returns (r: Result<MerkleData>)
    ensures r == DecodeMerkleData(buf)
  {
    hide FromBigEndian;
    if |buf| < MERKLE_DATA_MIN_SIZE {
      return Err(Aborted);
    }
    var keyBuffer, keys := buf[MERKLE_DATA_MIN_SIZE..], {};
    while keyBuffer != []
      invariant DecodeDeleted(keyBuffer, keys) == DecodeDeleted(buf[MERKLE_DATA_MIN_SIZE..], {})
      decreases |keyBuffer|
    {
      if |keyBuffer| < KEY_LENGTH_SIZE {
        return Err(Aborted);
      }
      var len := FromBigEndian(keyBuffer[..KEY_LENGTH_SIZE]);
      if len > |keyBuffer| - KEY_LENGTH_SIZE {
        return Err(Aborted);
      }
      keys := keys + {keyBuffer[KEY_LENGTH_SIZE..KEY_LENGTH_SIZE + len]};
      keyBuffer := keyBuffer[KEY_LENGTH_SIZE + len..];
    }
    r := Ok(MerkleData(buf[..32], keys));
  }

  // ---------- leaves ----------

  predicate LeafFits(leaf: Leaf) {
    InWidth(leaf.addedIn, ID_SIZE) && (leaf.deletedIn.Some? ==> InWidth(leaf.deletedIn.value, ID_SIZE))
  }

  /** The blocks that added and deleted the leaf, 0 standing for not deleted, and the value. */
  function EncodeLeaf(leaf: Leaf): Bytes
    requires LeafFits(leaf)
  {
    BigEndian(leaf.addedIn, ID_SIZE)
      + (BigEndian(if leaf.deletedIn.Some? then leaf.deletedIn.value else INVALID_BLOCK_ID, ID_SIZE) + leaf.value)
  }

  function DecodeLeaf(buf: Bytes): Result<Leaf> {
    if |buf| < LEAF_MIN_SIZE then Err(Aborted)
    else
      var deleted := FromBigEndian(buf[8..16]);
      Ok(Leaf(FromBigEndian(buf[..8]), buf[16..], if deleted != INVALID_BLOCK_ID then Some(deleted) else None))
  }

  /** A leaf comes back unless it says it was deleted in block 0. */
  lemma {:induction false} LeafRoundTrip(leaf: Leaf)
    requires LeafFits(leaf)
    ensures DecodeLeaf(EncodeLeaf(leaf)) == Ok(leaf) <==> leaf.deletedIn != Some(INVALID_BLOCK_ID)
  {
    hide BigEndian, FromBigEndian, Pow256;
    var deleted := if leaf.deletedIn.Some? then leaf.deletedIn.value else INVALID_BLOCK_ID;
    BigEndianRoundTrip(leaf.addedIn, ID_SIZE);
    BigEndianRoundTrip(deleted, ID_SIZE);
    FourParts(BigEndian(leaf.addedIn, ID_SIZE), BigEndian(deleted, ID_SIZE), leaf.value, [], []);
    assert EncodeLeaf(leaf)
        == BigEndian(leaf.addedIn, ID_SIZE) + (BigEndian(deleted, ID_SIZE) + (leaf.value + [])) + [];
    assert EncodeLeaf(leaf)[16..] == leaf.value;
  }
}
