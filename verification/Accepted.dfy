/** What the decoders accept: every byte string that they do not refuse is an encoding of what they return. */
module Accepted {
  import opened Common
  import opened SparseTree
  import opened AdapterSpec
  import opened ByteOrder
  import opened KeyCodec
  import opened NodeCodec
  import opened BlockCodec

  // ---------- leaves ----------

  /** A leaf is refused exactly when it is shorter than its two block ids. */
  lemma {:induction false} LeafAccepted(buf: Bytes)
    ensures match DecodeLeaf(buf)
      case Err(e) => e == Aborted && |buf| < LEAF_MIN_SIZE
      case Ok(leaf) => LeafFits(leaf) && leaf.deletedIn != Some(INVALID_BLOCK_ID) && buf == EncodeLeaf(leaf)
  {
    hide BigEndian, FromBigEndian, Pow256;
    if |buf| >= LEAF_MIN_SIZE {
      BigEndianInverse(buf[..8]);
      BigEndianInverse(buf[8..16]);
      ThreeParts(buf, 8, 16);
    }
  }

  lemma {:induction false} ThreeParts(b: Bytes, i: nat, j: nat)
    requires i <= j <= |b|
    ensures b == b[..i] + (b[i..j] + b[j..])
  {
  }

  // ---------- deleted keys of a raw block ----------

  /** What is accepted as deleted keys is a list of keys, each behind its length. */
  lemma {:induction false} DeletedAccepted(buf: Bytes, seen: set<Key>) returns (order: seq<Key>)
    requires DecodeDeleted(buf, seen).Ok?
    ensures forall i :: 0 <= i < |order| ==> ShortKey(order[i])
    ensures buf == EncodeDeleted(order) && DecodeDeleted(buf, seen).value == seen + SetOf(order)
    decreases |buf|
  {
    hide FromBigEndian, LengthField, ShortKey;
    order := [];
    if buf == [] {
      assert seen + SetOf([]) == seen;
    } else {
      var len := FromBigEndian(buf[..KEY_LENGTH_SIZE]);
      var k, tail := buf[KEY_LENGTH_SIZE..KEY_LENGTH_SIZE + len], buf[KEY_LENGTH_SIZE + len..];
      var rest := DeletedAccepted(tail, seen + {k});
      order := [k] + rest;
      KeyInFront(buf, len);
      assert order[1..] == rest;
      assert seen + {k} + SetOf(rest) == seen + SetOf(order);
    }
  }

  /** The key in front of a buffer, behind its length. */
  lemma {:induction false} KeyInFront(buf: Bytes, len: nat)
    requires |buf| >= KEY_LENGTH_SIZE && len == FromBigEndian(buf[..KEY_LENGTH_SIZE]) <= |buf| - KEY_LENGTH_SIZE
    ensures var k := buf[KEY_LENGTH_SIZE..KEY_LENGTH_SIZE + len];
      ShortKey(k) && buf == LengthField(k) + k + buf[KEY_LENGTH_SIZE + len..]
  {
    hide BigEndian, FromBigEndian, Pow256, LengthField;
    var k := buf[KEY_LENGTH_SIZE..KEY_LENGTH_SIZE + len];
    BigEndianInverse(buf[..KEY_LENGTH_SIZE]);
    LengthIs(k);
    ThreeParts(buf, KEY_LENGTH_SIZE, KEY_LENGTH_SIZE + len);
  }

  lemma {:induction false} LengthIs(k: Key)
    requires ShortKey(k)
    ensures LengthField(k) == BigEndian(|k|, KEY_LENGTH_SIZE)
  {
    hide BigEndian;
    assert |k| % Pow256(KEY_LENGTH_SIZE) == |k|;
  }

  /** A state hash followed by keys, each behind its length. */
  ghost predicate IsMerkleData(buf: Bytes, data: MerkleData, order: seq<Key>) {
    && (forall i :: 0 <= i < |order| ==> ShortKey(order[i]))
    && data.deletedKeys == SetOf(order) && buf == data.stateHash + EncodeDeleted(order)
  }

  /** The user data of a raw block is accepted exactly when it has that form, and read as what it says. */
  lemma {:induction false} MerkleDataAccepted(buf: Bytes, data: MerkleData)
    ensures DecodeMerkleData(buf) == Ok(data) <==> exists order :: IsMerkleData(buf, data, order)
    ensures DecodeMerkleData(buf).Err? ==> DecodeMerkleData(buf) == Err(Aborted)
  {
    hide EncodeDeleted, LengthField, ShortKey;
    if |buf| >= MERKLE_DATA_MIN_SIZE {
      DeletedRefusal(buf[MERKLE_DATA_MIN_SIZE..], {});
    }
    if DecodeMerkleData(buf) == Ok(data) {
      var order := DeletedAccepted(buf[MERKLE_DATA_MIN_SIZE..], {});
      assert {} + SetOf(order) == SetOf(order);
      assert buf == buf[..32] + buf[32..];
      assert IsMerkleData(buf, data, order);
    }
    if order :| IsMerkleData(buf, data, order) {
      assert buf[..32] == data.stateHash && buf[32..] == EncodeDeleted(order);
      DeletedRoundTrip(order, {});
      assert {} + SetOf(order) == SetOf(order);
    }
  }

  lemma {:induction false} DeletedRefusal(buf: Bytes, seen: set<Key>)
    ensures DecodeDeleted(buf, seen).Err? ==> DecodeDeleted(buf, seen) == Err(Aborted)
    decreases |buf|
  {
    hide FromBigEndian;
    if |buf| >= KEY_LENGTH_SIZE {
      var len := FromBigEndian(buf[..KEY_LENGTH_SIZE]);
      if len <= |buf| - KEY_LENGTH_SIZE {
        DeletedRefusal(buf[KEY_LENGTH_SIZE + len..], seen + {buf[KEY_LENGTH_SIZE..KEY_LENGTH_SIZE + len]});
      }
    }
  }

  // ---------- block nodes ----------

  /** A key of a block node with the byte that flags it; any byte but 0 says deleted. */
  datatype KeyEntry = KeyEntry(flag: Byte, key: Key)

  function OneEntry(e: KeyEntry): Bytes
    requires ShortKey(e.key)
  {
    [e.flag] + (BigEndian(|e.key|, KEY_LENGTH_SIZE) + e.key)
  }

  function EntryBytes(entries: seq<KeyEntry>): Bytes
    requires forall i :: 0 <= i < |entries| ==> ShortKey(entries[i].key)
  {
    if entries == [] then [] else OneEntry(entries[0]) + EntryBytes(entries[1..])
  }

  /** The keys with their flags; of a key that is there twice the first entry counts. */
  function KeysOf(entries: seq<KeyEntry>, seen: map<Key, bool>): map<Key, bool> {
    if entries == [] then seen
    else KeysOf(entries[1..], Emplace(seen, entries[0].key, entries[0].flag != 0))
  }

  lemma {:induction false} KeysAccepted(buf: Bytes, seen: map<Key, bool>) returns (entries: seq<KeyEntry>)
    requires DecodeKeys(buf, seen).Ok?
    ensures forall i :: 0 <= i < |entries| ==> ShortKey(entries[i].key)
    ensures buf == EntryBytes(entries) && DecodeKeys(buf, seen).value == KeysOf(entries, seen)
    decreases |buf|
  {
    hide BigEndian, FromBigEndian, Pow256, Emplace;
    entries := [];
    if buf != [] {
      var len := FromBigEndian(buf[1..NODE_MIN_KEY_SIZE]);
      var k, tail := buf[NODE_MIN_KEY_SIZE..NODE_MIN_KEY_SIZE + len], buf[NODE_MIN_KEY_SIZE + len..];
      var rest := KeysAccepted(tail, Emplace(seen, k, buf[0] != 0));
      entries := [KeyEntry(buf[0], k)] + rest;
      BigEndianInverse(buf[1..NODE_MIN_KEY_SIZE]);
      assert entries[1..] == rest;
      assert buf == [buf[0]] + (buf[1..NODE_MIN_KEY_SIZE] + k) + tail;
    }
  }

  lemma {:induction false} EntriesRead(entries: seq<KeyEntry>, seen: map<Key, bool>)
    requires forall i :: 0 <= i < |entries| ==> ShortKey(entries[i].key)
    ensures DecodeKeys(EntryBytes(entries), seen) == Ok(KeysOf(entries, seen))
  {
    hide BigEndian, FromBigEndian, Pow256, Emplace;
    if entries != [] {
      var k, flag, tail := entries[0].key, entries[0].flag, EntryBytes(entries[1..]);
      EntriesRead(entries[1..], Emplace(seen, k, flag != 0));
      BigEndianRoundTrip(|k|, KEY_LENGTH_SIZE);
      EntryParts(flag, BigEndian(|k|, KEY_LENGTH_SIZE), k, tail);
    }
  }

  lemma {:induction false} EntryParts(flag: Byte, len: Bytes, k: Key, tail: Bytes)
    requires |len| == KEY_LENGTH_SIZE
    ensures var b := [flag] + (len + k) + tail;
      && b[0] == flag && b[1..NODE_MIN_KEY_SIZE] == len && |b| == NODE_MIN_KEY_SIZE + |k| + |tail|
      && b[NODE_MIN_KEY_SIZE..NODE_MIN_KEY_SIZE + |k|] == k && b[NODE_MIN_KEY_SIZE + |k|..] == tail
  {
  }

  /** The head of a node followed by entries. */
  ghost predicate IsBlockNode(buf: Bytes, node: BlockNode, entries: seq<KeyEntry>) {
    && IdsFit(node) && (forall i :: 0 <= i < |entries| ==> ShortKey(entries[i].key))
    && node.keys == KeysOf(entries, map[]) && buf == EncodeHead(node) + EntryBytes(entries)
  }

  /** A block node is accepted exactly when it has that form, and read as what it says. */
  lemma {:induction false} BlockNodeAccepted(buf: Bytes, node: BlockNode)
    ensures DecodeBlockNode(buf) == Ok(node) <==> exists entries :: IsBlockNode(buf, node, entries)
    ensures DecodeBlockNode(buf).Err? ==> DecodeBlockNode(buf) == Err(Aborted)
  {
    hide EntryBytes, KeysOf, ShortKey, EncodeHead, DecodeHead;
    if |buf| >= NODE_MIN_SIZE {
      KeysRefusal(buf[NODE_MIN_SIZE..], map[]);
    }
    if DecodeBlockNode(buf) == Ok(node) {
      var entries := KeysAccepted(buf[NODE_MIN_SIZE..], map[]);
      HeadAccepted(buf, node);
      assert IsBlockNode(buf, node, entries);
    }
    if entries :| IsBlockNode(buf, node, entries) {
      HeadRoundTrip(node, EntryBytes(entries));
      assert buf[NODE_MIN_SIZE..] == EntryBytes(entries);
      EntriesRead(entries, map[]);
    }
  }

  lemma {:induction false} HeadAccepted(buf: Bytes, node: BlockNode)
    requires |buf| >= NODE_MIN_SIZE && node == DecodeHead(buf).(keys := node.keys)
    ensures IdsFit(node) && buf == EncodeHead(node) + buf[NODE_MIN_SIZE..]
  {
    hide BigEndian, FromBigEndian, Pow256;
    BigEndianInverse(buf[..8]);
    BigEndianInverse(buf[72..80]);
    assert buf == buf[..8] + (buf[8..40] + (buf[40..72] + buf[72..80])) + buf[80..];
  }

  lemma {:induction false} KeysRefusal(buf: Bytes, seen: map<Key, bool>)
    ensures DecodeKeys(buf, seen).Err? ==> DecodeKeys(buf, seen) == Err(Aborted)
    decreases |buf|
  {
    hide FromBigEndian;
    if |buf| >= NODE_MIN_KEY_SIZE {
      var len := FromBigEndian(buf[1..NODE_MIN_KEY_SIZE]);
      if len <= |buf| - NODE_MIN_KEY_SIZE {
        var k := buf[NODE_MIN_KEY_SIZE..NODE_MIN_KEY_SIZE + len];
        KeysRefusal(buf[NODE_MIN_KEY_SIZE + len..], Emplace(seen, k, buf[0] != 0));
      }
    }
  }

  // ---------- internal nodes ----------

  lemma {:induction false} LeafChildRead(r: Bytes)
    requires |r| >= LEAF_CHILD_SIZE
    ensures var v := FromBigEndian(r[64..72]);
      InWidth(v, ID_SIZE) && r == r[..32] + (r[32..64] + BigEndian(v, ID_SIZE)) + r[LEAF_CHILD_SIZE..]
  {
    hide BigEndian, FromBigEndian, Pow256;
    BigEndianInverse(r[64..72]);
    assert r[..72] == r[..32] + (r[32..64] + r[64..72]);
    assert r == r[..72] + r[72..];
  }

  lemma {:induction false} InternalChildRead(r: Bytes)
    requires |r| >= INTERNAL_CHILD_SIZE
    ensures var v := FromBigEndian(r[32..40]);
      InWidth(v, ID_SIZE) && r == r[..32] + BigEndian(v, ID_SIZE) + r[INTERNAL_CHILD_SIZE..]
  {
    hide BigEndian, FromBigEndian, Pow256;
    BigEndianInverse(r[32..40]);
    assert r[..40] == r[..32] + r[32..40];
    assert r == r[..40] + r[40..];
  }

  lemma {:induction false} ChildRead(buf: Bytes)
    requires DecodeChild(buf).Ok?
    ensures var (child, rest) := DecodeChild(buf).value;
      child.Valid() && buf == EncodeChild(child) + rest
  {
    hide BigEndian, FromBigEndian, Pow256;
    var r := buf[1..];
    assert buf == [buf[0]] + r;
    if buf[0] == LEAF_CHILD {
      LeafChildRead(r);
      Assoc([buf[0]], r[..32] + (r[32..64] + BigEndian(FromBigEndian(r[64..72]), ID_SIZE)), r[LEAF_CHILD_SIZE..]);
    } else {
      InternalChildRead(r);
      Assoc([buf[0]], r[..32] + BigEndian(FromBigEndian(r[32..40]), ID_SIZE), r[INTERNAL_CHILD_SIZE..]);
    }
  }

  /** A child is accepted exactly when the buffer starts with its encoding. */
  lemma {:induction false} ChildAccepted(buf: Bytes, child: Child, rest: Bytes)
    ensures DecodeChild(buf) == Ok((child, rest)) <==> child.Valid() && buf == EncodeChild(child) + rest
    ensures DecodeChild(buf).Err? ==> DecodeChild(buf) == Err(Aborted)
  {
    if DecodeChild(buf) == Ok((child, rest)) {
      hide EncodeChild, DecodeChild;
      ChildRead(buf);
    } else if child.Valid() && buf == EncodeChild(child) + rest {
      hide EncodeChild, DecodeChild;
      DecodeChildInverts(child, rest);
    }
  }

  /** The slots from i on: those that the mask names, one encoding after the other. */
  ghost predicate IsSlots(mask: nat, i: nat, buf: Bytes, slots: Children, rest: Bytes)
    decreases |slots|
  {
    if slots == [] then i == MAX_CHILDREN && rest == buf
    else
      && i < MAX_CHILDREN && (slots[0].Some? <==> Bit(mask, i))
      && if slots[0].None? then IsSlots(mask, i + 1, buf, slots[1..], rest)
         else
           && slots[0].value.Valid() && EncodeChild(slots[0].value) <= buf
           && IsSlots(mask, i + 1, buf[|EncodeChild(slots[0].value)|..], slots[1..], rest)
  }

  /** What the loop over the slots returns is what the buffer holds. */
  lemma {:induction false} SlotsRead(mask: nat, i: nat, buf: Bytes)
    requires i <= MAX_CHILDREN
    ensures match DecodeFrom(mask, i, buf)
      case Ok(r) => IsSlots(mask, i, buf, r.0, r.1)
      case Err(e) => e == Aborted
    decreases MAX_CHILDREN - i
  {
    hide Bit, EncodeChild, DecodeChild;
    if i < MAX_CHILDREN {
      if Bit(mask, i) {
        ChildAccepted(buf, InternalChild(seq(32, _ => 0), 0), []);
        if DecodeChild(buf).Ok? {
          var (child, tail) := DecodeChild(buf).value;
          ChildAccepted(buf, child, tail);
          assert buf[|EncodeChild(child)|..] == tail;
          SlotsRead(mask, i + 1, tail);
        }
      } else {
        SlotsRead(mask, i + 1, buf);
      }
    }
  }

  /** What the buffer holds is what the loop returns. */
  lemma {:induction false} SlotsHeld(mask: nat, i: nat, buf: Bytes, slots: Children, rest: Bytes)
    requires i <= MAX_CHILDREN && IsSlots(mask, i, buf, slots, rest)
    ensures DecodeFrom(mask, i, buf) == Ok((slots, rest))
    decreases MAX_CHILDREN - i
  {
    hide Bit, EncodeChild, DecodeChild;
    if slots != [] {
      assert slots == [slots[0]] + slots[1..];
      if slots[0].Some? {
        var child := slots[0].value;
        var tail := buf[|EncodeChild(child)|..];
        assert buf == EncodeChild(child) + tail;
        ChildAccepted(buf, child, tail);
        SlotsHeld(mask, i + 1, tail, slots[1..], rest);
      } else {
        SlotsHeld(mask, i + 1, buf, slots[1..], rest);
      }
    }
  }

  /** A mask followed by the children that it names, and whatever comes after. */
  ghost predicate IsNode(buf: Bytes, node: Children, rest: Bytes) {
    |buf| >= MASK_SIZE && IsSlots(FromBigEndian(buf[..MASK_SIZE]), 0, buf[MASK_SIZE..], node, rest)
  }

  lemma {:induction false} NodeRead(buf: Bytes) returns (rest: Bytes)
    requires buf != [] && DecodeNode(buf).Ok?
    ensures IsNode(buf, DecodeNode(buf).value, rest)
  {
    hide FromBigEndian;
    var mask, tail := FromBigEndian(buf[..MASK_SIZE]), buf[MASK_SIZE..];
    SlotsRead(mask, 0, tail);
    rest := DecodeFrom(mask, 0, tail).value.1;
  }

  lemma {:induction false} NodeHeld(buf: Bytes, node: Children, rest: Bytes)
    requires IsNode(buf, node, rest)
    ensures DecodeNode(buf) == Ok(node)
  {
    hide FromBigEndian;
    SlotsHeld(FromBigEndian(buf[..MASK_SIZE]), 0, buf[MASK_SIZE..], node, rest);
  }

  lemma {:induction false} NodeRefusal(buf: Bytes)
    ensures DecodeNode(buf).Err? ==> DecodeNode(buf) == Err(Aborted) && buf != []
  {
    hide FromBigEndian;
    if |buf| >= MASK_SIZE {
      SlotsRead(FromBigEndian(buf[..MASK_SIZE]), 0, buf[MASK_SIZE..]);
    }
  }

  /** An internal node is accepted exactly when it is empty, or a mask followed by the children that it names. */
  lemma {:induction false} NodeAccepted(buf: Bytes, node: Children)
    ensures buf != [] ==> (DecodeNode(buf) == Ok(node) <==> exists rest :: IsNode(buf, node, rest))
    ensures buf == [] ==> DecodeNode(buf) == Ok(seq(MAX_CHILDREN, _ => None))
    ensures DecodeNode(buf).Err? ==> DecodeNode(buf) == Err(Aborted)
  {
    NodeRefusal(buf);
    if buf != [] {
      hide DecodeNode, IsNode;
      if DecodeNode(buf) == Ok(node) {
        var rest := NodeRead(buf);
      }
      if rest :| IsNode(buf, node, rest) {
        NodeHeld(buf, node, rest);
      }
    }
  }
}
