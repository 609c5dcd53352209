/** The raw block: a direct key-value block with the Merkle data behind it as user data. */
module RawBlockCodec {
  import opened Common
  import opened SparseTree
  import opened ByteOrder
  import opened KeyCodec
  import opened BlockCodec

  const HEADER_SIZE: nat := 40
  const ENTRY_SIZE: nat := 16
  const DIGEST_SIZE: nat := 32

  type Updates = map<Key, Value>

  // ---------- 32-bit fields of a struct, low byte first ----------

  predicate Is32(n: int) {
    0 <= n < 0x1_0000_0000
  }

  function Put32(n: nat): (r: Bytes)
    requires Is32(n)
    ensures |r| == 4
  {
    [n % 256, n / 256 % 256, n / 256 / 256 % 256, n / 256 / 256 / 256]
  }

  function Get32(b: Bytes): (n: nat)
    requires |b| == 4
    ensures Is32(n)
  {
    var (x0: int, x1: int, x2: int, x3: int) := (b[0], b[1], b[2], b[3]);
    x0 + 256 * x1 + 0x1_0000 * x2 + 0x100_0000 * x3
  }

  lemma {:induction false} Get32Inverts(n: nat)
    requires Is32(n)
    ensures Get32(Put32(n)) == n
  {
    var a, b := n / 256, n / 256 / 256;
    assert n == n % 256 + 256 * a;
    assert a == a % 256 + 256 * b;
    assert b == b % 256 + 256 * (b / 256);
  }

  // ---------- the layout ----------

  /** Keys and values strung together. */
  function Body(updates: Updates, order: seq<Key>): Bytes
    requires forall i :: 0 <= i < |order| ==> order[i] in updates
  {
    if order == [] then [] else order[0] + updates[order[0]] + Body(updates, order[1..])
  }

  function MetadataSize(n: nat): nat {
    HEADER_SIZE + ENTRY_SIZE * n
  }

  /** Fewer elements than a 16-bit index counts and less space than a 32-bit offset reaches. */
  predicate InBounds(updates: Updates, userData: Bytes) {
    var order := Sorted(updates.Keys);
    && |updates| < 0x8000
    && MetadataSize(|updates|) + |Body(updates, order)| + |userData| < 0x8000_0000
  }

  function Entry(offset: nat, k: Key, v: Value): (r: Bytes)
    requires offset + |k| + |v| < 0x8000_0000
    ensures |r| == ENTRY_SIZE
  {
    Put32(offset) + Put32(|k|) + (Put32(offset + |k|) + Put32(|v|))
  }

  /** Entries whose first key is at the offset; each key starts where the value before it ends. */
  function Entries(updates: Updates, order: seq<Key>, offset: nat): (r: Bytes)
    requires forall i :: 0 <= i < |order| ==> order[i] in updates
    requires offset + |Body(updates, order)| < 0x8000_0000
    ensures |r| == ENTRY_SIZE * |order|
  {
    if order == [] then []
    else
      var k, v := order[0], updates[order[0]];
      Entry(offset, k, v) + Entries(updates, order[1..], offset + |k| + |v|)
  }

  function Header(n: nat, digest: Hash): (r: Bytes)
    requires n < 0x8000
    ensures |r| == HEADER_SIZE
  {
    Put32(n) + Put32(DIGEST_SIZE) + digest
  }

  function Block(updates: Updates, digest: Hash, userData: Bytes): Bytes
    requires InBounds(updates, userData)
  {
    var order := Sorted(updates.Keys);
    Header(|order|, digest) + Entries(updates, order, MetadataSize(|order|)) + Body(updates, order) + userData
  }

  // ---------- reading ----------

  function NumberOfElements(block: Bytes): nat
    requires |block| >= HEADER_SIZE
  {
    Get32(block[..4])
  }

  datatype EntryFields = EntryFields(keyOffset: nat, keySize: nat, valOffset: nat, valSize: nat)

  function EntryAt(block: Bytes, i: nat): EntryFields
    requires |block| >= MetadataSize(i + 1)
  {
    var e := block[MetadataSize(i)..MetadataSize(i + 1)];
    EntryFields(Get32(e[..4]), Get32(e[4..8]), Get32(e[8..12]), Get32(e[12..16]))
  }

  /** Adds entries from i on; a slice outside the block aborts, and the first value of a key stays. */
  function DataFrom(block: Bytes, i: nat, n: nat, found: Updates): Result<Updates>
    requires i <= n && |block| >= MetadataSize(n)
    decreases n - i
  {
    if i == n then Ok(found)
    else
      var e := EntryAt(block, i);
      if e.keyOffset + e.keySize > |block| || e.valOffset + e.valSize > |block| then Err(Aborted)
      else
        var k := block[e.keyOffset..e.keyOffset + e.keySize];
        var v := block[e.valOffset..e.valOffset + e.valSize];
        DataFrom(block, i + 1, n, if k in found then found else found[k := v])
  }

  /** getData; a header or entry outside the block is read as an abort. */
  function Data(block: Bytes): Result<Updates> {
    if block == [] then Ok(map[])
    else if |block| < HEADER_SIZE || |block| < MetadataSize(NumberOfElements(block)) then Err(Aborted)
    else DataFrom(block, 0, NumberOfElements(block), map[])
  }

  function ParentDigestOf(block: Bytes): Result<Hash> {
    if |block| < HEADER_SIZE || Get32(block[4..8]) != DIGEST_SIZE then Err(Aborted) else Ok(block[8..40])
  }

  /** What follows the last value, or the header when there are no elements. */
  function UserData(block: Bytes): Result<Bytes> {
    if |block| < HEADER_SIZE then Err(Aborted)
    else
      var n := NumberOfElements(block);
      if n == 0 then Ok(block[HEADER_SIZE..])
      else if |block| < MetadataSize(n) then Err(Aborted)
      else
        var last := EntryAt(block, n - 1);
        if last.valOffset + last.valSize > |block| then Err(Aborted)
        else Ok(block[last.valOffset + last.valSize..])
  }

  // ---------- what the entries of a created block say ----------

  /** Where the key of element i starts. */
  function KeyOffset(updates: Updates, order: seq<Key>, i: nat): nat
    requires i <= |order|
    requires forall j :: 0 <= j < |order| ==> order[j] in updates
  {
    MetadataSize(|order|) + |Body(updates, order[..i])|
  }

  lemma {:induction false} BodySplits(updates: Updates, order: seq<Key>, i: nat)
    requires i <= |order|
    requires forall j :: 0 <= j < |order| ==> order[j] in updates
    ensures Body(updates, order) == Body(updates, order[..i]) + Body(updates, order[i..])
  {
    if i > 0 {
      var k := order[0];
      BodySplits(updates, order[1..], i - 1);
      var front, back := order[..i][1..], order[i..];
      assert order[1..][..i - 1] == front && order[1..][i - 1..] == back;
      assert Body(updates, order[..i]) == k + updates[k] + Body(updates, front);
      Assoc(k + updates[k], Body(updates, front), Body(updates, back));
    } else {
      assert order[..0] == [] && order[0..] == order;
    }
  }

  /** The prefix of a body grows by a key and its value. */
  lemma {:induction false} BodyNext(updates: Updates, order: seq<Key>, i: nat)
    requires i < |order|
    requires forall j :: 0 <= j < |order| ==> order[j] in updates
    ensures Body(updates, order[..i + 1]) == Body(updates, order[..i]) + order[i] + updates[order[i]]
    ensures |Body(updates, order[..i + 1])| <= |Body(updates, order)|
  {
    var front := order[..i + 1];
    BodySplits(updates, front, i);
    assert front[..i] == order[..i] && front[i..] == [order[i]];
    assert [order[i]][1..] == order[..0];
    assert Body(updates, [order[i]]) == order[i] + updates[order[i]] + Body(updates, order[..0]);
    assert Body(updates, [order[i]]) == order[i] + updates[order[i]];
    Assoc(Body(updates, order[..i]), order[i], updates[order[i]]);
    BodySplits(updates, order, i + 1);
  }

  lemma {:induction false} EntriesAt(updates: Updates, order: seq<Key>, offset: nat, i: nat)
    requires i < |order|
    requires forall j :: 0 <= j < |order| ==> order[j] in updates
    requires offset + |Body(updates, order)| < 0x8000_0000
    ensures var at := offset + |Body(updates, order[..i])|;
      && at + |order[i]| + |updates[order[i]]| <= offset + |Body(updates, order)|
      && Entries(updates, order, offset)[ENTRY_SIZE * i..ENTRY_SIZE * (i + 1)] == Entry(at, order[i], updates[order[i]])
  {
    hide Entry, Less, Sorted;
    var k, v := order[0], updates[order[0]];
    BodyNext(updates, order, i);
    var all := Entries(updates, order, offset);
    if i == 0 {
      assert order[..0] == [];
      assert all[0..ENTRY_SIZE] == Entry(offset, k, v);
    } else {
      var later := Entries(updates, order[1..], offset + |k| + |v|);
      EntriesAt(updates, order[1..], offset + |k| + |v|, i - 1);
      assert all[ENTRY_SIZE * i..ENTRY_SIZE * (i + 1)] == later[ENTRY_SIZE * (i - 1)..ENTRY_SIZE * i];
      assert order[1..][..i - 1] == order[..i][1..];
    }
  }

  lemma {:induction false} EntryFieldsOf(offset: nat, k: Key, v: Value)
    requires offset + |k| + |v| < 0x8000_0000
    ensures var e := Entry(offset, k, v);
      && Get32(e[..4]) == offset && Get32(e[4..8]) == |k|
      && Get32(e[8..12]) == offset + |k| && Get32(e[12..16]) == |v|
  {
    hide Put32, Get32;
    var e := Entry(offset, k, v);
    assert e[..4] == Put32(offset) && e[4..8] == Put32(|k|);
    assert e[8..12] == Put32(offset + |k|) && e[12..16] == Put32(|v|);
    Get32Inverts(offset);
    Get32Inverts(|k|);
    Get32Inverts(offset + |k|);
    Get32Inverts(|v|);
  }

  // ---------- round trip ----------

  /** The parts of a created block. */
  lemma {:induction false} BlockParts(updates: Updates, digest: Hash, userData: Bytes)
    requires InBounds(updates, userData)
    ensures var block, order := Block(updates, digest, userData), Sorted(updates.Keys);
      var meta, end := MetadataSize(|order|), MetadataSize(|order|) + |Body(updates, order)|;
      && |order| == |updates| && |block| == end + |userData|
      && block[..HEADER_SIZE] == Header(|order|, digest)
      && block[HEADER_SIZE..meta] == Entries(updates, order, meta)
      && block[meta..end] == Body(updates, order)
      && block[end..] == userData
      && NumberOfElements(block) == |order|
      && Get32(block[4..8]) == DIGEST_SIZE && block[8..40] == digest
  {
    hide Put32, Get32, Entries, Body, Header, Sorted;
    var order := Sorted(updates.Keys);
    assert |updates| == |updates.Keys|;
    var n := |order|;
    var h, e, b := Header(n, digest), Entries(updates, order, MetadataSize(n)), Body(updates, order);
    FourSlices(h, e, b, userData);
    HeaderFields(n, digest, e + b + userData);
    assert Block(updates, digest, userData) == h + (e + b + userData);
  }

  lemma {:induction false} FourSlices(a: Bytes, b: Bytes, c: Bytes, d: Bytes)
    ensures var s := a + b + c + d;
      var i, j := |a| + |b|, |a| + |b| + |c|;
      && |s| == j + |d|
      && s[..|a|] == a && s[|a|..i] == b && s[i..j] == c && s[j..] == d
  {
  }

  lemma {:induction false} HeaderFields(n: nat, digest: Hash, rest: Bytes)
    requires n < 0x8000
    ensures var s := Header(n, digest) + rest;
      && NumberOfElements(s) == n
      && Get32(s[4..8]) == DIGEST_SIZE && s[8..40] == digest
  {
    hide Put32, Get32;
    Get32Inverts(n);
    Get32Inverts(DIGEST_SIZE);
    var s := Header(n, digest) + rest;
    assert s == Put32(n) + Put32(DIGEST_SIZE) + digest + rest;
    FourSlices(Put32(n), Put32(DIGEST_SIZE), digest, rest);
  }

  /**
   * The entries tile the body: element i has the i-th smallest key, its value follows the key,
   * and the next key, or the user data after the last one, follows the value.
   */
  lemma {:induction false} EntriesTile(updates: Updates, digest: Hash, userData: Bytes, i: nat)
    requires InBounds(updates, userData) && i < |updates|
    ensures var block, order := Block(updates, digest, userData), Sorted(updates.Keys);
      && |order| == |updates| && |block| >= MetadataSize(i + 1)
      && var e := EntryAt(block, i);
      && e.keyOffset == KeyOffset(updates, order, i)
      && e.valOffset == e.keyOffset + e.keySize
      && e.valOffset + e.valSize == KeyOffset(updates, order, i + 1) <= |block| - |userData|
      && block[e.keyOffset..e.valOffset] == order[i]
      && block[e.valOffset..e.valOffset + e.valSize] == updates[order[i]]
  {
    hide Get32, Put32, Entry, Entries, Header, Block, Sorted, Body, Less, NumberOfElements;
    var block, order := Block(updates, digest, userData), Sorted(updates.Keys);
    var meta := MetadataSize(|order|);
    BlockParts(updates, digest, userData);
    EntriesAt(updates, order, meta, i);
    BodyNext(updates, order, i);
    var at, k, v := meta + |Body(updates, order[..i])|, order[i], updates[order[i]];
    EntryFieldsOf(at, k, v);
    EntrySlice(block, order, Entries(updates, order, meta), i);
    BodySplits(updates, order, i + 1);
    BodySlices(block, meta, Body(updates, order), Body(updates, order[..i]), k, v, Body(updates, order[i + 1..]));
  }

  lemma {:induction false} EntrySlice(block: Bytes, order: seq<Key>, entries: Bytes, i: nat)
    requires i < |order| && |block| >= MetadataSize(|order|) && |entries| == ENTRY_SIZE * |order|
    requires block[HEADER_SIZE..MetadataSize(|order|)] == entries
    ensures block[MetadataSize(i)..MetadataSize(i + 1)] == entries[ENTRY_SIZE * i..ENTRY_SIZE * (i + 1)]
  {
    SliceOfSlice(block, HEADER_SIZE, MetadataSize(|order|), ENTRY_SIZE * i, ENTRY_SIZE * (i + 1));
  }

  lemma {:induction false} BodySlices(
    block: Bytes, meta: nat, body: Bytes, front: Bytes, k: Bytes, v: Bytes, back: Bytes)
    requires meta + |body| <= |block| && block[meta..meta + |body|] == body
    requires body == front + k + v + back
    ensures var at := meta + |front|;
      block[at..at + |k|] == k && block[at + |k|..at + |k| + |v|] == v
  {
    var i, j, all := |front|, |front| + |k|, block[meta..meta + |body|];
    SliceOfSlice(block, meta, meta + |body|, i, j);
    SliceOfSlice(block, meta, meta + |body|, j, j + |v|);
    Assoc(front + k, v, back);
    Middle(front, k, v + back);
    Middle(front + k, v, back);
    assert all == body;
    assert all[i..j] == k && all[j..j + |v|] == v;
  }

  /** The first n pairs in key order. */
  function FirstPairs(updates: Updates, order: seq<Key>, n: nat): (r: Updates)
    requires n <= |order| && forall j :: 0 <= j < |order| ==> order[j] in updates
    ensures forall k :: k in r <==> k in order[..n]
    ensures forall k :: k in r ==> r[k] == updates[k]
  {
    if n == 0 then map[] else FirstPairs(updates, order, n - 1)[order[n - 1] := updates[order[n - 1]]]
  }

  lemma {:induction false} DataFromIs(updates: Updates, digest: Hash, userData: Bytes, i: nat)
    requires InBounds(updates, userData) && i <= |updates|
    ensures var block, order := Block(updates, digest, userData), Sorted(updates.Keys);
      && |order| == |updates| && |block| >= MetadataSize(|order|)
      && DataFrom(block, i, |order|, FirstPairs(updates, order, i)) == Ok(FirstPairs(updates, order, |order|))
    decreases |updates| - i
  {
    hide Block, EntryAt, Body, Sorted, KeyOffset, InBounds, Less, Entries, Header, Get32, DataFrom, FirstPairs;
    var block, order := Block(updates, digest, userData), Sorted(updates.Keys);
    BlockParts(updates, digest, userData);
    if i < |updates| {
      EntriesTile(updates, digest, userData, i);
      DataFromIs(updates, digest, userData, i + 1);
      NewKey(order, i);
      NextPair(block, updates, order, i);
    } else {
      LastPair(block, |order|, FirstPairs(updates, order, i));
    }
  }

  lemma {:induction false} LastPair(block: Bytes, n: nat, found: Updates)
    requires |block| >= MetadataSize(n)
    ensures DataFrom(block, n, n, found) == Ok(found)
  {
  }

  /** An entry that points at the i-th pair adds it. */
  lemma {:induction false} NextPair(block: Bytes, updates: Updates, order: seq<Key>, i: nat)
    requires i < |order| && |block| >= MetadataSize(|order|) && |block| >= MetadataSize(i + 1)
    requires forall j :: 0 <= j < |order| ==> order[j] in updates
    requires order[i] !in order[..i]
    requires var e := EntryAt(block, i);
      && e.valOffset == e.keyOffset + e.keySize && e.valOffset + e.valSize <= |block|
      && block[e.keyOffset..e.valOffset] == order[i]
      && block[e.valOffset..e.valOffset + e.valSize] == updates[order[i]]
    ensures DataFrom(block, i, |order|, FirstPairs(updates, order, i))
         == DataFrom(block, i + 1, |order|, FirstPairs(updates, order, i + 1))
  {
    hide EntryAt, Get32;
  }

  lemma {:induction false} NewKey(order: seq<Key>, i: nat)
    requires Ascending(order) && i < |order|
    ensures order[i] !in order[..i]
  {
    LessIrreflexive(order[i]);
  }

  lemma {:induction false} DataIs(updates: Updates, digest: Hash, userData: Bytes)
    requires InBounds(updates, userData)
    ensures Data(Block(updates, digest, userData)) == Ok(updates)
  {
    hide Block, Body, DataFrom, Sorted, InBounds, Entries, Header, Get32;
    var order := Sorted(updates.Keys);
    BlockParts(updates, digest, userData);
    DataFromIs(updates, digest, userData, 0);
    assert order[..|order|] == order;
    assert FirstPairs(updates, order, |order|) == updates;
  }

  lemma {:induction false} UserDataIs(updates: Updates, digest: Hash, userData: Bytes)
    requires InBounds(updates, userData)
    ensures UserData(Block(updates, digest, userData)) == Ok(userData)
  {
    hide Block, Body, Sorted, InBounds, Entries, Header, Get32, EntryAt;
    var order := Sorted(updates.Keys);
    BlockParts(updates, digest, userData);
    if |order| > 0 {
      EntriesTile(updates, digest, userData, |order| - 1);
      assert order[..|order|] == order;
    } else {
      EmptyBody(updates, order);
    }
  }

  /** getData, getParentDigest and getUserData recover what the block was created from. */
  lemma {:induction false} BlockRoundTrip(updates: Updates, digest: Hash, userData: Bytes)
    requires InBounds(updates, userData)
    ensures var block := Block(updates, digest, userData);
      Data(block) == Ok(updates) && ParentDigestOf(block) == Ok(digest) && UserData(block) == Ok(userData)
  {
    hide Block, Data, UserData, Body, Sorted, InBounds, Entries, Header, Get32;
    BlockParts(updates, digest, userData);
    DataIs(updates, digest, userData);
    UserDataIs(updates, digest, userData);
  }

  lemma {:induction false} EmptyBody(updates: Updates, order: seq<Key>)
    requires order == []
    ensures Body(updates, order) == []
  {
  }

  /** Different contents give different bytes. */
  lemma {:induction false} BlockInjective(u1: Updates, d1: Hash, x1: Bytes, u2: Updates, d2: Hash, x2: Bytes)
    requires InBounds(u1, x1) && InBounds(u2, x2)
    ensures Block(u1, d1, x1) == Block(u2, d2, x2) <==> u1 == u2 && d1 == d2 && x1 == x2
  {
    hide Block, Data, ParentDigestOf, UserData;
    BlockRoundTrip(u1, d1, x1);
    BlockRoundTrip(u2, d2, x2);
  }

  // ---------- filling the buffer ----------

  function Overwrite(s: Bytes, offset: nat, data: Bytes): (r: Bytes)
    requires offset + |data| <= |s|
    ensures |r| == |s|
  {
    s[..offset] + data + s[offset + |data|..]
  }

  method MemCopy(buf: array<Byte>, offset: nat, data: Bytes)
    requires offset + |data| <= buf.Length
    modifies buf
    ensures buf[..] == Overwrite(old(buf[..]), offset, data)
  {
    var i := 0;
    while i < |data|
      invariant i <= |data|
      invariant forall j :: 0 <= j < i ==> buf[offset + j] == data[j]
      invariant forall j :: 0 <= j < offset ==> buf[j] == old(buf[j])
      invariant forall j :: offset + i <= j < buf.Length ==> buf[j] == old(buf[j])
    {
      buf[offset + i] := data[i];
      i := i + 1;
    }
  }

  lemma {:induction false} OverwriteNext(a: Bytes, z: Bytes, b: Bytes, data: Bytes)
    requires |data| <= |z|
    ensures Overwrite(a + z + b, |a|, data) == (a + data) + z[|data|..] + b
  {
    var s := a + z + b;
    assert s[..|a|] == a && s[|a| + |data|..] == z[|data|..] + b;
  }

  function Zeros(n: nat): (r: Bytes)
    ensures |r| == n
  {
    seq(n, _ => 0)
  }

  lemma {:induction false} DropZeros(n: nat, m: nat)
    requires m <= n
    ensures Zeros(n)[m..] == Zeros(n - m)
  {
  }

  /** A buffer of which the front of the metadata and of the body are written. */
  function Partial(front: Bytes, metaLeft: nat, body: Bytes, bodyLeft: nat): Bytes {
    front + Zeros(metaLeft) + (body + Zeros(bodyLeft))
  }

  lemma {:induction false} PartialEntry(front: Bytes, metaLeft: nat, body: Bytes, bodyLeft: nat, entry: Bytes)
    requires |entry| <= metaLeft
    ensures |Partial(front, metaLeft, body, bodyLeft)| == |front| + metaLeft + |body| + bodyLeft
    ensures Overwrite(Partial(front, metaLeft, body, bodyLeft), |front|, entry)
         == Partial(front + entry, metaLeft - |entry|, body, bodyLeft)
  {
    OverwriteNext(front, Zeros(metaLeft), body + Zeros(bodyLeft), entry);
    DropZeros(metaLeft, |entry|);
  }

  lemma {:induction false} PartialBody(front: Bytes, metaLeft: nat, body: Bytes, bodyLeft: nat, data: Bytes)
    requires |data| <= bodyLeft
    ensures |Partial(front, metaLeft, body, bodyLeft)| == |front| + metaLeft + |body| + bodyLeft
    ensures Overwrite(Partial(front, metaLeft, body, bodyLeft), |front| + metaLeft + |body|, data)
         == Partial(front, metaLeft, body + data, bodyLeft - |data|)
  {
    var a, z := front + Zeros(metaLeft) + body, Zeros(bodyLeft);
    OverwriteNext(a, z, [], data);
    DropZeros(bodyLeft, |data|);
    assert Partial(front, metaLeft, body, bodyLeft) == a + z + [];
    assert Partial(front, metaLeft, body + data, bodyLeft - |data|) == (a + data) + z[|data|..] + [];
  }

  /** Stores one entry, its key and its value. */
  method PutElement(buf: array<Byte>, entryOffset: nat, offset: nat, k: Key, v: Value,
                    ghost front: Bytes, ghost metaLeft: nat, ghost body: Bytes, ghost bodyLeft: nat)
    requires buf[..] == Partial(front, metaLeft, body, bodyLeft)
    requires entryOffset == |front| && offset == |front| + metaLeft + |body|
    requires ENTRY_SIZE <= metaLeft && |k| + |v| <= bodyLeft && offset + bodyLeft < 0x8000_0000
    modifies buf
    ensures buf[..] == Partial(front + Entry(offset, k, v), metaLeft - ENTRY_SIZE, body + k + v, bodyLeft - |k| - |v|)
  {
    hide Partial, Entry, Overwrite;
    var entry := Entry(offset, k, v);
    PartialEntry(front, metaLeft, body, bodyLeft, entry);
    MemCopy(buf, entryOffset, entry);
    PartialBody(front + entry, metaLeft - ENTRY_SIZE, body, bodyLeft, k);
    MemCopy(buf, offset, k);
    PartialBody(front + entry, metaLeft - ENTRY_SIZE, body + k, bodyLeft - |k|, v);
    MemCopy(buf, offset + |k|, v);
  }

  lemma {:induction false} EntriesNext(updates: Updates, order: seq<Key>, offset: nat, i: nat)
    requires i < |order|
    requires forall j :: 0 <= j < |order| ==> order[j] in updates
    requires offset + |Body(updates, order)| < 0x8000_0000
    ensures var at := offset + |Body(updates, order[..i])|;
      && |Body(updates, order[..i])| <= |Body(updates, order)|
      && offset + |Body(updates, order[..i + 1])| < 0x8000_0000
      && at + |order[i]| + |updates[order[i]]| == offset + |Body(updates, order[..i + 1])|
      && Entries(updates, order[..i + 1], offset)
         == Entries(updates, order[..i], offset) + Entry(at, order[i], updates[order[i]])
  {
    hide Entry, Body;
    BodyNext(updates, order, i);
    BodySplits(updates, order, i);
    if i == 0 {
      FirstEntry(updates, order, offset);
    } else {
      BodyHead(updates, order);
      BodyHead(updates, order[..i]);
      BodyHead(updates, order[..i + 1]);
      EntriesNext(updates, order[1..], offset + |order[0]| + |updates[order[0]]|, i - 1);
      assert order[1..][..i] == order[..i + 1][1..] && order[1..][..i - 1] == order[..i][1..];
    }
  }

  lemma {:induction false} BodyHead(updates: Updates, order: seq<Key>)
    requires order != [] && forall j :: 0 <= j < |order| ==> order[j] in updates
    ensures |Body(updates, order)| == |order[0]| + |updates[order[0]]| + |Body(updates, order[1..])|
  {
  }

  lemma {:induction false} FirstEntry(updates: Updates, order: seq<Key>, offset: nat)
    requires order != [] && forall j :: 0 <= j < |order| ==> order[j] in updates
    requires offset + |Body(updates, order)| < 0x8000_0000
    ensures order[..0] == [] && Body(updates, order[..0]) == []
    ensures offset + |Body(updates, order[..1])| < 0x8000_0000
    ensures Entries(updates, order[..1], offset)
         == Entries(updates, order[..0], offset) + Entry(offset, order[0], updates[order[0]])
  {
    hide Entry;
    BodyNext(updates, order, 0);
    assert order[..1][1..] == order[..0];
  }

  method BodySize(updates: Updates, order: seq<Key>) returns (size: nat)
    requires forall j :: 0 <= j < |order| ==> order[j] in updates
    ensures size == |Body(updates, order)|
  {
    size := 0;
    var i := 0;
    while i < |order|
      invariant i <= |order|
      invariant size == |Body(updates, order[..i])|
    {
      BodyNext(updates, order, i);
      size := size + |order[i]| + |updates[order[i]]|;
      i := i + 1;
    }
    assert order[..i] == order;
  }

  /** The loop of create over the pairs in key order, with a running index and offset. */
  method PutElements(buf: array<Byte>, updates: Updates, order: seq<Key>, ghost header: Bytes, ghost room: nat)
    returns (offset: nat)
    requires forall j :: 0 <= j < |order| ==> order[j] in updates
    requires |header| == HEADER_SIZE && |Body(updates, order)| <= room
    requires MetadataSize(|order|) + room < 0x8000_0000
    requires buf[..] == Partial(header, ENTRY_SIZE * |order|, [], room)
    modifies buf
    ensures offset == MetadataSize(|order|) + |Body(updates, order)|
    ensures buf[..] == Partial(header + Entries(updates, order, MetadataSize(|order|)), 0,
                               Body(updates, order), room - |Body(updates, order)|)
  {
    hide Partial, Entry, Entries, Body;
    var n, idx := |order|, 0;
    var meta := MetadataSize(n);
    offset := meta;
    ghost var left := room;
    StartElements(updates, order, meta, header);
    while idx < n
      invariant idx <= n && offset == meta + |Body(updates, order[..idx])|
      invariant offset + left == meta + room
      invariant |Body(updates, order[..idx])| <= |Body(updates, order)|
      invariant buf[..] == Partial(header + Entries(updates, order[..idx], meta), ENTRY_SIZE * (n - idx),
                                   Body(updates, order[..idx]), left)
    {
      var k, v := order[idx], updates[order[idx]];
      EntriesNext(updates, order, meta, idx);
      BodyNext(updates, order, idx);
      ghost var front, body := header + Entries(updates, order[..idx], meta), Body(updates, order[..idx]);
      PutElement(buf, MetadataSize(idx), offset, k, v, front, ENTRY_SIZE * (n - idx), body, left);
      assert front + Entry(offset, k, v) == header + Entries(updates, order[..idx + 1], meta);
      left := left - |k| - |v|;
      offset := offset + |k| + |v|;
      idx := idx + 1;
    }
    assert order[..n] == order;
  }

  method NewBuffer(meta: nat, room: nat) returns (buf: array<Byte>)
    ensures fresh(buf) && buf[..] == Partial([], meta, [], room)
  {
    buf := new Byte[meta + room](_ => 0);
    assert buf[..] == Partial([], meta, [], room);
  }

  /** create: fills a zeroed buffer in place. */
  method Create(updates: Updates, digest: Hash, userData: Bytes) returns (buf: array<Byte>)
    requires InBounds(updates, userData)
    ensures buf[..] == Block(updates, digest, userData)
  {
    hide Partial, Entry, Header, Entries, Body, Sorted, Overwrite, InBounds, Block;
    var order := Sorted(updates.Keys);
    SizesFit(updates, userData);
    var bodySize := BodySize(updates, order);
    var meta := MetadataSize(|order|);
    buf := NewBuffer(meta, bodySize + |userData|);
    var header := Header(|order|, digest);
    PartialEntry([], meta, [], bodySize + |userData|, header);
    MemCopy(buf, 0, header);
    assert [] + header == header;
    var offset := PutElements(buf, updates, order, header, bodySize + |userData|);
    PartialBody(header + Entries(updates, order, meta), 0, Body(updates, order), |userData|, userData);
    MemCopy(buf, offset, userData);
    FinishedIs(updates, digest, userData);
  }

  lemma {:induction false} SizesFit(updates: Updates, userData: Bytes)
    requires InBounds(updates, userData)
    ensures var order := Sorted(updates.Keys);
      |order| < 0x8000 && MetadataSize(|order|) + |Body(updates, order)| + |userData| < 0x8000_0000
  {
    hide Body, Sorted;
    assert |updates| == |updates.Keys|;
  }

  lemma {:induction false} FinishedIs(updates: Updates, digest: Hash, userData: Bytes)
    requires InBounds(updates, userData)
    ensures var order := Sorted(updates.Keys);
      && |order| < 0x8000 && MetadataSize(|order|) + |Body(updates, order)| < 0x8000_0000
      && Partial(Header(|order|, digest) + Entries(updates, order, MetadataSize(|order|)), 0,
                 Body(updates, order) + userData, 0) == Block(updates, digest, userData)
  {
    hide Header, Entries, Body, Sorted, Partial;
    SizesFit(updates, userData);
    var order := Sorted(updates.Keys);
    EndPartial(Header(|order|, digest) + Entries(updates, order, MetadataSize(|order|)), Body(updates, order), userData);
  }

  lemma {:induction false} StartElements(updates: Updates, order: seq<Key>, meta: nat, header: Bytes)
    requires meta < 0x8000_0000
    ensures order[..0] == [] && Body(updates, []) == []
    ensures header + Entries(updates, [], meta) == header
  {
  }

  lemma {:induction false} EndPartial(front: Bytes, body: Bytes, userData: Bytes)
    ensures Partial(front, 0, body + userData, 0) == front + body + userData
  {
    assert Partial(front, 0, body + userData, 0) == front + (body + userData);
  }

  /** getData: collects the pairs entry by entry. */
  method GetData(block: Bytes) returns (r: Result<Updates>)
    ensures r == Data(block)
  {
    hide EntryAt, Get32;
    if block == [] {
      return Ok(map[]);
    }
    if |block| < HEADER_SIZE || |block| < MetadataSize(NumberOfElements(block)) {
      return Err(Aborted);
    }
    var n, i := NumberOfElements(block), 0;
    var found: Updates := map[];
    while i < n
      invariant i <= n
      invariant DataFrom(block, i, n, found) == Data(block)
    {
      var e := EntryAt(block, i);
      if e.keyOffset + e.keySize > |block| || e.valOffset + e.valSize > |block| {
        return Err(Aborted);
      }
      var k := block[e.keyOffset..e.keyOffset + e.keySize];
      if k !in found {
        found := found[k := block[e.valOffset..e.valOffset + e.valSize]];
      }
      i := i + 1;
    }
    r := Ok(found);
  }

  // ---------- the Merkle raw block ----------

  function MerkleBlock(updates: Updates, deletes: set<Key>, digest: Hash, stateHash: Hash): Bytes
    requires InBounds(updates, EncodeMerkleData(MerkleData(stateHash, deletes)))
  {
    Block(updates, digest, EncodeMerkleData(MerkleData(stateHash, deletes)))
  }

  function DeletedKeysOf(block: Bytes): Result<set<Key>> {
    var userData :- UserData(block);
    var data :- DecodeMerkleData(userData);
    Ok(data.deletedKeys)
  }

  function StateHashOf(block: Bytes): Result<Hash> {
    var userData :- UserData(block);
    var data :- DecodeMerkleData(userData);
    Ok(data.stateHash)
  }

  /** Every part of a Merkle raw block comes back through both layers. */
  lemma {:induction false} MerkleBlockRoundTrip(updates: Updates, deletes: set<Key>, digest: Hash, stateHash: Hash)
    requires InBounds(updates, EncodeMerkleData(MerkleData(stateHash, deletes)))
    ensures var block := MerkleBlock(updates, deletes, digest, stateHash);
      && Data(block) == Ok(updates) && ParentDigestOf(block) == Ok(digest)
      && DeletedKeysOf(block) == Ok(deletes) && StateHashOf(block) == Ok(stateHash)
  {
    hide Block, Data, ParentDigestOf, UserData, EncodeMerkleData, DecodeMerkleData;
    var data := MerkleData(stateHash, deletes);
    BlockRoundTrip(updates, digest, EncodeMerkleData(data));
    forall k | k in deletes
      ensures ShortKey(k)
    {
      DeletedKeyFits(data, k);
    }
    MerkleDataRoundTrip(data);
  }

  /** The size bound of a block rules out deleted keys that a 32-bit length cannot tell. */
  lemma {:induction false} DeletedKeyFits(data: MerkleData, k: Key)
    requires k in data.deletedKeys && |EncodeMerkleData(data)| < 0x8000_0000
    ensures ShortKey(k)
  {
    var order := Sorted(data.deletedKeys);
    assert k in order;
    DeletedSize(order, k);
    assert Pow256(4) == 0x1_0000_0000;
  }

  lemma {:induction false} DeletedSize(order: seq<Key>, k: Key)
    requires k in order
    ensures |k| <= |EncodeDeleted(order)|
  {
    if order[0] != k {
      DeletedSize(order[1..], k);
    }
  }
}
