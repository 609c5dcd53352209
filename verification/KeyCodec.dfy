/**
 * The database keys of the Merkle tree adapter as byte strings. Every field is written so that
 * the bytewise order of the database is the order of the fields.
 */
module KeyCodec {
  import opened Common
  import opened SparseTree
  import opened AdapterSpec
  import opened ByteOrder

  /** A SHA3-256 hash. */
  type Hash = b: Bytes | |b| == 32 witness seq(32, _ => 0)

  type Hasher = Key -> Hash

  const ID_SIZE: nat := 8
  const MAX_PATH: nat := 63

  // Key types and subtypes.
  const BLOCK: Byte := 0
  const BFT: Byte := 1
  const KEY: Byte := 2
  const MIGRATION: Byte := 3
  const INTERNAL: Byte := 0
  const PROVABLE_STALE: Byte := 1
  const LEAF: Byte := 2
  const NON_PROVABLE_STALE: Byte := 3
  const NON_PROVABLE: Byte := 4
  const ST_TEMP_BLOCK: Byte := 5

  // ---------- nibble paths ----------

  predicate Nibbles(p: Path) {
    forall i :: 0 <= i < |p| ==> p[i] < 16
  }

  predicate IsNibblePath(p: Path) {
    |p| <= MAX_PATH && Nibbles(p)
  }

  /** Two nibbles in a byte, the upper one first. */
  function Pack(p: Path): (r: Bytes)
    requires Nibbles(p)
    ensures |r| == (|p| + 1) / 2
  {
    if p == [] then []
    else if |p| == 1 then [p[0] * 16]
    else [p[0] * 16 + p[1]] + Pack(p[2..])
  }

  function Unpack(n: nat, b: Bytes): (p: Path)
    requires |b| == (n + 1) / 2
    ensures |p| == n && Nibbles(p)
    decreases n
  {
    if n == 0 then []
    else if n == 1 then [b[0] / 16]
    else [b[0] / 16, b[0] % 16] + Unpack(n - 2, b[1..])
  }

  lemma {:induction false} UnpackInverts(p: Path)
    requires Nibbles(p)
    ensures Unpack(|p|, Pack(p)) == p
    decreases |p|
  {
    if |p| == 1 {
      NibblesOf(p[0], 0);
    } else if |p| > 1 {
      hide Unpack;
      UnpackInverts(p[2..]);
      UnpackTwo(p[0], p[1], Pack(p[2..]), |p|);
      assert p == [p[0], p[1]] + p[2..];
    }
  }

  lemma {:induction false} UnpackTwo(high: nat, low: nat, rest: Bytes, n: nat)
    requires high < 16 && low < 16 && n > 1 && |rest| == (n - 1) / 2
    ensures Unpack(n, [high * 16 + low] + rest) == [high, low] + Unpack(n - 2, rest)
  {
    NibblesOf(high, low);
    assert ([high * 16 + low] + rest)[1..] == rest;
  }

  lemma {:induction false} NibblesOf(high: nat, low: nat)
    requires high < 16 && low < 16
    ensures (high * 16 + low) / 16 == high && (high * 16 + low) % 16 == low
  {
  }

  lemma {:induction false} PackOrder(p: Path, q: Path)
    requires |p| == |q|
    requires Nibbles(p) && Nibbles(q)
    ensures Less(Pack(p), Pack(q)) <==> Less(p, q)
    ensures Pack(p) == Pack(q) <==> p == q
    decreases |p|
  {
    UnpackInverts(p);
    UnpackInverts(q);
    if |p| == 1 {
      assert p[1..] == [] && q[1..] == [];
    } else if |p| > 1 {
      PackOrder(p[2..], q[2..]);
      LessFields([p[0] * 16 + p[1]], [q[0] * 16 + q[1]], Pack(p[2..]), Pack(q[2..]));
      LessFields([p[0], p[1]], [q[0], q[1]], p[2..], q[2..]);
      assert p == [p[0], p[1]] + p[2..] && q == [q[0], q[1]] + q[2..];
    }
  }

  // ---------- generators ----------

  function GenBlockDbKey(id: nat): Bytes
    requires InWidth(id, ID_SIZE)
  {
    [BLOCK] + BigEndian(id, ID_SIZE)
  }

  function GenSTTempBlockKey(id: nat): Bytes
    requires InWidth(id, ID_SIZE)
  {
    [BFT, ST_TEMP_BLOCK] + BigEndian(id, ID_SIZE)
  }

  function GenInternalDbKey(version: nat, p: Path): Bytes
    requires InWidth(version, ID_SIZE) && IsNibblePath(p)
  {
    [KEY, INTERNAL] + (BigEndian(version, ID_SIZE) + ([|p|] + Pack(p)))
  }

  function GenDataDbKey(h: Hash, version: nat): Bytes
    requires InWidth(version, ID_SIZE)
  {
    [KEY, LEAF] + (h + BigEndian(version, ID_SIZE))
  }

  /** The stale index entry for an embedded key, or the start of the entries of a version for []. */
  function GenStaleDbKey(since: nat, embedded: Bytes): Bytes
    requires InWidth(since, ID_SIZE)
  {
    [KEY, PROVABLE_STALE] + (BigEndian(since, ID_SIZE) + embedded)
  }

  function GenNonProvableDbKey(id: nat, k: Key): Bytes
    requires InWidth(id, ID_SIZE)
  {
    [KEY, NON_PROVABLE] + (k + BigEndian(id, ID_SIZE))
  }

  function GenNonProvableStaleDbKey(embedded: Bytes, since: nat): Bytes
    requires InWidth(since, ID_SIZE)
  {
    [KEY, NON_PROVABLE_STALE] + (BigEndian(since, ID_SIZE) + embedded)
  }

  /** A key whose integers fit their fields; non-provable keys have one length. */
  predicate Fits(len: nat, y: DbKey) {
    match y
    case BlockKey(i) => InWidth(i, ID_SIZE)
    case InternalKey(w, p) => InWidth(w, ID_SIZE) && IsNibblePath(p)
    case LeafKey(_, w) => InWidth(w, ID_SIZE)
    case StaleKey(since, target) => InWidth(since, ID_SIZE) && Fits(len, target)
    case NpKey(k, i) => InWidth(i, ID_SIZE) && |k| == len
    case NpStaleKey(since, target) => InWidth(since, ID_SIZE) && Fits(len, target)
  }

  function Encode(hash: Hasher, len: nat, y: DbKey): Bytes
    requires Fits(len, y)
  {
    match y
    case BlockKey(i) => GenBlockDbKey(i)
    case InternalKey(w, p) => GenInternalDbKey(w, p)
    case LeafKey(k, w) => GenDataDbKey(hash(k), w)
    case StaleKey(since, target) => GenStaleDbKey(since, Encode(hash, len, target))
    case NpKey(k, i) => GenNonProvableDbKey(i, k)
    case NpStaleKey(since, target) => GenNonProvableStaleDbKey(Encode(hash, len, target), since)
  }

  // ---------- order ----------

  function Rank(y: DbKey): nat {
    match y
    case BlockKey(_) => 0
    case InternalKey(_, _) => 1
    case StaleKey(_, _) => 2
    case LeafKey(_, _) => 3
    case NpStaleKey(_, _) => 4
    case NpKey(_, _) => 5
  }

  /** Keys by kind, and within a kind field by field. */
  predicate KeyLess(hash: Hasher, a: DbKey, b: DbKey)
    decreases a
  {
    match a
    case BlockKey(i) => if b.BlockKey? then i < b.id else Rank(a) < Rank(b)
    case InternalKey(w, p) =>
      if b.InternalKey? then
        w < b.version || (w == b.version && (|p| < |b.path| || (|p| == |b.path| && Less(p, b.path))))
      else Rank(a) < Rank(b)
    case LeafKey(k, w) =>
      if b.LeafKey? then
        Less(hash(k), hash(b.key)) || (hash(k) == hash(b.key) && w < b.version)
      else Rank(a) < Rank(b)
    case StaleKey(since, target) =>
      if b.StaleKey? then since < b.since || (since == b.since && KeyLess(hash, target, b.target))
      else Rank(a) < Rank(b)
    case NpKey(k, i) =>
      if b.NpKey? then Less(k, b.key) || (k == b.key && i < b.id) else Rank(a) < Rank(b)
    case NpStaleKey(since, target) =>
      if b.NpStaleKey? then since < b.since || (since == b.since && KeyLess(hash, target, b.target))
      else Rank(a) < Rank(b)
  }

  /** Equal keys, or leaves of keys with one hash. */
  predicate KeySame(hash: Hasher, a: DbKey, b: DbKey)
    decreases a
  {
    match a
    case LeafKey(k, w) => b.LeafKey? && hash(k) == hash(b.key) && w == b.version
    case StaleKey(since, target) => b.StaleKey? && since == b.since && KeySame(hash, target, b.target)
    case NpStaleKey(since, target) => b.NpStaleKey? && since == b.since && KeySame(hash, target, b.target)
    case _ => a == b
  }

  /** A big-endian field followed by the rest. */
  lemma {:induction false} FieldThenRest(tag: Bytes, m: nat, n: nat, x: Bytes, y: Bytes)
    requires InWidth(m, ID_SIZE) && InWidth(n, ID_SIZE)
    ensures Less(tag + (BigEndian(m, ID_SIZE) + x), tag + (BigEndian(n, ID_SIZE) + y))
       <==> m < n || (m == n && Less(x, y))
    ensures tag + (BigEndian(m, ID_SIZE) + x) == tag + (BigEndian(n, ID_SIZE) + y) <==> m == n && x == y
  {
    var a, b := BigEndian(m, ID_SIZE), BigEndian(n, ID_SIZE);
    LessFields(tag, tag, a + x, b + y);
    LessIrreflexive(tag);
    LessFields(a, b, x, y);
    BigEndianOrder(m, n, ID_SIZE);
    SplitEqual(tag, tag, a + x, b + y);
    SplitEqual(a, b, x, y);
  }

  lemma {:induction false} SplitEqual(a: Bytes, b: Bytes, x: Bytes, y: Bytes)
    requires |a| == |b|
    ensures a + x == b + y <==> a == b && x == y
  {
    if a + x == b + y {
      assert a == (a + x)[..|a|] && b == (b + y)[..|b|];
      assert x == (a + x)[|a|..] && y == (b + y)[|b|..];
    }
  }

  /** A fixed-width part followed by a big-endian field. */
  lemma {:induction false} PartThenField(tag: Bytes, x: Bytes, y: Bytes, m: nat, n: nat)
    requires InWidth(m, ID_SIZE) && InWidth(n, ID_SIZE) && |x| == |y|
    ensures Less(tag + (x + BigEndian(m, ID_SIZE)), tag + (y + BigEndian(n, ID_SIZE)))
       <==> Less(x, y) || (x == y && m < n)
    ensures tag + (x + BigEndian(m, ID_SIZE)) == tag + (y + BigEndian(n, ID_SIZE)) <==> x == y && m == n
  {
    var a, b := BigEndian(m, ID_SIZE), BigEndian(n, ID_SIZE);
    LessFields(tag, tag, x + a, y + b);
    LessIrreflexive(tag);
    LessFields(x, y, a, b);
    BigEndianOrder(m, n, ID_SIZE);
    SplitEqual(tag, tag, x + a, y + b);
    SplitEqual(x, y, a, b);
  }

  lemma {:induction false} InternalOrder(v: nat, p: Path, w: nat, q: Path)
    requires InWidth(v, ID_SIZE) && InWidth(w, ID_SIZE) && IsNibblePath(p) && IsNibblePath(q)
    ensures Less(GenInternalDbKey(v, p), GenInternalDbKey(w, q))
       <==> v < w || (v == w && (|p| < |q| || (|p| == |q| && Less(p, q))))
    ensures GenInternalDbKey(v, p) == GenInternalDbKey(w, q) <==> v == w && p == q
  {
    FieldThenRest([KEY, INTERNAL], v, w, [|p|] + Pack(p), [|q|] + Pack(q));
    LessFields([|p|], [|q|], Pack(p), Pack(q));
    SplitEqual([|p|], [|q|], Pack(p), Pack(q));
    if |p| == |q| {
      PackOrder(p, q);
    }
  }

  lemma {:induction false} TagsDecide(a: Bytes, b: Bytes, x: Bytes, y: Bytes)
    requires |a| == |b| && Less(a, b)
    ensures Less(a + x, b + y) && !Less(b + y, a + x) && a + x != b + y
  {
    LessFields(a, b, x, y);
    LessAsymmetric(a + x, b + y);
  }

  /** Keys of different kinds are told apart by their first bytes. */
  lemma {:induction false} KindsDecide(hash: Hasher, len: nat, a: DbKey, b: DbKey)
    requires Fits(len, a) && Fits(len, b) && Rank(a) < Rank(b)
    ensures Less(Encode(hash, len, a), Encode(hash, len, b))
    ensures !Less(Encode(hash, len, b), Encode(hash, len, a))
    ensures Encode(hash, len, a) != Encode(hash, len, b)
  {
    var x, y := Encode(hash, len, a), Encode(hash, len, b);
    if a.BlockKey? {
      assert x[0] < y[0];
    } else {
      assert x[0] == y[0] == KEY && x[1] < y[1];
      assert x == x[..2] + x[2..] && y == y[..2] + y[2..];
      assert x[..2][1..] == [x[1]] && y[..2][1..] == [y[1]];
      TagsDecide(x[..2], y[..2], x[2..], y[2..]);
    }
  }

  lemma {:induction false} SameKindOrder(hash: Hasher, len: nat, a: DbKey, b: DbKey)
    requires Fits(len, a) && Fits(len, b) && Rank(a) == Rank(b)
    ensures Less(Encode(hash, len, a), Encode(hash, len, b)) <==> KeyLess(hash, a, b)
    ensures Encode(hash, len, a) == Encode(hash, len, b) <==> KeySame(hash, a, b)
    decreases a, 0
  {
    hide BigEndian, Pow256, Less, Pack;
    match a
    case BlockKey(i) =>
      PartThenField([BLOCK], [], [], i, b.id);
      LessIrreflexive([]);
      assert [] + BigEndian(i, ID_SIZE) == BigEndian(i, ID_SIZE);
      assert [] + BigEndian(b.id, ID_SIZE) == BigEndian(b.id, ID_SIZE);
    case InternalKey(w, p) =>
      InternalOrder(w, p, b.version, b.path);
    case LeafKey(k, w) =>
      PartThenField([KEY, LEAF], hash(k), hash(b.key), w, b.version);
    case StaleKey(since, target) =>
      EncodingIsOrderEmbedding(hash, len, target, b.target);
      FieldThenRest([KEY, PROVABLE_STALE], since, b.since, Encode(hash, len, target), Encode(hash, len, b.target));
    case NpKey(k, i) =>
      PartThenField([KEY, NON_PROVABLE], k, b.key, i, b.id);
    case NpStaleKey(since, target) =>
      EncodingIsOrderEmbedding(hash, len, target, b.target);
      FieldThenRest([KEY, NON_PROVABLE_STALE], since, b.since,
                    Encode(hash, len, target), Encode(hash, len, b.target));
  }

  /** The bytewise order of the keys is the order of their fields, and different keys differ. */
  lemma {:induction false} EncodingIsOrderEmbedding(hash: Hasher, len: nat, a: DbKey, b: DbKey)
    requires Fits(len, a) && Fits(len, b)
    ensures Less(Encode(hash, len, a), Encode(hash, len, b)) <==> KeyLess(hash, a, b)
    ensures Encode(hash, len, a) == Encode(hash, len, b) <==> KeySame(hash, a, b)
    decreases a, 1
  {
    if Rank(a) == Rank(b) {
      SameKindOrder(hash, len, a, b);
    } else if Rank(a) < Rank(b) {
      KindsDecide(hash, len, a, b);
    } else {
      KindsDecide(hash, len, b, a);
    }
  }

  // ---------- non-provable keys of different lengths ----------

  /** Starts with eight 255 bytes, as no block id field below it can exceed. */
  predicate StartsHigh(rest: Bytes) {
    |rest| >= ID_SIZE && forall n :: 0 <= n < ID_SIZE ==> rest[n] == 255
  }

  /** Neither key continues the other, or it continues it with eight 255 bytes. */
  predicate OrderSafe(k: Key, l: Key) {
    && (k < l ==> StartsHigh(l[|k|..]))
    && (l < k ==> StartsHigh(k[|l|..]))
  }

  predicate NonProvableOrdered(k: Key, l: Key, i: nat, j: nat)
    requires InWidth(i, ID_SIZE) && InWidth(j, ID_SIZE)
  {
    Less(GenNonProvableDbKey(i, k), GenNonProvableDbKey(j, l)) <==> Less(k, l) || (k == l && i < j)
  }

  lemma {:induction false} Diverge(k: Bytes, l: Bytes, x: Bytes, y: Bytes)
    requires !(k <= l) && !(l <= k)
    ensures Less(k + x, l + y) <==> Less(k, l)
  {
    if k[0] == l[0] {
      assert k == [k[0]] + k[1..] && l == [l[0]] + l[1..];
      assert (k + x)[1..] == k[1..] + x && (l + y)[1..] == l[1..] + y;
      Diverge(k[1..], l[1..], x, y);
    }
  }

  /** No string is above one of only 255 bytes that is as long. */
  lemma {:induction false} HighIsTop(x: Bytes, top: Bytes)
    requires |x| == |top| && forall n :: 0 <= n < |top| ==> top[n] == 255
    ensures AtMost(x, top)
  {
    if x != [] {
      HighIsTop(x[1..], top[1..]);
      assert x == [x[0]] + x[1..] && top == [top[0]] + top[1..];
    }
  }

  lemma {:induction false} PrefixIsLess(k: Bytes, l: Bytes)
    requires k < l
    ensures Less(k, l)
  {
    assert l == k + l[|k|..] && k == k + [];
    LessFields(k, k, [], l[|k|..]);
  }

  /** An id field compared with what continues a key. */
  lemma {:induction false} FieldAgainstRest(rest: Bytes, i: nat, j: nat)
    requires InWidth(i, ID_SIZE) && InWidth(j, ID_SIZE) && rest != []
    ensures StartsHigh(rest) ==> Less(BigEndian(i, ID_SIZE), rest + BigEndian(j, ID_SIZE))
    ensures var high := seq(ID_SIZE, _ => 255);
      !StartsHigh(rest) && BigEndian(i, ID_SIZE) == high && BigEndian(j, ID_SIZE) == BigEndian(0, ID_SIZE)
      ==> Less(rest + BigEndian(j, ID_SIZE), BigEndian(i, ID_SIZE))
  {
    var a, b := BigEndian(i, ID_SIZE), rest + BigEndian(j, ID_SIZE);
    var high: Bytes := seq(ID_SIZE, _ => 255);
    var x, y := b[..ID_SIZE], b[ID_SIZE..];
    assert b == x + y && a == a + [] && y != [];
    if StartsHigh(rest) {
      assert x == high;
      HighIsTop(a, high);
      LessFields(a, x, [], y);
    } else if a == high && BigEndian(j, ID_SIZE) == BigEndian(0, ID_SIZE) {
      ZeroBytes(ID_SIZE);
      if |rest| < ID_SIZE {
        assert x[|rest|] == BigEndian(0, ID_SIZE)[0] == 0;
      } else {
        assert x == rest[..ID_SIZE];
      }
      assert x != high;
      HighIsTop(x, high);
      LessFields(x, a, y, []);
    }
  }

  lemma {:induction false} ZeroBytes(w: nat)
    requires w > 0
    ensures BigEndian(0, w)[0] == 0
  {
    if w > 1 {
      ZeroBytes(w - 1);
      assert BigEndian(0, w) == BigEndian(0, w - 1) + [0];
    }
  }

  lemma {:induction false} SafePairOrdered(k: Key, l: Key, i: nat, j: nat)
    requires OrderSafe(k, l) && InWidth(i, ID_SIZE) && InWidth(j, ID_SIZE)
    ensures NonProvableOrdered(k, l, i, j)
  {
    hide BigEndian, Pow256;
    var a, b := BigEndian(i, ID_SIZE), BigEndian(j, ID_SIZE);
    var tag := [KEY, NON_PROVABLE];
    LessFields(tag, tag, k + a, l + b);
    LessIrreflexive(tag);
    if k == l {
      PartThenField(tag, k, l, i, j);
    } else if k <= l {
      var rest := l[|k|..];
      assert l + b == k + (rest + b);
      LessFields(k, k, a, rest + b);
      FieldAgainstRest(rest, i, j);
      PrefixIsLess(k, l);
    } else if l <= k {
      var rest := k[|l|..];
      assert k + a == l + (rest + a);
      LessFields(l, l, rest + a, b);
      FieldAgainstRest(rest, j, i);
      LessAsymmetric(b, rest + a);
      PrefixIsLess(l, k);
      LessAsymmetric(l, k);
      LessIrreflexive(l);
    } else {
      Diverge(k, l, a, b);
    }
  }

  /** The greatest block id, all of whose bytes are 255. */
  lemma {:induction false} MaxId(w: nat)
    ensures InWidth(Pow256(w) - 1, w)
    ensures BigEndian(Pow256(w) - 1, w) == seq(w, _ => 255)
  {
    if w > 0 {
      MaxId(w - 1);
      assert (Pow256(w) - 1) / 256 == Pow256(w - 1) - 1 && (Pow256(w) - 1) % 256 == 255;
    }
  }

  lemma {:induction false} UnsafePairMisordered(k: Key, l: Key)
    requires k < l && !StartsHigh(l[|k|..])
    ensures InWidth(Pow256(ID_SIZE) - 1, ID_SIZE)
    ensures !NonProvableOrdered(k, l, Pow256(ID_SIZE) - 1, 0)
    ensures !NonProvableOrdered(l, k, 0, Pow256(ID_SIZE) - 1)
  {
    hide BigEndian;
    var i := Pow256(ID_SIZE) - 1;
    MaxId(ID_SIZE);
    var a, b, rest := BigEndian(i, ID_SIZE), BigEndian(0, ID_SIZE), l[|k|..];
    var tag := [KEY, NON_PROVABLE];
    FieldAgainstRest(rest, i, 0);
    LessAsymmetric(rest + b, a);
    assert l + b == k + (rest + b);
    LessFields(tag, tag, k + a, l + b);
    LessFields(tag, tag, l + b, k + a);
    LessIrreflexive(tag);
    LessFields(k, k, a, rest + b);
    LessFields(k, k, rest + b, a);
    LessIrreflexive(k);
    PrefixIsLess(k, l);
    LessAsymmetric(k, l);
  }

  /**
   * Non-provable keys are ordered by key and then by block for all block ids exactly when
   * neither key continues the other (except with eight 255 bytes). Keys of one length
   * always meet this; that is why the adapter insists on one length.
   */
  lemma {:induction false} NonProvableOrderExact(k: Key, l: Key)
    ensures OrderSafe(k, l) <==>
      forall i: nat, j: nat :: InWidth(i, ID_SIZE) && InWidth(j, ID_SIZE) ==> NonProvableOrdered(k, l, i, j)
    ensures |k| == |l| ==> OrderSafe(k, l)
  {
    if OrderSafe(k, l) {
      forall i: nat, j: nat | InWidth(i, ID_SIZE) && InWidth(j, ID_SIZE)
        ensures NonProvableOrdered(k, l, i, j)
      {
        SafePairOrdered(k, l, i, j);
      }
    } else if k < l {
      UnsafePairMisordered(k, l);
      assert InWidth(0, ID_SIZE);
    } else {
      UnsafePairMisordered(l, k);
      assert InWidth(0, ID_SIZE);
    }
  }

  // ---------- reading keys ----------

  /** getDBKeyType; an unknown type aborts. */
  function DbKeyType(s: Bytes): Result<Byte> {
    if s == [] || s[0] > MIGRATION then Err(Aborted) else Ok(s[0])
  }

  /** getKeySubtype. */
  function KeySubtype(s: Bytes): Result<Byte> {
    if |s| <= 1 || s[1] > NON_PROVABLE then Err(Aborted) else Ok(s[1])
  }

  /** getBftSubtype. */
  function BftSubtype(s: Bytes): Result<Byte> {
    if |s| <= 1 || s[1] > 6 then Err(Aborted) else Ok(s[1])
  }

  predicate HasSubtype(s: Bytes, subtype: Byte) {
    DbKeyType(s) == Ok(KEY) && KeySubtype(s) == Ok(subtype)
  }

  function ExtractBlockIdFromKey(s: Bytes): Result<nat> {
    if |s| <= ID_SIZE then Err(Aborted) else Ok(FromBigEndian(s[|s| - ID_SIZE..]))
  }

  function ExtractBlockIdFromNonProvableKey(s: Bytes): Result<nat> {
    if |s| < 2 + ID_SIZE || !HasSubtype(s, NON_PROVABLE) then Err(Aborted)
    else Ok(FromBigEndian(s[|s| - ID_SIZE..]))
  }

  function ExtractKeyFromNonProvableKey(s: Bytes): Result<Key> {
    if |s| < 2 + ID_SIZE || !HasSubtype(s, NON_PROVABLE) then Err(Aborted)
    else Ok(s[2..|s| - ID_SIZE])
  }

  function ExtractHashFromLeafKey(s: Bytes): Result<Hash> {
    if |s| <= 2 + 32 || !HasSubtype(s, LEAF) then Err(Aborted) else Ok(s[2..34])
  }

  function ExtractVersionFromProvableStaleKey(s: Bytes): Result<nat> {
    if |s| < 2 + ID_SIZE || !HasSubtype(s, PROVABLE_STALE) then Err(Aborted)
    else Ok(FromBigEndian(s[2..2 + ID_SIZE]))
  }

  function ExtractBlockIdFromNonProvableStaleKey(s: Bytes): Result<nat> {
    if |s| < 2 + ID_SIZE || !HasSubtype(s, NON_PROVABLE_STALE) then Err(Aborted)
    else Ok(FromBigEndian(s[2..2 + ID_SIZE]))
  }

  function ExtractKeyFromProvableStaleKey(s: Bytes): Result<Bytes> {
    if |s| <= 2 + ID_SIZE || !HasSubtype(s, PROVABLE_STALE) then Err(Aborted) else Ok(s[2 + ID_SIZE..])
  }

  function ExtractKeyFromNonProvableStaleKey(s: Bytes): Result<Bytes> {
    if |s| <= 2 + ID_SIZE || !HasSubtype(s, NON_PROVABLE_STALE) then Err(Aborted) else Ok(s[2 + ID_SIZE..])
  }

  /** deserialize of an internal node key: the version, the number of nibbles and the packed nibbles. */
  function DecodeInternalNodeKey(b: Bytes): Result<(nat, Path)> {
    if |b| < ID_SIZE + 1 then Err(Aborted)
    else
      var n := b[ID_SIZE];
      var packed := b[ID_SIZE + 1..];
      if n > MAX_PATH || |packed| != (n + 1) / 2 then Err(Aborted)
      else Ok((FromBigEndian(b[..ID_SIZE]), Unpack(n, packed)))
  }

  function ExtractVersionFromInternalKey(s: Bytes): Result<nat> {
    if |s| <= 2 then Err(Aborted)
    else
      var key :- DecodeInternalNodeKey(s[2..]);
      Ok(key.0)
  }

  /** The fields of a key come back out of its bytes. */
  predicate Extracts(hash: Hasher, len: nat, y: DbKey)
    requires Fits(len, y)
  {
    var s := Encode(hash, len, y);
    match y
    case BlockKey(i) => DbKeyType(s) == Ok(BLOCK) && ExtractBlockIdFromKey(s) == Ok(i)
    case InternalKey(w, p) =>
      HasSubtype(s, INTERNAL) && ExtractVersionFromInternalKey(s) == Ok(w) && DecodeInternalNodeKey(s[2..]) == Ok((w, p))
    case LeafKey(k, w) =>
      HasSubtype(s, LEAF) && ExtractHashFromLeafKey(s) == Ok(hash(k)) && FromBigEndian(s[34..]) == w
    case StaleKey(since, target) =>
      && HasSubtype(s, PROVABLE_STALE) && ExtractVersionFromProvableStaleKey(s) == Ok(since)
      && ExtractKeyFromProvableStaleKey(s) == Ok(Encode(hash, len, target))
    case NpKey(k, i) =>
      && HasSubtype(s, NON_PROVABLE) && ExtractBlockIdFromNonProvableKey(s) == Ok(i)
      && ExtractKeyFromNonProvableKey(s) == Ok(k)
    case NpStaleKey(since, target) =>
      && HasSubtype(s, NON_PROVABLE_STALE) && ExtractBlockIdFromNonProvableStaleKey(s) == Ok(since)
      && ExtractKeyFromNonProvableStaleKey(s) == Ok(Encode(hash, len, target))
  }

  lemma {:induction false} Parts(tag: Bytes, a: Bytes, b: Bytes)
    ensures var s := tag + (a + b);
      && |s| == |tag| + |a| + |b|
      && s[..|tag|] == tag && s[|tag|..] == a + b
      && s[|tag|..|tag| + |a|] == a && s[|tag| + |a|..] == b
      && s[|tag|..|s| - |b|] == a && s[|s| - |b|..] == b
  {
  }

  lemma {:induction false} DecodesInternal(w: nat, p: Path)
    requires InWidth(w, ID_SIZE) && IsNibblePath(p)
    ensures DecodeInternalNodeKey(BigEndian(w, ID_SIZE) + ([|p|] + Pack(p))) == Ok((w, p))
  {
    hide BigEndian, FromBigEndian, Pow256, Pack, Unpack;
    BigEndianRoundTrip(w, ID_SIZE);
    UnpackInverts(p);
    var b := BigEndian(w, ID_SIZE) + ([|p|] + Pack(p));
    assert b[..ID_SIZE] == BigEndian(w, ID_SIZE) && b[ID_SIZE] == |p| && b[ID_SIZE + 1..] == Pack(p);
  }

  lemma {:induction false} ExtractsInternal(hash: Hasher, len: nat, w: nat, p: Path)
    requires Fits(len, InternalKey(w, p))
    ensures Extracts(hash, len, InternalKey(w, p))
  {
    hide BigEndian, FromBigEndian, Pow256, Pack, Unpack, DecodeInternalNodeKey;
    DecodesInternal(w, p);
    Parts([KEY, INTERNAL], BigEndian(w, ID_SIZE), [|p|] + Pack(p));
  }

  lemma {:induction false} ExtractsLeaf(hash: Hasher, len: nat, k: Key, w: nat)
    requires Fits(len, LeafKey(k, w))
    ensures Extracts(hash, len, LeafKey(k, w))
  {
    BigEndianRoundTrip(w, ID_SIZE);
    Parts([KEY, LEAF], hash(k), BigEndian(w, ID_SIZE));
  }

  lemma {:induction false} ExtractsNp(hash: Hasher, len: nat, k: Key, i: nat)
    requires Fits(len, NpKey(k, i))
    ensures Extracts(hash, len, NpKey(k, i))
  {
    BigEndianRoundTrip(i, ID_SIZE);
    Parts([KEY, NON_PROVABLE], k, BigEndian(i, ID_SIZE));
  }

  lemma {:induction false} ExtractsStale(hash: Hasher, len: nat, y: DbKey)
    requires Fits(len, y) && (y.StaleKey? || y.NpStaleKey?)
    ensures Extracts(hash, len, y)
  {
    BigEndianRoundTrip(y.since, ID_SIZE);
    EncodedNonempty(hash, len, y.target);
    var tag := [KEY, if y.StaleKey? then PROVABLE_STALE else NON_PROVABLE_STALE];
    Parts(tag, BigEndian(y.since, ID_SIZE), Encode(hash, len, y.target));
  }

  lemma {:induction false} ExtractsBlock(hash: Hasher, len: nat, i: nat)
    requires Fits(len, BlockKey(i))
    ensures Extracts(hash, len, BlockKey(i))
  {
    BigEndianRoundTrip(i, ID_SIZE);
    var s := Encode(hash, len, BlockKey(i));
    assert s[|s| - ID_SIZE..] == BigEndian(i, ID_SIZE);
  }

  /** Each extractor undoes its generator. */
  lemma {:induction false} ExtractorsInvert(hash: Hasher, len: nat, y: DbKey)
    requires Fits(len, y)
    ensures Extracts(hash, len, y)
  {
    hide Extracts;
    match y
    case BlockKey(i) => ExtractsBlock(hash, len, i);
    case InternalKey(w, p) => ExtractsInternal(hash, len, w, p);
    case LeafKey(k, w) => ExtractsLeaf(hash, len, k, w);
    case NpKey(k, i) => ExtractsNp(hash, len, k, i);
    case _ => ExtractsStale(hash, len, y);
  }

  lemma {:induction false} EncodedNonempty(hash: Hasher, len: nat, y: DbKey)
    requires Fits(len, y)
    ensures |Encode(hash, len, y)| > ID_SIZE
  {
  }
}
