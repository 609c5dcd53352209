/** The composite keys of the direct key-value adapter and the order its comparator puts them in. */
module DirectKeys {
  import opened Common
  import opened ByteOrder

  // Key types; the first byte of a key.
  const BLOCK: Byte := 65
  const DATA: Byte := 66
  const METADATA: Byte := 67
  const ST: Byte := 68
  const ST_PENDING_PAGE: Byte := 69
  const ST_RESERVED_PAGE: Byte := 70
  const ST_CHECKPOINT: Byte := 71

  datatype DirectKey =
    | BlockKey(id: nat)
    | DataKey(key: Bytes, id: nat)
    | MetadataKey(objectId: nat)
    | StKey(objectId: nat)
    | PendingPageKey(objectId: nat)
    | ReservedPageKey(page: nat, checkpoint: nat)
    | CheckpointKey(checkpoint: nat)
  {
    predicate Valid() {
      match this
      case BlockKey(i) => InWidth(i, 8)
      case DataKey(_, i) => InWidth(i, 8)
      case MetadataKey(o) => InWidth(o, 4)
      case StKey(o) => InWidth(o, 4)
      case PendingPageKey(o) => InWidth(o, 4)
      case ReservedPageKey(p, c) => InWidth(p, 4) && InWidth(c, 8)
      case CheckpointKey(c) => InWidth(c, 8)
    }
  }

  // ---------- integers in the byte order of the host, low byte first ----------

  function LittleEndian(n: nat, w: nat): (r: Bytes)
    requires InWidth(n, w)
    ensures |r| == w
  {
    if w == 0 then [] else [n % 256] + LittleEndian(n / 256, w - 1)
  }

  function FromLittleEndian(b: Bytes): (n: nat)
    ensures InWidth(n, |b|)
  {
    if b == [] then 0
    else
      var low: int := b[0];
      low + 256 * FromLittleEndian(b[1..])
  }

  lemma {:induction false} LittleEndianRoundTrip(n: nat, w: nat)
    requires InWidth(n, w)
    ensures FromLittleEndian(LittleEndian(n, w)) == n
  {
    if w > 0 {
      LittleEndianRoundTrip(n / 256, w - 1);
      assert LittleEndian(n, w)[1..] == LittleEndian(n / 256, w - 1);
    }
  }

  // ---------- keys ----------

  function TypeOf(k: DirectKey): Byte {
    match k
    case BlockKey(_) => BLOCK
    case DataKey(_, _) => DATA
    case MetadataKey(_) => METADATA
    case StKey(_) => ST
    case PendingPageKey(_) => ST_PENDING_PAGE
    case ReservedPageKey(_, _) => ST_RESERVED_PAGE
    case CheckpointKey(_) => ST_CHECKPOINT
  }

  /** genDbKey and the generators of metadata and state transfer keys. */
  function GenDbKey(k: DirectKey): (r: Bytes)
    requires k.Valid()
  {
    [TypeOf(k)] +
    match k
    case BlockKey(i) => [] + LittleEndian(i, 8)
    case DataKey(key, i) => key + LittleEndian(i, 8)
    case MetadataKey(o) => LittleEndian(o, 4)
    case StKey(o) => LittleEndian(o, 4)
    case PendingPageKey(o) => LittleEndian(o, 4)
    case ReservedPageKey(p, c) => LittleEndian(p, 4) + LittleEndian(c, 8)
    case CheckpointKey(c) => LittleEndian(c, 8)
  }

  function ExtractType(b: Bytes): Result<Byte> {
    if b == [] || b[0] < BLOCK || b[0] > ST_CHECKPOINT then Err(Aborted) else Ok(b[0])
  }

  function ExtractBlockId(b: Bytes): Result<nat> {
    if |b| < 8 then Err(Aborted) else Ok(FromLittleEndian(b[|b| - 8..]))
  }

  function ExtractObjectId(b: Bytes): Result<nat> {
    if |b| < 4 then Err(Aborted) else Ok(FromLittleEndian(b[|b| - 4..]))
  }

  function ExtractCheckpoint(b: Bytes): Result<nat> {
    if |b| < 9 then Err(Aborted) else Ok(FromLittleEndian(b[1..9]))
  }

  function ExtractPageAndCheckpoint(b: Bytes): Result<(nat, nat)> {
    if |b| < 13 then Err(Aborted) else Ok((FromLittleEndian(b[1..5]), FromLittleEndian(b[5..13])))
  }

  // ---------- the comparator ----------

  function CompareInts(a: nat, b: nat): int {
    if a > b then 1 else if b > a then -1 else 0
  }

  /** memcmp of buffers of one length; only the sign of its result matters. */
  function MemCmp(a: Bytes, b: Bytes): int
    requires |a| == |b|
  {
    if Less(a, b) then -1 else if a == b then 0 else 1
  }

  /** compareKeyPartOfComposedKey. */
  function CompareKeyPart(a: Bytes, b: Bytes): Result<int> {
    if |a| < 9 || |b| < 9 then Err(Aborted)
    else
      var x, y := a[1..|a| - 8], b[1..|b| - 8];
      var n := if |x| < |y| then |x| else |y|;
      var r := MemCmp(x[..n], y[..n]);
      if |x| == |y| then Ok(r)
      else if r == 0 then Ok(if |x| < |y| then -1 else 1)
      else Ok(r)
  }

  /** composedKeyComparison: negative, zero or positive as a is before, equal to or after b. */
  function Compare(a: Bytes, b: Bytes): Result<int> {
    var s :- ExtractType(a);
    var t :- ExtractType(b);
    if s != t then
      var x: int, y: int := s, t;
      Ok(x - y)
    else if s == ST || s == ST_PENDING_PAGE || s == METADATA then
      var x :- ExtractObjectId(a);
      var y :- ExtractObjectId(b);
      Ok(CompareInts(x, y))
    else if s == ST_CHECKPOINT then
      var x :- ExtractCheckpoint(a);
      var y :- ExtractCheckpoint(b);
      Ok(CompareInts(x, y))
    else if s == ST_RESERVED_PAGE then
      var x :- ExtractPageAndCheckpoint(a);
      var y :- ExtractPageAndCheckpoint(b);
      if x.0 != y.0 then Ok(CompareInts(x.0, y.0)) else Ok(CompareInts(x.1, y.1))
    else if s == DATA then
      var keys :- CompareKeyPart(a, b);
      if keys != 0 then Ok(keys)
      else
        var x :- ExtractBlockId(a);
        var y :- ExtractBlockId(b);
        Ok(CompareInts(y, x))
    else
      var x :- ExtractBlockId(a);
      var y :- ExtractBlockId(b);
      Ok(CompareInts(x, y))
  }

  /** By type; data keys by key and then from the newest block to the oldest, all others ascending. */
  predicate Before(a: DirectKey, b: DirectKey) {
    if TypeOf(a) != TypeOf(b) then TypeOf(a) < TypeOf(b)
    else match a
      case BlockKey(i) => i < b.id
      case DataKey(k, i) => Less(k, b.key) || (k == b.key && i > b.id)
      case MetadataKey(o) => o < b.objectId
      case StKey(o) => o < b.objectId
      case PendingPageKey(o) => o < b.objectId
      case ReservedPageKey(p, c) => p < b.page || (p == b.page && c < b.checkpoint)
      case CheckpointKey(c) => c < b.checkpoint
  }

  lemma {:induction false} BeforeIsStrictOrder(a: DirectKey, b: DirectKey, c: DirectKey)
    ensures !Before(a, a)
    ensures Before(a, b) && Before(b, c) ==> Before(a, c)
    ensures a == b || Before(a, b) || Before(b, a)
    ensures Before(a, b) ==> !Before(b, a)
  {
    if a.DataKey? {
      LessIrreflexive(a.key);
      if b.DataKey? {
        LessTotal(a.key, b.key);
        if Less(a.key, b.key) {
          LessAsymmetric(a.key, b.key);
        }
        if c.DataKey? && Less(a.key, b.key) && Less(b.key, c.key) {
          LessTransitive(a.key, b.key, c.key);
        }
      }
    }
  }

  /** Cutting both keys to the shorter length, then comparing lengths, is the lexicographic order. */
  lemma {:induction false} CutCompare(x: Bytes, y: Bytes)
    ensures var n := if |x| < |y| then |x| else |y|;
      var r := MemCmp(x[..n], y[..n]);
      && (Less(x, y) <==> r < 0 || (r == 0 && |x| < |y|))
      && (x == y <==> r == 0 && |x| == |y|)
  {
    var n := if |x| < |y| then |x| else |y|;
    assert x == x[..n] + x[n..] && y == y[..n] + y[n..];
    LessFields(x[..n], y[..n], x[n..], y[n..]);
    LessIrreflexive(x[..n]);
  }

  lemma {:induction false} KeyPartOrder(k: Bytes, i: nat, l: Bytes, j: nat)
    requires DataKey(k, i).Valid() && DataKey(l, j).Valid()
    ensures var r := CompareKeyPart(GenDbKey(DataKey(k, i)), GenDbKey(DataKey(l, j)));
      r.Ok? && (r.value < 0 <==> Less(k, l)) && (r.value == 0 <==> k == l)
  {
    hide LittleEndian, Pow256, Less;
    var a, b := GenDbKey(DataKey(k, i)), GenDbKey(DataKey(l, j));
    Assoc([DATA], k, LittleEndian(i, 8));
    Middle([DATA], k, LittleEndian(i, 8));
    Assoc([DATA], l, LittleEndian(j, 8));
    Middle([DATA], l, LittleEndian(j, 8));
    assert a[1..|a| - 8] == k && b[1..|b| - 8] == l;
    CutCompare(k, l);
  }

  lemma {:induction false} Tail(tag: Byte, x: Bytes, n: nat, w: nat)
    requires InWidth(n, w)
    ensures var b := [tag] + (x + LittleEndian(n, w));
      |b| == 1 + |x| + w && b[|b| - w..] == LittleEndian(n, w) && FromLittleEndian(b[|b| - w..]) == n
  {
    hide LittleEndian, FromLittleEndian;
    LittleEndianRoundTrip(n, w);
    var b := [tag] + (x + LittleEndian(n, w));
    assert b[|b| - w..] == LittleEndian(n, w);
  }

  /** The fields of a key as the comparator reads them. */
  lemma {:induction false} Fields(k: DirectKey)
    requires k.Valid()
    ensures var b := GenDbKey(k);
      && ExtractType(b) == Ok(TypeOf(k))
      && (k.BlockKey? || k.DataKey? ==> ExtractBlockId(b) == Ok(k.id))
      && (k.MetadataKey? || k.StKey? || k.PendingPageKey? ==> ExtractObjectId(b) == Ok(k.objectId))
      && (k.ReservedPageKey? ==> ExtractPageAndCheckpoint(b) == Ok((k.page, k.checkpoint)))
      && (k.CheckpointKey? ==> ExtractCheckpoint(b) == Ok(k.checkpoint))
  {
    hide LittleEndian, FromLittleEndian, Pow256;
    var b := GenDbKey(k);
    match k
    case BlockKey(i) => Tail(BLOCK, [], i, 8);
    case DataKey(key, i) => Tail(DATA, key, i, 8);
    case ReservedPageKey(p, c) =>
      LittleEndianRoundTrip(p, 4);
      LittleEndianRoundTrip(c, 8);
      assert b[1..5] == LittleEndian(p, 4) && b[5..13] == LittleEndian(c, 8);
    case CheckpointKey(c) =>
      LittleEndianRoundTrip(c, 8);
      assert b[1..9] == LittleEndian(c, 8);
    case _ =>
      Tail(TypeOf(k), [], k.objectId, 4);
      assert [] + LittleEndian(k.objectId, 4) == LittleEndian(k.objectId, 4);
  }

  /** On well-formed keys the comparator is the strict total order Before, and zero only on equal keys. */
  lemma {:induction false} ComparatorIsTotalOrder(a: DirectKey, b: DirectKey)
    requires a.Valid() && b.Valid()
    ensures var r := Compare(GenDbKey(a), GenDbKey(b));
      r.Ok? && (r.value < 0 <==> Before(a, b)) && (r.value > 0 <==> Before(b, a)) && (r.value == 0 <==> a == b)
  {
    hide GenDbKey, ExtractType, ExtractBlockId, ExtractObjectId, ExtractPageAndCheckpoint, ExtractCheckpoint,
         CompareKeyPart, Less, Pow256;
    Fields(a);
    Fields(b);
    if a.DataKey? && b.DataKey? {
      KeyPartOrder(a.key, a.id, b.key, b.id);
      LessTotal(a.key, b.key);
      LessIrreflexive(a.key);
      if Less(a.key, b.key) {
        LessAsymmetric(a.key, b.key);
      }
    }
  }

  /** Longer strings with a block key's type and id are not well-formed, and compare as equal to it. */
  lemma {:induction false} IllFormedKeysCollapse(i: nat, junk: Bytes)
    requires BlockKey(i).Valid() && junk != []
    ensures var a, b := GenDbKey(BlockKey(i)), [BLOCK] + (junk + LittleEndian(i, 8));
      a != b && Compare(a, b) == Ok(0)
  {
    hide LittleEndian, FromLittleEndian, Pow256;
    Tail(BLOCK, [], i, 8);
    Tail(BLOCK, junk, i, 8);
  }
}
