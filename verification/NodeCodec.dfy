/** The serialized form of a batched internal node of the Merkle tree. */
module NodeCodec {
  import opened Common
  import opened ByteOrder
  import opened KeyCodec

  const MAX_CHILDREN: nat := 31
  const MASK_SIZE: nat := 4
  const INTERNAL_CHILD: Byte := 0
  const LEAF_CHILD: Byte := 1
  const LEAF_CHILD_SIZE: nat := 72
  const INTERNAL_CHILD_SIZE: nat := 40

  datatype Child =
    | LeafChild(hash: Hash, keyHash: Hash, keyVersion: nat)
    | InternalChild(hash: Hash, version: nat)
  {
    predicate Valid() {
      match this
      case LeafChild(_, _, v) => InWidth(v, ID_SIZE)
      case InternalChild(_, v) => InWidth(v, ID_SIZE)
    }
  }

  type Children = seq<Option<Child>>

  predicate ValidNode(node: Children) {
    |node| == MAX_CHILDREN && forall i :: 0 <= i < |node| && node[i].Some? ==> node[i].value.Valid()
  }

  // ---------- the mask ----------

  function Pow2(i: nat): (r: nat)
    ensures r > 0
  {
    if i == 0 then 1 else 2 * Pow2(i - 1)
  }

  /** mask & (1 << i) */
  predicate Bit(mask: nat, i: nat) {
    (mask / Pow2(i)) % 2 == 1
  }

  /** The bits of the first n slots that are set. */
  function Mask(node: Children, n: nat): (m: nat)
    requires n <= |node|
    ensures m < Pow2(n)
  {
    if n == 0 then 0 else Mask(node, n - 1) + if node[n - 1].Some? then Pow2(n - 1) else 0
  }

  lemma {:induction false} Pow2Splits(i: nat, n: nat)
    requires i < n
    ensures exists c: nat :: Pow2(n) == Pow2(i) * (2 * c)
  {
    if i + 1 == n {
      assert Pow2(n) == Pow2(i) * (2 * 1);
    } else {
      Pow2Splits(i, n - 1);
      var c: nat :| Pow2(n - 1) == Pow2(i) * (2 * c);
      assert Pow2(n) == Pow2(i) * (2 * (2 * c));
    }
  }

  lemma {:induction false} AddEven(m: nat, p: nat, c: nat)
    requires p > 0
    ensures ((m + p * (2 * c)) / p) % 2 == (m / p) % 2
  {
    var q, r := m / p, m % p;
    assert m == q * p + r;
    assert m + p * (2 * c) == (q + 2 * c) * p + r;
    DivUnique(m + p * (2 * c), p, q + 2 * c, r);
  }

  lemma {:induction false} DivUnique(x: nat, p: nat, q: nat, r: nat)
    requires p > 0 && x == q * p + r && r < p
    ensures x / p == q
  {
    var d := x / p - q;
    assert x == (x / p) * p + x % p;
    assert d * p == r - x % p;
    if d >= 1 {
      MulAtLeast(d, p);
      assert false;
    } else if d <= -1 {
      MulAtLeast(-d, p);
      assert false;
    }
  }

  lemma {:induction false} MulAtLeast(d: int, p: int)
    requires d >= 1 && p > 0
    ensures d * p >= p && -d * p == -(d * p)
  {
    assert (d - 1) * p >= 0;
  }

  /** Bit i of the mask is set exactly when slot i holds a child. */
  lemma {:induction false} MaskBits(node: Children, n: nat, i: nat)
    requires i < n <= |node|
    ensures Bit(Mask(node, n), i) <==> node[i].Some?
  {
    hide Pow2;
    var low := Mask(node, n - 1);
    if i == n - 1 {
      if node[i].Some? {
        DivUnique(low + Pow2(i), Pow2(i), 1, low);
      } else {
        DivUnique(low, Pow2(i), 0, low);
      }
    } else {
      MaskBits(node, n - 1, i);
      Pow2Splits(i, n - 1);
      var c: nat :| Pow2(n - 1) == Pow2(i) * (2 * c);
      AddEven(low, Pow2(i), c);
    }
  }

  lemma {:induction false} MaskZero(node: Children, n: nat)
    requires n <= |node|
    ensures Mask(node, n) == 0 <==> forall i :: 0 <= i < n ==> node[i].None?
  {
    if n > 0 {
      MaskZero(node, n - 1);
    }
  }

  // ---------- children ----------

  function EncodeChild(child: Child): (r: Bytes)
    requires child.Valid()
  {
    match child
    case LeafChild(h, keyHash, v) => [LEAF_CHILD] + (h + (keyHash + BigEndian(v, ID_SIZE)))
    case InternalChild(h, v) => [INTERNAL_CHILD] + (h + BigEndian(v, ID_SIZE))
  }

  /** One child from the front of a buffer, and what follows it. */
  function DecodeChild(buf: Bytes): Result<(Child, Bytes)> {
    if buf == [] || buf[0] > LEAF_CHILD then Err(Aborted)
    else
      var rest := buf[1..];
      if buf[0] == LEAF_CHILD then
        if |rest| < LEAF_CHILD_SIZE then Err(Aborted)
        else Ok((LeafChild(rest[..32], rest[32..64], FromBigEndian(rest[64..72])), rest[LEAF_CHILD_SIZE..]))
      else
        if |rest| < INTERNAL_CHILD_SIZE then Err(Aborted)
        else Ok((InternalChild(rest[..32], FromBigEndian(rest[32..40])), rest[INTERNAL_CHILD_SIZE..]))
  }

  lemma {:induction false} Slices(a: Bytes, b: Bytes, c: Bytes, tail: Bytes)
    ensures var s := a + (b + c) + tail;
      && |s| == |a| + |b| + |c| + |tail|
      && s[..|a|] == a && s[|a|..|a| + |b|] == b
      && s[|a| + |b|..|a| + |b| + |c|] == c && s[|a| + |b| + |c|..] == tail
  {
  }

  lemma {:induction false} DecodeChildInverts(child: Child, tail: Bytes)
    requires child.Valid()
    ensures DecodeChild(EncodeChild(child) + tail) == Ok((child, tail))
  {
    hide BigEndian, FromBigEndian, Pow256;
    match child
    case LeafChild(h, keyHash, v) =>
      BigEndianRoundTrip(v, ID_SIZE);
      Slices(h, keyHash, BigEndian(v, ID_SIZE), tail);
      assert (EncodeChild(child) + tail)[1..] == h + (keyHash + BigEndian(v, ID_SIZE)) + tail;
    case InternalChild(h, v) =>
      BigEndianRoundTrip(v, ID_SIZE);
      Slices(h, BigEndian(v, ID_SIZE), [], tail);
      assert (EncodeChild(child) + tail)[1..] == h + (BigEndian(v, ID_SIZE) + []) + tail;
  }

  /** The children of the slots from i on. */
  function EncodeFrom(node: Children, i: nat): Bytes
    requires ValidNode(node) && i <= |node|
    decreases |node| - i
  {
    if i == |node| then []
    else (if node[i].Some? then EncodeChild(node[i].value) else []) + EncodeFrom(node, i + 1)
  }

  /** The children of the first n slots. */
  function EncodeUpTo(node: Children, n: nat): Bytes
    requires ValidNode(node) && n <= |node|
  {
    if n == 0 then []
    else EncodeUpTo(node, n - 1) + (if node[n - 1].Some? then EncodeChild(node[n - 1].value) else [])
  }

  lemma {:induction false} FrontAndBack(node: Children, n: nat)
    requires ValidNode(node) && n <= |node|
    ensures EncodeUpTo(node, n) + EncodeFrom(node, n) == EncodeFrom(node, 0)
  {
    hide EncodeChild;
    if n > 0 {
      FrontAndBack(node, n - 1);
      var child: Bytes := if node[n - 1].Some? then EncodeChild(node[n - 1].value) else [];
      Assoc(EncodeUpTo(node, n - 1), child, EncodeFrom(node, n));
    }
  }

  // ---------- nodes ----------

  lemma {:induction false} Pow2IsPow256(w: nat)
    ensures Pow2(8 * w) == Pow256(w)
  {
    if w > 0 {
      Pow2IsPow256(w - 1);
      var n := 8 * w;
      assert Pow2(n) == 4 * Pow2(n - 2) && Pow2(n - 2) == 4 * Pow2(n - 4);
      assert Pow2(n - 4) == 4 * Pow2(n - 6) && Pow2(n - 6) == 4 * Pow2(n - 8);
    }
  }

  lemma {:induction false} MaskFits(node: Children)
    requires |node| == MAX_CHILDREN
    ensures InWidth(Mask(node, MAX_CHILDREN), MASK_SIZE)
  {
    Pow2IsPow256(MASK_SIZE);
    assert Pow2(32) == 2 * Pow2(31);
  }

  /** The mask and the children in slot order; a node without children is the empty string. */
  function EncodeNode(node: Children): Bytes
    requires ValidNode(node)
  {
    MaskFits(node);
    if Mask(node, MAX_CHILDREN) == 0 then []
    else BigEndian(Mask(node, MAX_CHILDREN), MASK_SIZE) + EncodeFrom(node, 0)
  }

  /** The slots from i on as the mask and the buffer tell, and what is left of the buffer. */
  function DecodeFrom(mask: nat, i: nat, buf: Bytes): Result<(Children, Bytes)>
    requires i <= MAX_CHILDREN
    decreases MAX_CHILDREN - i
  {
    if i == MAX_CHILDREN then Ok(([], buf))
    else if Bit(mask, i) then
      var child :- DecodeChild(buf);
      var others :- DecodeFrom(mask, i + 1, child.1);
      Ok(([Some(child.0)] + others.0, others.1))
    else
      var others :- DecodeFrom(mask, i + 1, buf);
      Ok(([None] + others.0, others.1))
  }

  function DecodeNode(buf: Bytes): Result<Children> {
    if buf == [] then Ok(seq(MAX_CHILDREN, _ => None))
    else if |buf| < MASK_SIZE then Err(Aborted)
    else
      var r :- DecodeFrom(FromBigEndian(buf[..MASK_SIZE]), 0, buf[MASK_SIZE..]);
      Ok(r.0)
  }

  lemma {:induction false} DecodeFromInverts(node: Children, i: nat)
    requires ValidNode(node) && i <= MAX_CHILDREN
    ensures DecodeFrom(Mask(node, MAX_CHILDREN), i, EncodeFrom(node, i)) == Ok((node[i..], []))
    decreases MAX_CHILDREN - i
  {
    hide Bit, Mask, EncodeChild, DecodeChild;
    if i < MAX_CHILDREN {
      MaskBits(node, MAX_CHILDREN, i);
      DecodeFromInverts(node, i + 1);
      assert node[i..] == [node[i]] + node[i + 1..];
      if node[i].Some? {
        DecodeChildInverts(node[i].value, EncodeFrom(node, i + 1));
      } else {
        assert [] + EncodeFrom(node, i + 1) == EncodeFrom(node, i + 1);
      }
    } else {
      assert node[i..] == [];
    }
  }

  /** Reading back what was written gives the node, and the loop uses up the whole buffer. */
  lemma {:induction false} NodeRoundTrip(node: Children)
    requires ValidNode(node)
    ensures DecodeNode(EncodeNode(node)) == Ok(node)
    ensures EncodeNode(node) != [] ==>
      DecodeFrom(FromBigEndian(EncodeNode(node)[..MASK_SIZE]), 0, EncodeNode(node)[MASK_SIZE..]) == Ok((node, []))
  {
    hide DecodeFrom, EncodeFrom, BigEndian, FromBigEndian, Pow256, Mask;
    MaskFits(node);
    MaskZero(node, MAX_CHILDREN);
    var mask := Mask(node, MAX_CHILDREN);
    if mask == 0 {
      assert node == seq(MAX_CHILDREN, _ => None);
    } else {
      var buf := EncodeNode(node);
      BigEndianRoundTrip(mask, MASK_SIZE);
      assert buf[..MASK_SIZE] == BigEndian(mask, MASK_SIZE) && buf[MASK_SIZE..] == EncodeFrom(node, 0);
      DecodeFromInverts(node, 0);
      assert node[0..] == node;
    }
  }

  // ---------- the loops ----------

  /** Appends the children to a buffer and collects the mask. */
  method AppendChildren(node: Children, start: Bytes) returns (mask: nat, out: Bytes)
    requires ValidNode(node)
    ensures mask == Mask(node, |node|) && out == start + EncodeUpTo(node, |node|)
  {
    hide EncodeChild, BigEndian, Pow256;
    mask, out := 0, start;
    var i := 0;
    while i < |node|
      invariant i <= |node|
      invariant mask == Mask(node, i)
      invariant out == start + EncodeUpTo(node, i)
    {
      if node[i].Some? {
        mask := mask + Pow2(i);
        Assoc(start, EncodeUpTo(node, i), EncodeChild(node[i].value));
        out := out + EncodeChild(node[i].value);
      }
      i := i + 1;
    }
  }

  /** Overwrites the front of a buffer in place. */
  method Patch(buf: Bytes, front: Bytes) returns (out: Bytes)
    requires |front| <= |buf|
    ensures out == front + buf[|front|..]
  {
    out := buf;
    var i := 0;
    while i < |front|
      invariant i <= |front| && |out| == |buf|
      invariant out[..i] == front[..i]
      invariant out[i..] == buf[i..]
    {
      out := out[i := front[i]];
      i := i + 1;
    }
    assert out == out[..i] + out[i..];
  }

  /** Appends the children behind a zero mask, then overwrites the mask in place. */
  method Serialize(node: Children) returns (out: Bytes)
    requires ValidNode(node)
    ensures out == EncodeNode(node)
  {
    hide EncodeChild, BigEndian, Pow256, Mask, EncodeUpTo, EncodeFrom, Pow2;
    var zeros: Bytes := [0, 0, 0, 0];
    var mask, buf := AppendChildren(node, zeros);
    NoMoreChildren(node);
    MaskFits(node);
    if mask == 0 {
      return [];
    }
    assert buf[MASK_SIZE..] == EncodeFrom(node, 0);
    out := Patch(buf, BigEndian(mask, MASK_SIZE));
  }

  lemma {:induction false} NoMoreChildren(node: Children)
    requires ValidNode(node)
    ensures EncodeUpTo(node, |node|) == EncodeFrom(node, 0)
  {
    hide EncodeChild;
    FrontAndBack(node, |node|);
  }

  /** Walks the slots, taking one child off the buffer for each bit that is set. */
  method Deserialize(buf: Bytes) returns (r: Result<Children>)
    ensures r == DecodeNode(buf)
  {
    hide DecodeChild, Bit, FromBigEndian;
    if buf == [] {
      return Ok(seq(MAX_CHILDREN, _ => None));
    }
    if |buf| < MASK_SIZE {
      return Err(Aborted);
    }
    var mask := FromBigEndian(buf[..MASK_SIZE]);
    var rest := buf[MASK_SIZE..];
    var children: Children := [];
    ghost var all := DecodeFrom(mask, 0, rest);
    assert all.Ok? ==> [] + all.value.0 == all.value.0;
    var i := 0;
    while i < MAX_CHILDREN
      invariant i <= MAX_CHILDREN
      invariant Prepend(children, DecodeFrom(mask, i, rest)) == all
    {
      if Bit(mask, i) {
        var child := DecodeChild(rest);
        if child.Err? {
          return Err(child.error);
        }
        PrependOne(children, Some(child.value.0), DecodeFrom(mask, i + 1, child.value.1));
        children := children + [Some(child.value.0)];
        rest := child.value.1;
      } else {
        PrependOne(children, None, DecodeFrom(mask, i + 1, rest));
        children := children + [None];
      }
      i := i + 1;
    }
    assert children + [] == children;
    r := Ok(children);
  }

  ghost function Prepend(front: Children, r: Result<(Children, Bytes)>): Result<(Children, Bytes)> {
    match r case Ok(p) => Ok((front + p.0, p.1)) case Err(e) => Err(e)
  }

  lemma {:induction false} PrependOne(front: Children, x: Option<Child>, r: Result<(Children, Bytes)>)
    ensures Prepend(front, Prepend([x], r)) == Prepend(front + [x], r)
  {
    if r.Ok? {
      assert front + ([x] + r.value.0) == front + [x] + r.value.0;
    }
  }
}
