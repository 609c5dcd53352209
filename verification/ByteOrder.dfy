/** Byte strings in lexicographic order, big-endian integers, and an ordered key space. */
module ByteOrder {
  import opened Common

  // ---------- lexicographic order ----------

  /** The order of memcmp, a proper prefix coming first. */
  predicate Less(a: seq<int>, b: seq<int>)
    decreases |a|
  {
    b != [] && (a == [] || a[0] < b[0] || (a[0] == b[0] && Less(a[1..], b[1..])))
  }

  predicate AtMost(a: seq<int>, b: seq<int>) {
    a == b || Less(a, b)
  }

  lemma {:induction false} LessIrreflexive(a: seq<int>)
    ensures !Less(a, a)
  {
    if a != [] {
      LessIrreflexive(a[1..]);
    }
  }

  lemma {:induction false} LessTransitive(a: seq<int>, b: seq<int>, c: seq<int>)
    requires Less(a, b) && Less(b, c)
    ensures Less(a, c)
  {
    if a != [] && a[0] == b[0] == c[0] {
      LessTransitive(a[1..], b[1..], c[1..]);
    }
  }

  lemma {:induction false} LessTotal(a: seq<int>, b: seq<int>)
    ensures a == b || Less(a, b) || Less(b, a)
  {
    if a != [] && b != [] && a[0] == b[0] {
      LessTotal(a[1..], b[1..]);
      assert a == [a[0]] + a[1..] && b == [b[0]] + b[1..];
    }
  }

  lemma {:induction false} LessAsymmetric(a: seq<int>, b: seq<int>)
    requires Less(a, b)
    ensures !Less(b, a) && a != b
  {
    LessIrreflexive(a);
    if Less(b, a) {
      LessTransitive(a, b, a);
    }
  }

  /** Fixed-width fields compare one after the other. */
  lemma {:induction false} LessFields(a: seq<int>, b: seq<int>, x: seq<int>, y: seq<int>)
    requires |a| == |b|
    ensures Less(a + x, b + y) <==> Less(a, b) || (a == b && Less(x, y))
  {
    if a == [] {
      assert a + x == x && b + y == y;
    } else {
      LessFields(a[1..], b[1..], x, y);
      assert (a + x)[1..] == a[1..] + x && (b + y)[1..] == b[1..] + y;
      assert a == [a[0]] + a[1..] && b == [b[0]] + b[1..];
    }
  }

  lemma {:induction false} Assoc(a: seq<int>, b: seq<int>, c: seq<int>)
    ensures (a + b) + c == a + (b + c)
  {
  }

  lemma {:induction false} Middle(a: Bytes, b: Bytes, c: Bytes)
    ensures (a + b + c)[|a|..|a| + |b|] == b
  {
  }

  lemma {:induction false} SliceOfSlice(s: Bytes, m: nat, n: nat, i: nat, j: nat)
    requires m <= n <= |s| && i <= j <= n - m
    ensures s[m..n][i..j] == s[m + i..m + j]
  {
    var a, b := s[m..n][i..j], s[m + i..m + j];
    assert forall t :: 0 <= t < j - i ==> a[t] == s[m + i + t] == b[t];
  }

  // ---------- big-endian integers ----------

  function Pow256(w: nat): (r: nat)
    ensures r > 0
  {
    if w == 0 then 1 else 256 * Pow256(w - 1)
  }

  /** A value of an unsigned integer type of w bytes. */
  predicate InWidth(n: nat, w: nat) {
    n < Pow256(w)
  }

  function BigEndian(n: nat, w: nat): (r: Bytes)
    requires InWidth(n, w)
    ensures |r| == w
  {
    if w == 0 then [] else BigEndian(n / 256, w - 1) + [n % 256]
  }

  function FromBigEndian(b: Bytes): (n: nat)
    ensures InWidth(n, |b|)
  {
    if b == [] then 0 else FromBigEndian(b[..|b| - 1]) * 256 + b[|b| - 1]
  }

  lemma {:induction false} BigEndianRoundTrip(n: nat, w: nat)
    requires InWidth(n, w)
    ensures FromBigEndian(BigEndian(n, w)) == n
  {
    if w > 0 {
      BigEndianRoundTrip(n / 256, w - 1);
      var b := BigEndian(n, w);
      assert b[..w - 1] == BigEndian(n / 256, w - 1);
    }
  }

  lemma {:induction false} BigEndianInverse(b: Bytes)
    ensures BigEndian(FromBigEndian(b), |b|) == b
  {
    if b != [] {
      BigEndianInverse(b[..|b| - 1]);
      assert FromBigEndian(b) / 256 == FromBigEndian(b[..|b| - 1]);
      assert b == b[..|b| - 1] + [b[|b| - 1]];
    }
  }

  /** Big-endian integers of one width compare as integers. */
  lemma {:induction false} BigEndianOrder(m: nat, n: nat, w: nat)
    requires InWidth(m, w) && InWidth(n, w)
    ensures Less(BigEndian(m, w), BigEndian(n, w)) <==> m < n
    ensures BigEndian(m, w) == BigEndian(n, w) <==> m == n
  {
    BigEndianRoundTrip(m, w);
    BigEndianRoundTrip(n, w);
    if w > 0 {
      BigEndianOrder(m / 256, n / 256, w - 1);
      LessFields(BigEndian(m / 256, w - 1), BigEndian(n / 256, w - 1), [m % 256], [n % 256]);
    }
  }

  // ---------- an ordered key space ----------

  lemma {:induction false} AtMostAntisymmetric(keys: set<Bytes>)
    ensures forall x, y :: x in keys && y in keys && AtMost(x, y) && AtMost(y, x) ==> x == y
  {
    forall x, y | x in keys && y in keys && Less(x, y)
      ensures !Less(y, x)
    {
      LessAsymmetric(x, y);
    }
  }

  lemma {:induction false} FirstExists(keys: set<Bytes>) returns (m: Bytes)
    requires keys != {}
    ensures m in keys && forall x :: x in keys ==> AtMost(m, x)
  {
    m :| m in keys;
    var rest := keys - {m};
    assert forall x :: x in keys ==> x == m || x in rest;
    if rest != {} {
      var low := FirstExists(rest);
      LessTotal(m, low);
      if !Less(m, low) {
        m := low;
      } else {
        forall x | x in rest
          ensures AtMost(m, x)
        {
          if x != low {
            LessTransitive(m, low, x);
          }
        }
      }
    }
  }

  lemma {:induction false} FinalExists(keys: set<Bytes>) returns (m: Bytes)
    requires keys != {}
    ensures m in keys && forall x :: x in keys ==> AtMost(x, m)
  {
    m :| m in keys;
    var rest := keys - {m};
    assert forall x :: x in keys ==> x == m || x in rest;
    if rest != {} {
      var top := FinalExists(rest);
      LessTotal(m, top);
      if !Less(top, m) {
        m := top;
      } else {
        forall x | x in rest
          ensures AtMost(x, m)
        {
          if x != top {
            LessTransitive(x, top, m);
          }
        }
      }
    }
  }

  function First(keys: set<Bytes>): (m: Bytes)
    requires keys != {}
    ensures m in keys && forall x :: x in keys ==> AtMost(m, x)
  {
    assert exists m :: m in keys && forall x :: x in keys ==> AtMost(m, x) by {
      var _ := FirstExists(keys);
    }
    AtMostAntisymmetric(keys);
    var m :| m in keys && forall x :: x in keys ==> AtMost(m, x);
    m
  }

  function Final(keys: set<Bytes>): (m: Bytes)
    requires keys != {}
    ensures m in keys && forall x :: x in keys ==> AtMost(x, m)
  {
    assert exists m :: m in keys && forall x :: x in keys ==> AtMost(x, m) by {
      var _ := FinalExists(keys);
    }
    AtMostAntisymmetric(keys);
    var m :| m in keys && forall x :: x in keys ==> AtMost(x, m);
    m
  }

  /** The first key at or above k. */
  function SeekAtLeast(keys: set<Bytes>, k: Bytes): (r: Option<Bytes>)
    ensures r.Some? ==> r.value in keys && AtMost(k, r.value)
    ensures forall x :: x in keys && AtMost(k, x) ==> r.Some? && AtMost(r.value, x)
  {
    var above := set x | x in keys && AtMost(k, x);
    assert forall x :: x in keys && AtMost(k, x) ==> x in above;
    if above == {} then None else Some(First(above))
  }

  /** The last key at or below k. */
  function SeekAtMost(keys: set<Bytes>, k: Bytes): (r: Option<Bytes>)
    ensures r.Some? ==> r.value in keys && AtMost(r.value, k)
    ensures forall x :: x in keys && AtMost(x, k) ==> r.Some? && AtMost(x, r.value)
  {
    var below := set x | x in keys && AtMost(x, k);
    assert forall x :: x in keys && AtMost(x, k) ==> x in below;
    if below == {} then None else Some(Final(below))
  }

  /** The first key above k. */
  function Next(keys: set<Bytes>, k: Bytes): (r: Option<Bytes>)
    ensures r.Some? ==> r.value in keys && Less(k, r.value)
    ensures forall x :: x in keys && Less(k, x) ==> r.Some? && AtMost(r.value, x)
  {
    var above := set x | x in keys && Less(k, x);
    assert forall x :: x in keys && Less(k, x) ==> x in above;
    if above == {} then None else Some(First(above))
  }

  predicate Ascending(s: seq<Bytes>) {
    forall i, j :: 0 <= i < j < |s| ==> Less(s[i], s[j])
  }

  /** The elements of a set in ascending order. */
  function Sorted(keys: set<Bytes>): (r: seq<Bytes>)
    ensures Ascending(r) && |r| == |keys|
    ensures forall x :: x in r <==> x in keys
  {
    if keys == {} then []
    else
      var m := First(keys);
      var rest := Sorted(keys - {m});
      assert forall x :: x in keys ==> x == m || x in keys - {m};
      assert forall i :: 0 <= i < |rest| ==> rest[i] in rest;
      [m] + rest
  }

  /** Ascending sequences with the same elements are the same. */
  lemma {:induction false} AscendingUnique(a: seq<Bytes>, b: seq<Bytes>)
    requires Ascending(a) && Ascending(b)
    requires forall x :: x in a <==> x in b
    ensures a == b
  {
    assert |b| > 0 ==> b[0] in b;
    if a != [] {
      assert a[0] in b && b[0] in a;
      var i :| 0 <= i < |b| && b[i] == a[0];
      var j :| 0 <= j < |a| && a[j] == b[0];
      if i > 0 {
        LessAsymmetric(b[0], b[i]);
        assert false;
      }
      RestsAgree(a, b);
      AscendingUnique(a[1..], b[1..]);
      assert a == [a[0]] + a[1..] && b == [b[0]] + b[1..];
    }
  }

  lemma {:induction false} RestsAgree(a: seq<Bytes>, b: seq<Bytes>)
    requires a != [] && b != [] && a[0] == b[0] && Ascending(a) && Ascending(b)
    requires forall x :: x in a <==> x in b
    ensures forall x :: x in a[1..] <==> x in b[1..]
  {
    LessIrreflexive(a[0]);
    forall x
      ensures x in a[1..] <==> x in b[1..]
    {
      assert x in a[1..] <==> x in a && x != a[0];
      assert x in b[1..] <==> x in b && x != b[0];
    }
  }
}
