/** What reads return after the genesis block of any ledger is pruned, and exactly when no read changes. */
module PrunedReads {
  import opened Common
  import opened SparseTree
  import opened AdapterSpec
  import opened Growth
  import opened Linking
  import opened Recovery
  import opened Crashes
  import opened RawChain
  import opened RepeatedDelete
  import opened AdapterRuns
  import opened EveryRun

  /** A ledger in order with a block after the genesis block. */
  ghost predicate Prunable(cfg: Config, l: Ledger) {
    RawOk(cfg, l) && 1 <= l.genesis < l.last
  }

  /** The tree version that a read at a block goes to. */
  function ReadVersion(l: Ledger, v: nat): nat {
    VersionAt(l.db, if v <= l.last then v else l.last)
  }

  /** The newest leaf of a key at a block. */
  function NewestAt(l: Ledger, k: Key, v: nat): Option<nat> {
    LeafAtMost(l.db, k, ReadVersion(l, v))
  }

  /** The leaf is indexed as stale since the version of the genesis block. */
  predicate Lost(l: Ledger, k: Key, u: nat) {
    StaleKey(VersionAt(l.db, l.genesis), LeafKey(k, u)) in l.db
  }

  /** The newest leaf of a key at or below a version that is not so indexed. */
  function KeptAtMost(l: Ledger, k: Key, w: nat): (r: Option<nat>)
    ensures r.Some? ==> r.value <= w && LeafAt(l.db, k, r.value).Some? && !Lost(l, k, r.value)
    ensures forall u :: (if r.Some? then r.value else -1) < u <= w ==> LeafAt(l.db, k, u).None? || Lost(l, k, u)
  {
    if LeafAt(l.db, k, w).Some? && !Lost(l, k, w) then Some(w)
    else if w == 0 then None
    else KeptAtMost(l, k, w - 1)
  }

  function LeafIn(l: Ledger, k: Key, r: Option<nat>): Option<Leaf> {
    if r.Some? then LeafAt(l.db, k, r.value) else None
  }

  predicate Stamped(leaf: Leaf, v: nat) {
    leaf.deletedIn.Some? && leaf.deletedIn.value <= v
  }

  /** What a read at a block returns that finds this leaf. */
  function Seen(leaf: Option<Leaf>, v: nat): Result<(Value, nat)> {
    match leaf
    case None => Err(NotFound)
    case Some(f) => if Stamped(f, v) then Err(NotFound) else Ok((f.value, f.addedIn))
  }

  // ---------- reading ----------

  lemma {:induction false} BlockRead(cfg: Config, l: Ledger, v: nat)
    requires RawOk(cfg, l) && 1 <= l.genesis <= v
    ensures BlockAtMost(l.db, v) == Some(if v <= l.last then v else l.last)
    ensures NodeAt(l.db, if v <= l.last then v else l.last).Some?
  {
    hide BlockAtMost, RootsOk, StalesOk, NpIndexOk, VersionsOk, LeavesOk, RootNodesOk, NodeOk, Apart, DigestOk;
    var i := if v <= l.last then v else l.last;
    assert InRange(i, l.genesis, l.last) && BlockKey(i) in l.db;
    assert NodeAt(l.db, i).Some?;
    forall u: nat | u > l.last
      ensures NodeAt(l.db, u).None?
    {
      assert !InRange(u, l.genesis, l.last) && BlockKey(u) !in l.db;
    }
  }

  lemma {:induction false} ReadIs(cfg: Config, l: Ledger, k: Key, v: nat)
    requires RawOk(cfg, l) && 1 <= l.genesis <= v
    ensures k !in cfg.nonProvable ==> GetValue(cfg, l.db, k, v) == Seen(LeafIn(l, k, NewestAt(l, k, v)), v)
    ensures k in cfg.nonProvable ==>
      GetValue(cfg, l.db, k, v)
      == match NpAtMost(l.db, k, v) case Some(i) => Ok((NpAt(l.db, k, i).value, i)) case None => Err(NotFound)
  {
    hide RootsOk, StalesOk, NpIndexOk, VersionsOk, NodeOk, Apart, DigestOk, BlockAtMost, LeafAtMost, NpAtMost, IdsOk;
    BlockRead(cfg, l, v);
    if k in cfg.nonProvable {
      assert forall u: nat :: LeafAt(l.db, k, u).None?;
    }
  }

  // ---------- pruning ----------

  lemma {:induction false} PrunedLedger(cfg: Config, l: Ledger)
    requires Prunable(cfg, l)
    ensures NodeAt(l.db, l.genesis).Some? && DeleteGenesis(cfg, l).Ok?
    ensures DeleteGenesis(cfg, l).value == l.(db := PrunedDb(l.db, l.genesis), genesis := l.genesis + 1)
    ensures RawOk(cfg, DeleteGenesis(cfg, l).value)
  {
    hide RawOk, DiesWithGenesis;
    RawIds(cfg, l);
    assert InRange(l.genesis, l.genesis, l.last) && BlockKey(l.genesis) in l.db;
    PruneKeepsRaw(cfg, l);
  }

  lemma {:induction false} PrunedLeaf(cfg: Config, l: Ledger, k: Key, u: nat)
    requires Prunable(cfg, l)
    ensures LeafAt(PrunedDb(l.db, l.genesis), k, u) == if Lost(l, k, u) then None else LeafAt(l.db, k, u)
  {
    hide RootsOk, NpIndexOk, VersionsOk, LeavesOk, RootNodesOk, NodeOk, Apart, DigestOk, PrunedDb;
    PrunedLedger(cfg, l);
    PrunedAt(l.db, l.genesis, LeafKey(k, u));
    assert NpStaleKey(l.genesis, LeafKey(k, u)) !in l.db;
  }

  lemma {:induction false} PrunedNode(cfg: Config, l: Ledger, i: nat)
    requires Prunable(cfg, l) && i > l.genesis
    ensures NodeAt(PrunedDb(l.db, l.genesis), i) == NodeAt(l.db, i)
  {
    hide RootsOk, NpIndexOk, VersionsOk, LeavesOk, RootNodesOk, NodeOk, Apart, DigestOk, PrunedDb;
    PrunedLedger(cfg, l);
    PrunedAt(l.db, l.genesis, BlockKey(i));
    assert NpStaleKey(l.genesis, BlockKey(i)) !in l.db;
    assert StaleKey(NodeAt(l.db, l.genesis).value.version, BlockKey(i)) !in l.db;
  }

  /** A non-provable entry that goes is older than one at the genesis block. */
  lemma {:induction false} PrunedNp(cfg: Config, l: Ledger, k: Key, i: nat)
    requires Prunable(cfg, l)
    ensures NpAt(PrunedDb(l.db, l.genesis), k, i) == NpAt(l.db, k, i)
         || (NpAt(PrunedDb(l.db, l.genesis), k, i).None? && i < l.genesis && NpAt(l.db, k, l.genesis).Some?)
  {
    hide RootsOk, VersionsOk, LeavesOk, RootNodesOk, NodeOk, Apart, DigestOk, PrunedDb;
    PrunedLedger(cfg, l);
    PrunedAt(l.db, l.genesis, NpKey(k, i));
    assert StaleKey(NodeAt(l.db, l.genesis).value.version, NpKey(k, i)) !in l.db;
    if NpStaleKey(l.genesis, NpKey(k, i)) in l.db {
      assert NpAt(l.db, k, l.genesis).Some?;
    }
  }

  lemma {:induction false} PrunedNpRead(cfg: Config, l: Ledger, k: Key, v: nat)
    requires Prunable(cfg, l) && v > l.genesis
    ensures var p := PrunedDb(l.db, l.genesis);
      && NpAtMost(p, k, v) == NpAtMost(l.db, k, v)
      && (NpAtMost(p, k, v).Some? ==> NpAt(p, k, NpAtMost(p, k, v).value) == NpAt(l.db, k, NpAtMost(p, k, v).value))
  {
    hide NpAtMost, NpAt, RawOk, PrunedDb;
    var p := PrunedDb(l.db, l.genesis);
    forall i: nat
      ensures NpAt(p, k, i) == NpAt(l.db, k, i)
           || (NpAt(p, k, i).None? && i < l.genesis && NpAt(l.db, k, l.genesis).Some?)
    {
      PrunedNp(cfg, l, k, i);
    }
    var a, b := NpAtMost(l.db, k, v), NpAtMost(p, k, v);
    assert a.Some? ==> NpAt(p, k, a.value) == NpAt(l.db, k, a.value);
    assert b.Some? ==> NpAt(p, k, b.value) == NpAt(l.db, k, b.value);
  }

  lemma {:induction false} PrunedNewest(cfg: Config, l: Ledger, k: Key, v: nat)
    requires Prunable(cfg, l) && v > l.genesis
    ensures var p := l.(db := PrunedDb(l.db, l.genesis), genesis := l.genesis + 1);
      var r := KeptAtMost(l, k, ReadVersion(l, v));
      NewestAt(p, k, v) == r && LeafIn(p, k, r) == LeafIn(l, k, r)
  {
    hide RawOk, PrunedDb, LeafAtMost, KeptAtMost, LeafAt, Lost, NodeAt;
    var p := l.(db := PrunedDb(l.db, l.genesis), genesis := l.genesis + 1);
    PrunedNode(cfg, l, if v <= l.last then v else l.last);
    forall u: nat
      ensures LeafAt(p.db, k, u) == if Lost(l, k, u) then None else LeafAt(l.db, k, u)
    {
      PrunedLeaf(cfg, l, k, u);
    }
    var w := ReadVersion(l, v);
    assert ReadVersion(p, v) == w;
    var a, b := LeafAtMost(p.db, k, w), KeptAtMost(l, k, w);
    assert a.Some? ==> LeafAt(p.db, k, a.value).Some?;
    assert b.Some? ==> LeafAt(p.db, k, b.value).Some?;
  }

  /** What a read above the genesis block returns once that is pruned. */
  lemma {:induction false} PrunedRead(cfg: Config, l: Ledger, k: Key, v: nat)
    requires Prunable(cfg, l) && v > l.genesis
    ensures DeleteGenesis(cfg, l).Ok?
    ensures k !in cfg.nonProvable ==>
      && GetValue(cfg, l.db, k, v) == Seen(LeafIn(l, k, NewestAt(l, k, v)), v)
      && GetValue(cfg, DeleteGenesis(cfg, l).value.db, k, v)
         == Seen(LeafIn(l, k, KeptAtMost(l, k, ReadVersion(l, v))), v)
    ensures k in cfg.nonProvable ==> GetValue(cfg, DeleteGenesis(cfg, l).value.db, k, v) == GetValue(cfg, l.db, k, v)
  {
    hide RawOk, PrunedDb, DeleteGenesis, GetValue, NewestAt, KeptAtMost, ReadVersion, Seen, LeafIn, NpAtMost, NpAt;
    PrunedLedger(cfg, l);
    ReadIs(cfg, l, k, v);
    ReadIs(cfg, DeleteGenesis(cfg, l).value, k, v);
    PrunedNewest(cfg, l, k, v);
    PrunedNpRead(cfg, l, k, v);
  }

  // ---------- which leaf ----------

  lemma {:induction false} ReadVersionsGrow(cfg: Config, l: Ledger, v: nat, v': nat)
    requires RawOk(cfg, l) && 1 <= l.genesis <= v <= v'
    ensures VersionAt(l.db, l.genesis) <= ReadVersion(l, v) <= ReadVersion(l, v')
  {
    hide IdsOk, RootsOk, StalesOk, NpIndexOk, LeavesOk, RootNodesOk, NodeOk, Apart, DigestOk, BlockAtMost;
    BlockRead(cfg, l, l.genesis);
    BlockRead(cfg, l, v);
    BlockRead(cfg, l, v');
    RawIds(cfg, l);
  }

  /** A leaf that goes is older than the genesis block's version. */
  lemma {:induction false} LostIsOld(cfg: Config, l: Ledger, k: Key, u: nat)
    requires RawOk(cfg, l) && Lost(l, k, u)
    ensures u < VersionAt(l.db, l.genesis)
  {
    hide IdsOk, RootsOk, NpIndexOk, VersionsOk, LeavesOk, RootNodesOk, NodeOk, Apart, DigestOk, VersionAt;
  }

  /** The newest leaf at a block stays, and is still read, unless it is lost. */
  lemma {:induction false} NewestKept(l: Ledger, k: Key, w: nat)
    requires var r := LeafAtMost(l.db, k, w); r.Some? ==> !Lost(l, k, r.value)
    ensures KeptAtMost(l, k, w) == LeafAtMost(l.db, k, w)
  {
    hide Lost, LeafAt;
    var a, b := LeafAtMost(l.db, k, w), KeptAtMost(l, k, w);
    assert b.Some? ==> LeafAt(l.db, k, b.value).Some?;
    assert a.Some? ==> LeafAt(l.db, k, a.value).Some?;
  }

  /** Between two versions without a new leaf, neither the newest leaf nor the newest one kept changes. */
  lemma {:induction false} SameNewest(l: Ledger, k: Key, w: nat, w': nat)
    requires w <= w' && LeafAtMost(l.db, k, w').Some? && LeafAtMost(l.db, k, w').value <= w
    ensures LeafAtMost(l.db, k, w) == LeafAtMost(l.db, k, w')
    ensures KeptAtMost(l, k, w) == KeptAtMost(l, k, w')
  {
    hide Lost, LeafAt;
    var a, a' := LeafAtMost(l.db, k, w), LeafAtMost(l.db, k, w');
    var b, b' := KeptAtMost(l, k, w), KeptAtMost(l, k, w');
    assert LeafAt(l.db, k, a'.value).Some?;
    assert a.Some? ==> LeafAt(l.db, k, a.value).Some?;
    assert b.Some? ==> LeafAt(l.db, k, b.value).Some?;
    assert b'.Some? ==> LeafAt(l.db, k, b'.value).Some?;
  }

  /** A lost leaf that a read finds is also found at every earlier block above the genesis block. */
  lemma {:induction false} LostSince(cfg: Config, l: Ledger, k: Key, v: nat, v': nat)
    requires Prunable(cfg, l) && l.genesis < v <= v'
    requires NewestAt(l, k, v').Some? && Lost(l, k, NewestAt(l, k, v').value)
    ensures NewestAt(l, k, v) == NewestAt(l, k, v')
    ensures KeptAtMost(l, k, ReadVersion(l, v)) == KeptAtMost(l, k, ReadVersion(l, v'))
  {
    hide RawOk, Lost, LeafAtMost, KeptAtMost, ReadVersion;
    LostIsOld(cfg, l, k, NewestAt(l, k, v').value);
    ReadVersionsGrow(cfg, l, v, v');
    SameNewest(l, k, ReadVersion(l, v), ReadVersion(l, v'));
  }

  // ---------- exactly when no read changes ----------

  /** The newest leaf of a key at the block after the genesis block is one that goes. */
  predicate Loses(l: Ledger, k: Key) {
    var r := NewestAt(l, k, l.genesis + 1);
    r.Some? && Lost(l, k, r.value)
  }

  /** The leaf that goes. */
  function LostLeaf(l: Ledger, k: Key): Option<Leaf> {
    LeafIn(l, k, NewestAt(l, k, l.genesis + 1))
  }

  /** The older leaf that is then found instead. */
  function LeftLeaf(l: Ledger, k: Key): Option<Leaf> {
    LeafIn(l, k, KeptAtMost(l, k, ReadVersion(l, l.genesis + 1)))
  }

  /** The block above the genesis block from which the stamp of a leaf hides it, while no newer leaf does. */
  function HiddenFrom(l: Ledger, k: Key, leaf: Leaf): Option<nat> {
    if leaf.deletedIn.None? then None
    else
      var d := if leaf.deletedIn.value <= l.genesis then l.genesis + 1 else leaf.deletedIn.value;
      if NewestAt(l, k, d) == NewestAt(l, k, l.genesis + 1) then Some(d) else None
  }

  /**
   * Nobody sees the difference between the two leaves: both are stamped by the block after the genesis
   * block, or both hold the same value of the same block and are hidden from the same block on.
   */
  predicate Unseen(l: Ledger, k: Key) {
    match (LostLeaf(l, k), LeftLeaf(l, k))
    case (Some(a), None) => Stamped(a, l.genesis + 1)
    case (Some(a), Some(b)) =>
      || (Stamped(a, l.genesis + 1) && Stamped(b, l.genesis + 1))
      || (a.value == b.value && a.addedIn == b.addedIn && HiddenFrom(l, k, a) == HiddenFrom(l, k, b))
    case _ => true
  }

  /** A stamp up to a block at which the leaf is still the newest counts. */
  lemma {:induction false} StampCounts(cfg: Config, l: Ledger, k: Key, leaf: Leaf, v: nat)
    requires Prunable(cfg, l) && v > l.genesis && Loses(l, k) && NewestAt(l, k, v) == NewestAt(l, k, l.genesis + 1)
    ensures Stamped(leaf, v) <==> HiddenFrom(l, k, leaf).Some? && HiddenFrom(l, k, leaf).value <= v
  {
    hide RawOk, NewestAt, Lost, KeptAtMost, ReadVersion;
    if Stamped(leaf, v) {
      var d := if leaf.deletedIn.value <= l.genesis then l.genesis + 1 else leaf.deletedIn.value;
      LostSince(cfg, l, k, d, v);
    }
  }

  /** Reads at blocks where the lost leaf is the newest compare it with the one left. */
  lemma {:induction false} ComparedReads(cfg: Config, l: Ledger, k: Key, v: nat)
    requires Prunable(cfg, l) && v > l.genesis && k !in cfg.nonProvable
    requires Loses(l, k) && NewestAt(l, k, v) == NewestAt(l, k, l.genesis + 1)
    ensures DeleteGenesis(cfg, l).Ok?
    ensures GetValue(cfg, l.db, k, v) == Seen(LostLeaf(l, k), v)
    ensures GetValue(cfg, DeleteGenesis(cfg, l).value.db, k, v) == Seen(LeftLeaf(l, k), v)
  {
    hide RawOk, GetValue, DeleteGenesis, NewestAt, KeptAtMost, ReadVersion, Seen, LeafIn, Lost;
    PrunedRead(cfg, l, k, v);
    LostSince(cfg, l, k, l.genesis + 1, v);
  }

  lemma {:induction false} UnseenStays(cfg: Config, l: Ledger, k: Key, v: nat)
    requires Prunable(cfg, l) && v > l.genesis && (k !in cfg.nonProvable && Loses(l, k) ==> Unseen(l, k))
    ensures DeleteGenesis(cfg, l).Ok?
    ensures GetValue(cfg, DeleteGenesis(cfg, l).value.db, k, v) == GetValue(cfg, l.db, k, v)
  {
    hide RawOk, GetValue, DeleteGenesis, KeptAtMost, ReadVersion, Lost, LeafAtMost, HiddenFrom;
    PrunedRead(cfg, l, k, v);
    if k !in cfg.nonProvable {
      var r := NewestAt(l, k, v);
      if r.Some? && Lost(l, k, r.value) {
        LostSince(cfg, l, k, l.genesis + 1, v);
        ComparedReads(cfg, l, k, v);
        SeenTheSame(cfg, l, k, v);
      } else {
        NewestKept(l, k, ReadVersion(l, v));
      }
    }
  }

  lemma {:induction false} SeenTheSame(cfg: Config, l: Ledger, k: Key, v: nat)
    requires Prunable(cfg, l) && v > l.genesis && Unseen(l, k)
    requires Loses(l, k) && NewestAt(l, k, v) == NewestAt(l, k, l.genesis + 1)
    ensures Seen(LostLeaf(l, k), v) == Seen(LeftLeaf(l, k), v)
  {
    hide RawOk, NewestAt, KeptAtMost, ReadVersion, Lost, HiddenFrom, LeafIn, Loses;
    LostLeafThere(l, k);
    StampCounts(cfg, l, k, LostLeaf(l, k).value, v);
    if LeftLeaf(l, k).Some? {
      StampCounts(cfg, l, k, LeftLeaf(l, k).value, v);
    }
  }

  lemma {:induction false} LostLeafThere(l: Ledger, k: Key)
    requires Loses(l, k)
    ensures LostLeaf(l, k).Some?
  {
    hide LeafAtMost;
  }

  /** A block at which the two leaves read differently. */
  lemma {:induction false} SeenApart(cfg: Config, l: Ledger, k: Key) returns (v: nat)
    requires Prunable(cfg, l) && Loses(l, k) && !Unseen(l, k)
    ensures v > l.genesis && NewestAt(l, k, v) == NewestAt(l, k, l.genesis + 1)
    ensures Seen(LostLeaf(l, k), v) != Seen(LeftLeaf(l, k), v)
  {
    hide RawOk, NewestAt, KeptAtMost, ReadVersion, Lost, LeafIn, Loses;
    v := l.genesis + 1;
    LostLeafThere(l, k);
    if Seen(LostLeaf(l, k), v) == Seen(LeftLeaf(l, k), v) {
      var a, b := LostLeaf(l, k).value, LeftLeaf(l, k).value;
      var p, q := HiddenFrom(l, k, a), HiddenFrom(l, k, b);
      v := if p.None? then q.value else if q.None? then p.value else if p.value < q.value then p.value else q.value;
      StampCounts(cfg, l, k, a, v);
      StampCounts(cfg, l, k, b, v);
    }
  }

  /**
   * Pruning the genesis block of any ledger, whatever was deleted or rolled back before, changes no read
   * above it if and only if, for every provable key whose newest leaf at the next block is indexed as
   * stale since the genesis block's version, that leaf and the older one left, if any, cannot be told apart.
   */
  lemma {:induction false} PrunedReadsIff(cfg: Config, l: Ledger)
    requires Prunable(cfg, l)
    ensures DeleteGenesis(cfg, l).Ok?
    ensures (forall k, v: nat :: v > l.genesis ==>
        GetValue(cfg, DeleteGenesis(cfg, l).value.db, k, v) == GetValue(cfg, l.db, k, v))
      <==> (forall k :: k !in cfg.nonProvable && Loses(l, k) ==> Unseen(l, k))
  {
    hide RawOk, GetValue, DeleteGenesis, Loses, Unseen, NewestAt, Seen, LostLeaf, LeftLeaf;
    PrunedRead(cfg, l, [], l.genesis + 1);
    if forall k :: k !in cfg.nonProvable && Loses(l, k) ==> Unseen(l, k) {
      forall k, v: nat | v > l.genesis
        ensures GetValue(cfg, DeleteGenesis(cfg, l).value.db, k, v) == GetValue(cfg, l.db, k, v)
      {
        UnseenStays(cfg, l, k, v);
      }
    } else {
      var k :| k !in cfg.nonProvable && Loses(l, k) && !Unseen(l, k);
      var v := SeenApart(cfg, l, k);
      ComparedReads(cfg, l, k, v);
    }
  }

  /** The failing case: the only leaf of a key goes, and a read found it. */
  lemma {:induction false} LostReadFlips(cfg: Config, l: Ledger, k: Key, w: nat, v: nat)
    requires Prunable(cfg, l) && v > l.genesis && k !in cfg.nonProvable && Lost(l, k, w)
    requires forall u: nat :: LeafAt(l.db, k, u).Some? <==> u == w
    requires !Stamped(LeafAt(l.db, k, w).value, v)
    ensures DeleteGenesis(cfg, l).Ok? && GetValue(cfg, l.db, k, v).Ok?
    ensures GetValue(cfg, DeleteGenesis(cfg, l).value.db, k, v) == Err(NotFound)
  {
    hide RawOk, GetValue, DeleteGenesis, LeafAtMost, KeptAtMost, ReadVersion, Lost, LeafAt;
    PrunedRead(cfg, l, k, v);
    LostIsOld(cfg, l, k, w);
    ReadVersionsGrow(cfg, l, v, v);
    FoundNewest(l.db, k, ReadVersion(l, v), w);
    assert forall u: nat :: LeafAt(l.db, k, u).Some? ==> Lost(l, k, u);
    assert KeptAtMost(l, k, ReadVersion(l, v)).None?;
  }

  /** The exact condition on every run, crashes and restarts included. */
  lemma {:induction false} RunPrunedReadsIff(cfg: Config, s: State, ops: seq<Op>)
    requires IsEmpty(s) && Run(cfg, s, ops).Some?
    requires 1 <= Run(cfg, s, ops).value.ledger.genesis < Run(cfg, s, ops).value.ledger.last
    ensures var l := Run(cfg, s, ops).value.ledger;
      && DeleteGenesis(cfg, l).Ok?
      && ((forall k, v: nat :: v > l.genesis ==>
             GetValue(cfg, DeleteGenesis(cfg, l).value.db, k, v) == GetValue(cfg, l.db, k, v))
          <==> (forall k :: k !in cfg.nonProvable && Loses(l, k) ==> Unseen(l, k)))
  {
    hide Run, RawOk, GetValue, DeleteGenesis, Loses, Unseen;
    EmptyIsSane(cfg, s);
    RunKeepsRaw(cfg, s, ops);
    PrunedReadsIff(cfg, Run(cfg, s, ops).value.ledger);
  }
}
