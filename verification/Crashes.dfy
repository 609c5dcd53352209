/** Crashes inside addRawBlock: exactly when opening the adapter again ends where the call would have. */
module Crashes {
  import opened Common
  import opened SparseTree
  import opened AdapterSpec
  import opened ChainView
  import opened Reading
  import opened Growth
  import opened Rollback
  import opened Linking
  import opened Recovery

  // ---------- the cached root after a block ----------

  /** With the chain's own tree cached, a represented chain is in sync. */
  lemma {:induction false} InvSynced(cfg: Config, l: Ledger, c: Chain)
    requires Inv(cfg, l, c)
    ensures Synced(l.(tree := LastTree(c)))
  {
    LatestRootIs(cfg, l.db, c, l.genesis);
    TreesOk(cfg, c, |c|);
    assert Lookup(l.db, BlockKey(|c|)) == Expect(cfg, c, l.genesis, BlockKey(|c|));
  }

  /** Deletes that find no leaf change nothing. */
  lemma {:induction false} VainDeletes(cfg: Config, l: Ledger, updates: map<Key, Value>, deletes: set<Key>)
    requires deletes !! cfg.nonProvable
    requires ActuallyDeleted(l.db, l.tree.version, deletes - updates.Keys) == {}
    ensures AddBlock(cfg, l, updates, deletes) == AddBlock(cfg, l, updates, {})
  {
    hide ParentDigest, Writes, Update, LatestRoot;
    assert deletes * cfg.nonProvable == {} == {} * cfg.nonProvable;
    assert ActuallyDeleted(l.db, l.tree.version, {} - updates.Keys) == {};
    assert MakePlan(cfg, l, updates, deletes) == MakePlan(cfg, l, updates, {});
  }

  lemma {:induction false} AddOkDisjoint(cfg: Config, l: Ledger, updates: map<Key, Value>, deletes: set<Key>)
    requires AddBlock(cfg, l, updates, deletes).Ok?
    ensures deletes !! cfg.nonProvable
  {
    hide ParentDigest, Writes, Update, LatestRoot, ActuallyDeleted;
    assert forall k :: k in deletes && k in cfg.nonProvable ==> k in deletes * cfg.nonProvable;
  }

  /** A block that reads the root from the database brings the cached root back in step. */
  lemma {:induction false} SyncedByRead(cfg: Config, l: Ledger, c: Chain, updates: map<Key, Value>, deletes: set<Key>)
    requires Inv(cfg, l, c) && deletes !! cfg.nonProvable && ReadsRoot(cfg, l, updates, deletes)
    ensures AddBlock(cfg, l, updates, deletes).Ok? && Synced(AddBlock(cfg, l, updates, deletes).value)
  {
    hide ParentDigest, WriteAt, WriteKeys, LeafAtMost, Update, Expect, Synced;
    AddSucceeds(cfg, l, c, updates, deletes);
    var plan := MakePlan(cfg, l, updates, deletes).value;
    InvSynced(cfg, l, c);
    TreesOk(cfg, c, |c|);
    UpdateFollows(cfg.hashPath, LastTree(c), updates - cfg.nonProvable, plan.deleted);
    PlanKeepsSync(cfg, l.(tree := LastTree(c)), plan, AddBlock(cfg, l, updates, deletes).value);
  }

  /**
   * After a block is added to a represented chain, the cached tree root is the one the database
   * leads to if and only if it was so before or the block made the adapter read the root.
   */
  lemma {:induction false} SyncedAfterAdd(cfg: Config, l: Ledger, c: Chain, updates: map<Key, Value>, deletes: set<Key>)
    requires Inv(cfg, l, c) && AddBlock(cfg, l, updates, deletes).Ok?
    ensures Synced(AddBlock(cfg, l, updates, deletes).value) <==>
      l.tree == LastTree(c) || ReadsRoot(cfg, l, updates, deletes)
    ensures !(l.tree == LastTree(c) || ReadsRoot(cfg, l, updates, deletes)) ==>
      LostRoot(AddBlock(cfg, l, updates, deletes).value)
  {
    hide AddBlock, Holds, ChainOk, LatestRoot;
    AddOkDisjoint(cfg, l, updates, deletes);
    if ReadsRoot(cfg, l, updates, deletes) {
      SyncedByRead(cfg, l, c, updates, deletes);
    } else if l.tree == LastTree(c) {
      InvSynced(cfg, l, c);
      AddKeepsSync(cfg, l, RawBlock(updates, deletes, ZeroDigest, StateHash(map[])));
    } else {
      VainDeletes(cfg, l, updates, deletes);
      RootLostAfterRollback(cfg, l, c, updates);
      NodeAfterVainBlock(cfg, l, c, updates);
    }
  }

  // ---------- a lost root stays lost ----------

  /** The last block node has the cached version, and the root of that version is not in the database. */
  predicate LostRoot(l: Ledger) {
    && LatestRoot(l.db, l.last) == Err(RuntimeError)
    && NodeAt(l.db, l.last).Some? && NodeAt(l.db, l.last).value.version == l.tree.version
  }

  lemma {:induction false} NodeAfterVainBlock(cfg: Config, l: Ledger, c: Chain, updates: map<Key, Value>)
    requires Inv(cfg, l, c) && updates.Keys <= cfg.nonProvable && AddBlock(cfg, l, updates, {}).Ok?
    ensures var l' := AddBlock(cfg, l, updates, {}).value;
      NodeAt(l'.db, l'.last).Some? && NodeAt(l'.db, l'.last).value.version == l'.tree.version
  {
    hide ParentDigest, Writes, Update, LatestRoot;
    AddSucceeds(cfg, l, c, updates, {});
    AddedAt(cfg, l, updates, {}, MakePlan(cfg, l, updates, {}).value, BlockKey(|c| + 1));
  }

  lemma {:induction false} LostRootStays(cfg: Config, l: Ledger, b: RawBlock)
    requires LostRoot(l) && Adding(cfg)(l, b).Ok?
    ensures LostRoot(Adding(cfg)(l, b).value)
  {
    hide ParentDigest, Writes, Update;
    var plan := MakePlan(cfg, l, b.updates, b.deletes).value;
    assert plan.oldTree == plan.newTree == l.tree;
    AddedAt(cfg, l, b.updates, b.deletes, plan, BlockKey(l.last + 1));
    AddedAt(cfg, l, b.updates, b.deletes, plan, InternalKey(l.tree.version, []));
  }

  lemma {:induction false} LostRootKept(cfg: Config)
    ensures Keeps(Adding(cfg), l => IdsOk(l) && LostRoot(l))
  {
    forall l: Ledger, b: RawBlock | IdsOk(l) && LostRoot(l) && Adding(cfg)(l, b).Ok?
      ensures IdsOk(Adding(cfg)(l, b).value) && LostRoot(Adding(cfg)(l, b).value)
    {
      AddKeepsIds(cfg, l, b);
      LostRootStays(cfg, l, b);
    }
  }

  /** With the root lost, the adapter cannot be opened after any number of link transactions. */
  lemma {:induction false} LostRootNotOpened(cfg: Config, s: State, n: nat)
    requires IdsOk(s.ledger) && LostRoot(s.ledger) && TempsAhead(s) && LinkSteps(Adding(cfg), s, n).Ok?
    ensures var crashed := LinkSteps(Adding(cfg), s, n).value;
      Open(cfg, crashed.ledger.db, crashed.temps) == Err(RuntimeError)
  {
    hide IdsOk, AddBlock, LinkBlock, LoadLast;
    AddersOk(cfg);
    LostRootKept(cfg);
    StepsThenAbsorb(Adding(cfg), Linked(cfg), l => IdsOk(l) && LostRoot(l), s, n);
    CachedIdsReload(LinkSteps(Adding(cfg), s, n).value.ledger);
  }

  // ---------- crashes ----------

  /**
   * On a represented chain, a crash after any number of link transactions is recovered from by
   * opening the adapter if and only if the cached tree root was the chain's or the block that
   * closed the gap made the adapter read it.
   */
  lemma {:induction false} CrashWhileLinkingExact(cfg: Config, s: State, c: Chain, block: RawBlock, n: nat)
    requires Inv(cfg, s.ledger, c) && IdsOk(s.ledger) && Settled(s)
    requires AddRawBlock(cfg, s, block, s.ledger.last + 1).Ok? && Adding(cfg)(s.ledger, block).Ok?
    requires LinkSteps(Adding(cfg), s.(ledger := Adding(cfg)(s.ledger, block).value), n).Ok?
    ensures var crashed := LinkSteps(Adding(cfg), s.(ledger := Adding(cfg)(s.ledger, block).value), n).value;
      Open(cfg, crashed.ledger.db, crashed.temps) == AddRawBlock(cfg, s, block, s.ledger.last + 1)
      <==> s.ledger.tree == LastTree(c) || ReadsRoot(cfg, s.ledger, block.updates, block.deletes)
  {
    hide Holds, ChainOk, Synced, LostRoot, ReadsRoot, Open, LinkSteps, IdsOk, AddRawWith;
    SyncedAfterAdd(cfg, s.ledger, c, block.updates, block.deletes);
    var l' := AddBlock(cfg, s.ledger, block.updates, block.deletes).value;
    if Synced(l') {
      CrashWhileLinking(cfg, s, block, n);
    } else {
      AddKeepsIds(cfg, s.ledger, block);
      AddersOk(cfg);
      LostRootNotOpened(cfg, s.(ledger := l'), n);
    }
  }

  // ---------- what a crash leaves on disk ----------

  /** Link transactions until n are done, no block is left to link, or one fails and ends the process. */
  function LinkUpTo(add: Adder, s: State, n: nat): State
    decreases n
  {
    if n == 0 || !CanStep(add, s) then s else LinkUpTo(add, Step(add, s).value, n - 1)
  }

  /** The state on disk when the process ends during addRawBlock, at most n link transactions after its first write. */
  function Crashed(cfg: Config, s: State, block: RawBlock, id: nat, n: nat): State {
    if id <= s.ledger.last then s
    else if id > s.ledger.last + 1 then s.(temps := s.temps[id := block])
    else match Adding(cfg)(s.ledger, block)
      case Ok(l) => LinkUpTo(Adding(cfg), s.(ledger := l), n)
      case Err(_) => s
  }

  lemma {:induction false} LinkUpToIsSteps(add: Adder, s: State, n: nat) returns (m: nat)
    ensures m <= n && LinkSteps(add, s, m) == Ok(LinkUpTo(add, s, n))
    decreases n
  {
    if n == 0 || !CanStep(add, s) {
      m := 0;
    } else {
      m := LinkUpToIsSteps(add, Step(add, s).value, n - 1);
      m := m + 1;
    }
  }

  /** What a crash leaves has its ids in order, and blocks to link only behind a nonempty chain. */
  lemma {:induction false} CrashedIds(cfg: Config, s: State, block: RawBlock, id: nat, n: nat)
    requires IdsOk(s.ledger) && Settled(s)
    ensures var d := Crashed(cfg, s, block, id, n);
      IdsOk(d.ledger) && TempsAhead(d) && (d.ledger.genesis != 0 || d.ledger.last + 1 !in d.temps)
  {
    hide AddBlock, LinkBlock, LinkUpTo, IdsOk;
    if id == s.ledger.last + 1 && Adding(cfg)(s.ledger, block).Ok? {
      AddersOk(cfg);
      AddKeepsIds(cfg, s.ledger, block);
      var s1 := s.(ledger := Adding(cfg)(s.ledger, block).value);
      var m := LinkUpToIsSteps(Adding(cfg), s1, n);
      AddKeepsChain(cfg);
      StepsThenAbsorb(Adding(cfg), Linked(cfg), l => IdsOk(l) && l.genesis != 0, s1, m);
    }
  }

  lemma {:induction false} AddKeepsChain(cfg: Config)
    ensures Keeps(Adding(cfg), l => IdsOk(l) && l.genesis != 0)
  {
    hide IdsOk, AddBlock;
    AddersOk(cfg);
    forall l: Ledger, b: RawBlock | IdsOk(l) && l.genesis != 0 && Adding(cfg)(l, b).Ok?
      ensures IdsOk(Adding(cfg)(l, b).value) && Adding(cfg)(l, b).value.genesis != 0
    {
      AddKeepsIds(cfg, l, b);
    }
  }

  /** An adapter that opens on what a crash left has its ids in order and no block left to link. */
  lemma {:induction false} OpenKeepsBookkeeping(cfg: Config, d: State)
    requires IdsOk(d.ledger) && TempsAhead(d) && (d.ledger.genesis != 0 || d.ledger.last + 1 !in d.temps)
    requires Open(cfg, d.ledger.db, d.temps).Ok?
    ensures IdsOk(Open(cfg, d.ledger.db, d.temps).value.ledger) && Settled(Open(cfg, d.ledger.db, d.temps).value)
  {
    hide AddBlock, LinkBlock, LatestRoot, LoadLast, LoadGenesis;
    AddersOk(cfg);
    CachedIdsReload(d.ledger);
    var l := Load(d.ledger.db).value;
    var s := State(l, d.temps, LatestTemp(d.temps));
    assert IdsOk(l);
    LinkIsAbsorb(Adding(cfg), Linked(cfg), s, LatestBlockId(s));
    AddKeepsIdsAlways(cfg);
    AbsorbKeeps(Adding(cfg), Linked(cfg), l => IdsOk(l), s);
  }

  lemma {:induction false} AddKeepsIdsAlways(cfg: Config)
    ensures Keeps(Adding(cfg), l => IdsOk(l))
  {
    forall l: Ledger, b: RawBlock | IdsOk(l) && Adding(cfg)(l, b).Ok?
      ensures IdsOk(Adding(cfg)(l, b).value)
    {
      AddKeepsIds(cfg, l, b);
    }
  }

  // ---------- starts that are interrupted themselves ----------

  /** Every stored root is a consistent tree of the version in its key. */
  ghost predicate RootsOk(db: Db) {
    forall w: nat :: InternalKey(w, []) in db ==>
      && db[InternalKey(w, [])].InternalVal?
      && TreeOk(db[InternalKey(w, [])].tree) && db[InternalKey(w, [])].tree.version == w
  }

  /** The root a plan starts from, when it reads one, is consistent and has the version of the last block. */
  lemma {:induction false} ReadRootOk(db: Db, last: nat)
    requires RootsOk(db) && LatestRoot(db, last).Ok?
    ensures TreeOk(LatestRoot(db, last).value)
    ensures last > 0 ==> NodeAt(db, last).Some? && NodeAt(db, last).value.version == LatestRoot(db, last).value.version
    ensures last == 0 ==> LatestRoot(db, last).value == EMPTY_TREE
  {
    if last > 0 && NodeAt(db, last).value.version > 0 {
      assert InternalKey(NodeAt(db, last).value.version, []) in db;
    }
  }

  /** What a plan does to the tree: nothing, or an update of the stored root. */
  lemma {:induction false} PlanTrees(cfg: Config, l: Ledger, updates: map<Key, Value>, deletes: set<Key>, plan: Plan)
    requires RootsOk(l.db) && MakePlan(cfg, l, updates, deletes) == Ok(plan)
    ensures if ReadsRoot(cfg, l, updates, deletes) then
        && LatestRoot(l.db, l.last) == Ok(plan.oldTree) && TreeOk(plan.oldTree)
        && plan.newTree == Update(cfg.hashPath, plan.oldTree, updates - cfg.nonProvable, plan.deleted)
        && TreeOk(plan.newTree) && Follows(plan.oldTree, plan.newTree)
      else plan.deleted == {} && plan.oldTree == plan.newTree == l.tree
  {
    hide ParentDigest, Update, LatestRoot, ActuallyDeleted;
    ProvableEmpty(cfg, updates);
    if ReadsRoot(cfg, l, updates, deletes) {
      ReadRootOk(l.db, l.last);
      UpdateFollows(cfg.hashPath, plan.oldTree, updates - cfg.nonProvable, plan.deleted);
    }
  }

  lemma {:induction false} AddKeepsRoots(cfg: Config, l: Ledger, b: RawBlock)
    requires RootsOk(l.db) && Adding(cfg)(l, b).Ok?
    ensures RootsOk(Adding(cfg)(l, b).value.db)
  {
    hide MakePlan, Writes, ReadsRoot, Update;
    var plan := MakePlan(cfg, l, b.updates, b.deletes).value;
    PlanTrees(cfg, l, b.updates, b.deletes, plan);
    forall w: nat | InternalKey(w, []) in Adding(cfg)(l, b).value.db
      ensures var v := Adding(cfg)(l, b).value.db[InternalKey(w, [])];
        v.InternalVal? && TreeOk(v.tree) && v.tree.version == w
    {
      AddedAt(cfg, l, b.updates, b.deletes, plan, InternalKey(w, []));
    }
  }

  /** A ledger that can be loaded from a database with consistent roots is in sync. */
  lemma {:induction false} LoadedSynced(l: Ledger)
    requires IdsOk(l) && RootsOk(l.db) && Load(l.db).Ok?
    ensures Load(l.db).value == l.(tree := Load(l.db).value.tree)
    ensures IdsOk(Load(l.db).value) && Synced(Load(l.db).value)
  {
    hide LatestRoot, LoadLast, LoadGenesis;
    CachedIdsReload(l);
    ReadRootOk(l.db, l.last);
  }

  /**
   * Starting an adapter: every start but the last one ends after the given number of link
   * transactions of the constructor.
   */
  function Restarts(cfg: Config, db: Db, temps: map<nat, RawBlock>, links: seq<nat>): Result<State>
    decreases |links|
  {
    if links == [] then Open(cfg, db, temps)
    else
      var l :- Load(db);
      var d := LinkUpTo(Linked(cfg), State(l, temps, LatestTemp(temps)), links[0]);
      Restarts(cfg, d.ledger.db, d.temps, links[1..])
  }

  lemma {:induction false} LinkUpToSame(add: Adder, link: Adder, s: State, n: nat)
    requires AddsBlocks(add, link) && (s.ledger.genesis != 0 || s.ledger.last + 1 !in s.temps)
    ensures LinkUpTo(link, s, n) == LinkUpTo(add, s, n)
    decreases n
  {
    if s.ledger.last + 1 in s.temps {
      assert link(s.ledger, s.temps[s.ledger.last + 1]) == add(s.ledger, s.temps[s.ledger.last + 1]);
      if n > 0 && CanStep(add, s) {
        LinkUpToSame(add, link, Step(add, s).value, n - 1);
      }
    }
  }

  /** What an interrupted start leaves on disk. */
  lemma {:induction false} LinkedUpToIds(cfg: Config, s: State, n: nat)
    requires IdsOk(s.ledger) && TempsAhead(s) && (s.ledger.genesis != 0 || s.ledger.last + 1 !in s.temps)
    ensures var d := LinkUpTo(Linked(cfg), s, n);
      IdsOk(d.ledger) && TempsAhead(d) && (d.ledger.genesis != 0 || d.ledger.last + 1 !in d.temps)
  {
    hide AddBlock, LinkBlock, LinkUpTo, IdsOk;
    AddersOk(cfg);
    LinkUpToSame(Adding(cfg), Linked(cfg), s, n);
    if s.ledger.genesis != 0 {
      var m := LinkUpToIsSteps(Adding(cfg), s, n);
      AddKeepsChain(cfg);
      StepsThenAbsorb(Adding(cfg), Linked(cfg), l => IdsOk(l) && l.genesis != 0, s, m);
    } else {
      NothingToLink(Linked(cfg), s, n);
    }
  }

  lemma {:induction false} NothingToLink(link: Adder, s: State, n: nat)
    requires s.ledger.last + 1 !in s.temps
    ensures LinkUpTo(link, s, n) == s
  {
  }

  /** However often a start is interrupted, an adapter that opens has its ids in order and nothing left to link. */
  lemma {:induction false} RestartsKeepBookkeeping(cfg: Config, d: State, links: seq<nat>)
    requires IdsOk(d.ledger) && TempsAhead(d) && (d.ledger.genesis != 0 || d.ledger.last + 1 !in d.temps)
    requires Restarts(cfg, d.ledger.db, d.temps, links).Ok?
    ensures var s := Restarts(cfg, d.ledger.db, d.temps, links).value;
      IdsOk(s.ledger) && Settled(s)
    decreases |links|
  {
    hide Open, LatestRoot, LoadLast, LoadGenesis, LinkUpTo;
    if links == [] {
      OpenKeepsBookkeeping(cfg, d);
    } else {
      CachedIdsReload(d.ledger);
      var s := State(Load(d.ledger.db).value, d.temps, LatestTemp(d.temps));
      LinkedUpToIds(cfg, s, links[0]);
      RestartsKeepBookkeeping(cfg, LinkUpTo(Linked(cfg), s, links[0]), links[1..]);
    }
  }

  /** One interrupted start makes no difference to the next. */
  lemma {:induction false} InterruptedStart(cfg: Config, d: State, n: nat)
    requires IdsOk(d.ledger) && RootsOk(d.ledger.db) && TempsAhead(d)
    requires (d.ledger.genesis != 0 || d.ledger.last + 1 !in d.temps) && Load(d.ledger.db).Ok?
    ensures var mid := LinkUpTo(Linked(cfg), State(Load(d.ledger.db).value, d.temps, LatestTemp(d.temps)), n);
      && IdsOk(mid.ledger) && RootsOk(mid.ledger.db) && TempsAhead(mid)
      && (mid.ledger.genesis != 0 || mid.ledger.last + 1 !in mid.temps)
      && Open(cfg, mid.ledger.db, mid.temps) == Open(cfg, d.ledger.db, d.temps)
  {
    hide AddBlock, LinkBlock, Load, Open, LinkUpTo, IdsOk, Synced, RootsOk;
    LoadedSynced(d.ledger);
    var s := State(Load(d.ledger.db).value, d.temps, LatestTemp(d.temps));
    AddersOk(cfg);
    LinkedUpToIds(cfg, s, n);
    OpenAbsorbs(cfg, s);
    if s.ledger.genesis == 0 {
      NothingToLink(Linked(cfg), s, n);
    } else {
      LinkUpToSame(Adding(cfg), Linked(cfg), s, n);
      var m := LinkUpToIsSteps(Adding(cfg), s, n);
      AddKeepsSound(cfg);
      StepsThenAbsorb(Adding(cfg), Linked(cfg), l => Sound(l), s, m);
      OpenAbsorbs(cfg, LinkUpTo(Linked(cfg), s, n));
    }
  }

  /** Ids, cached root and stored roots are in order. */
  ghost predicate Sound(l: Ledger) {
    Recoverable(l) && RootsOk(l.db)
  }

  lemma {:induction false} AddKeepsSound(cfg: Config)
    ensures Keeps(Adding(cfg), l => Sound(l))
  {
    hide IdsOk, Synced, RootsOk, AddBlock;
    AddersOk(cfg);
    forall l: Ledger, b: RawBlock | Sound(l) && Adding(cfg)(l, b).Ok?
      ensures Sound(Adding(cfg)(l, b).value)
    {
      AddKeepsIds(cfg, l, b);
      AddKeepsSync(cfg, l, b);
      AddKeepsRoots(cfg, l, b);
    }
  }

  /**
   * Crashes of the constructor itself, after any number of its link transactions and any number of
   * times, make no difference: the last start ends as the first one would have, errors included.
   */
  lemma {:induction false} RestartsAreOne(cfg: Config, d: State, links: seq<nat>)
    requires IdsOk(d.ledger) && RootsOk(d.ledger.db) && TempsAhead(d)
    requires d.ledger.genesis != 0 || d.ledger.last + 1 !in d.temps
    ensures Restarts(cfg, d.ledger.db, d.temps, links) == Open(cfg, d.ledger.db, d.temps)
    decreases |links|
  {
    hide LinkUpTo, Load, IdsOk, RootsOk, LinkLoop;
    if links != [] && Load(d.ledger.db).Ok? {
      InterruptedStart(cfg, d, links[0]);
      var s := State(Load(d.ledger.db).value, d.temps, LatestTemp(d.temps));
      RestartsAreOne(cfg, LinkUpTo(Linked(cfg), s, links[0]), links[1..]);
    }
  }

  /** What a crash inside addRawBlock leaves has consistent roots. */
  lemma {:induction false} CrashedRoots(cfg: Config, s: State, block: RawBlock, id: nat, n: nat)
    requires IdsOk(s.ledger) && RootsOk(s.ledger.db) && Settled(s)
    ensures RootsOk(Crashed(cfg, s, block, id, n).ledger.db)
  {
    hide AddBlock, LinkBlock, LinkUpTo, IdsOk, RootsOk;
    if id == s.ledger.last + 1 && Adding(cfg)(s.ledger, block).Ok? {
      AddersOk(cfg);
      AddKeepsRoots(cfg, s.ledger, block);
      var s1 := s.(ledger := Adding(cfg)(s.ledger, block).value);
      var m := LinkUpToIsSteps(Adding(cfg), s1, n);
      AddKeepsRootsAlways(cfg);
      StepsThenAbsorb(Adding(cfg), Linked(cfg), (l: Ledger) => RootsOk(l.db), s1, m);
    }
  }

  lemma {:induction false} AddKeepsRootsAlways(cfg: Config)
    ensures Keeps(Adding(cfg), (l: Ledger) => RootsOk(l.db))
  {
    hide RootsOk, AddBlock;
    forall l: Ledger, b: RawBlock | RootsOk(l.db) && Adding(cfg)(l, b).Ok?
      ensures RootsOk(Adding(cfg)(l, b).value.db)
    {
      AddKeepsRoots(cfg, l, b);
    }
  }

  /** The roots of a represented chain are consistent. */
  lemma {:induction false} InvRoots(cfg: Config, l: Ledger, c: Chain)
    requires Inv(cfg, l, c)
    ensures RootsOk(l.db)
  {
    hide Expect, Update;
    forall w: nat | InternalKey(w, []) in l.db
      ensures var v := l.db[InternalKey(w, [])];
        v.InternalVal? && TreeOk(v.tree) && v.tree.version == w
    {
      assert Lookup(l.db, InternalKey(w, [])) == Expect(cfg, c, l.genesis, InternalKey(w, []));
      RootIs(cfg, c, l.genesis, w);
    }
  }

  lemma {:induction false} RootIs(cfg: Config, c: Chain, g: nat, w: nat)
    requires ChainOk(cfg, c) && Expect(cfg, c, g, InternalKey(w, [])).Some?
    ensures var v := Expect(cfg, c, g, InternalKey(w, [])).value;
      v.InternalVal? && TreeOk(v.tree) && v.tree.version == w
  {
    var i :| OldestTree(g) <= i <= |c| && HasItem(TreeAt(c, i), ROOT, w);
    TreesOk(cfg, c, i);
    var j := Writer(c, w, |c|);
    TreesOk(cfg, c, j);
    VersionsGrow(cfg, c, i, |c|);
    WriterExists(cfg, c, w, |c|);
  }
}
