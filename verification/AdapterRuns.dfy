/** Whole runs of the adapter: what every run keeps, and what clean runs mean. */
module AdapterRuns {
  import opened Common
  import opened SparseTree
  import opened AdapterSpec
  import opened ChainView
  import opened Reading
  import opened Growth
  import opened OnlyBlock
  import opened Pruning
  import opened Rollback
  import opened Linking
  import opened Recovery
  import opened Crashes

  /** Starts may be interrupted themselves: restarts holds the link transactions of each start but the last. */
  datatype Op =
    | AddOp(updates: map<Key, Value>, deletes: set<Key>)
    | AddRawOp(block: RawBlock, id: nat)
    | DeleteOp(id: nat)
    | DeleteLastOp
    | RestartOp(restarts: seq<nat>)
    | CrashOp(block: RawBlock, id: nat, links: nat, restarts: seq<nat>)

  function Lift(s: State, r: Result<Ledger>): Result<State> {
    match r case Ok(l) => Ok(s.(ledger := l)) case Err(e) => Err(e)
  }

  /** deleteBlock. */
  function DeleteBlock(cfg: Config, s: State, id: nat): Result<State> {
    var l := s.ledger;
    if id < INITIAL_GENESIS_BLOCK_ID || LatestBlockId(s) == 0 || id > LatestBlockId(s) then Ok(s)
    else if id > l.last then Ok(s.(temps := s.temps - {id}, latestTemp := LatestTemp(s.temps - {id})))
    else if id == l.last && id == l.genesis then Err(LogicError)
    else if id == l.last then Lift(s, DeleteLast(cfg, l))
    else if id == l.genesis then Lift(s, DeleteGenesis(cfg, l))
    else Err(InvalidArgument)
  }

  function Apply(cfg: Config, s: State, op: Op): Result<State> {
    match op
    case AddOp(updates, deletes) => Lift(s, AddBlock(cfg, s.ledger, updates, deletes))
    case AddRawOp(block, id) => AddRawBlock(cfg, s, block, id)
    case DeleteOp(id) => DeleteBlock(cfg, s, id)
    case DeleteLastOp => Lift(s, DeleteLast(cfg, s.ledger))
    case RestartOp(restarts) => Restarts(cfg, s.ledger.db, s.temps, restarts)
    case CrashOp(block, id, links, restarts) =>
      var d := Crashed(cfg, s, block, id, links);
      Restarts(cfg, d.ledger.db, d.temps, restarts)
  }

  /** There is no adapter after an abort or after a constructor that throws. */
  predicate Ends(op: Op, e: Error) {
    e == Aborted || op.RestartOp? || op.CrashOp?
  }

  /** A run; any other exception leaves the state as it was. */
  function Run(cfg: Config, s: State, ops: seq<Op>): Option<State>
    decreases |ops|
  {
    if ops == [] then Some(s)
    else match Apply(cfg, s, ops[0])
      case Ok(s') => Run(cfg, s', ops[1..])
      case Err(e) => if Ends(ops[0], e) then None else Run(cfg, s, ops[1..])
  }

  /** An adapter opened on an empty database. */
  predicate IsEmpty(s: State) {
    s == State(Ledger(map[], 0, 0, EMPTY_TREE), map[], None)
  }

  // ---------- bookkeeping on every run ----------

  /** addBlock is not called while temporary blocks are waiting. */
  predicate NoAddWhileWaiting(cfg: Config, s: State, ops: seq<Op>)
    decreases |ops|
  {
    ops == [] ||
    (&& (ops[0].AddOp? ==> s.temps == map[])
     && match Apply(cfg, s, ops[0])
        case Ok(s') => NoAddWhileWaiting(cfg, s', ops[1..])
        case Err(e) => Ends(ops[0], e) || NoAddWhileWaiting(cfg, s, ops[1..]))
  }

  lemma {:induction false} AddRawKeeps(
    add: Adder, link: Adder, good: Ledger -> bool, s: State, block: RawBlock, id: nat)
    requires AddsBlocks(add, link) && Keeps(add, good)
    requires Settled(s) && good(s.ledger) && AddRawWith(add, link, s, block, id).Ok?
    ensures Settled(AddRawWith(add, link, s, block, id).value)
    ensures good(AddRawWith(add, link, s, block, id).value.ledger)
  {
    if id in s.temps {
      assert s.temps[id := block].Keys == s.temps.Keys;
    } else {
      AddRawBlockAbsorbs(add, link, s, block, id);
      var s2 := WithTemps(s, map[id := block]);
      assert TempsAhead(s2);
      AbsorbKeeps(add, link, good, s2);
    }
  }

  /** Opening a settled adapter changes nothing but the cached tree root. */
  lemma {:induction false} OpenSettled(cfg: Config, s: State)
    requires IdsOk(s.ledger) && Settled(s) && Open(cfg, s.ledger.db, s.temps).Ok?
    ensures Open(cfg, s.ledger.db, s.temps).value
         == s.(ledger := s.ledger.(tree := Open(cfg, s.ledger.db, s.temps).value.ledger.tree))
    ensures LatestRoot(s.ledger.db, s.ledger.last) == Ok(Open(cfg, s.ledger.db, s.temps).value.ledger.tree)
  {
    CachedIdsReload(s.ledger);
  }

  lemma {:induction false} DeleteTempSettled(s: State, id: nat)
    requires Settled(s)
    ensures Settled(s.(temps := s.temps - {id}, latestTemp := LatestTemp(s.temps - {id})))
  {
  }

  lemma {:induction false} StepKeepsBookkeeping(cfg: Config, s: State, op: Op)
    requires IdsOk(s.ledger) && Settled(s) && (op.AddOp? ==> s.temps == map[])
    requires Apply(cfg, s, op).Ok?
    ensures IdsOk(Apply(cfg, s, op).value.ledger) && Settled(Apply(cfg, s, op).value)
  {
    hide DiesWithLast, DiesWithGenesis, LoadGenesis, LoadLast;
    hide Writes, MakePlan, BlockUpdates, LinkLoop, Crashed, Restarts;
    match op
    case AddOp(updates, deletes) =>
      AddKeepsIds(cfg, s.ledger, RawBlock(updates, deletes, ZeroDigest, StateHash(map[])));
    case AddRawOp(block, id) =>
      AddersOk(cfg);
      AddKeepsIdsAlways(cfg);
      AddRawKeeps(Adding(cfg), Linked(cfg), l => IdsOk(l), s, block, id);
    case DeleteOp(id) =>
      DeleteKeepsIds(cfg, s.ledger);
      DeleteTempSettled(s, id);
    case DeleteLastOp =>
      DeleteKeepsIds(cfg, s.ledger);
    case RestartOp(restarts) =>
      RestartsKeepBookkeeping(cfg, s, restarts);
    case CrashOp(block, id, links, restarts) =>
      CrashedIds(cfg, s, block, id, links);
      RestartsKeepBookkeeping(cfg, Crashed(cfg, s, block, id, links), restarts);
  }

  /**
   * Over every run in which addBlock is not called while temporary blocks are waiting, crashes
   * between the link transactions of addRawBlock included, the blocks are exactly [genesis, last],
   * every temporary id exceeds last + 1, and the cached ids are what a restart would load.
   */
  lemma {:induction false} BookkeepingOnEveryRun(cfg: Config, s: State, ops: seq<Op>)
    requires IdsOk(s.ledger) && Settled(s) && NoAddWhileWaiting(cfg, s, ops)
    requires Run(cfg, s, ops).Some?
    ensures var end := Run(cfg, s, ops).value;
      && IdsOk(end.ledger) && Settled(end)
      && LoadGenesis(end.ledger.db) == end.ledger.genesis
      && LoadLast(end.ledger.db) == end.ledger.last
      && LatestTemp(end.temps) == end.latestTemp
    decreases |ops|
  {
    if ops == [] {
      CachedIdsReload(s.ledger);
    } else if Apply(cfg, s, ops[0]).Ok? {
      StepKeepsBookkeeping(cfg, s, ops[0]);
      BookkeepingOnEveryRun(cfg, Apply(cfg, s, ops[0]).value, ops[1..]);
    } else {
      BookkeepingOnEveryRun(cfg, s, ops[1..]);
    }
  }

  // ---------- clean runs refine an abstract chain ----------

  /** The deletes of a block hit live keys, and a block that leaves the tree alone finds the right root cached. */
  predicate CleanAdd(cfg: Config, l: Ledger, updates: map<Key, Value>, deletes: set<Key>) {
    && deletes !! cfg.nonProvable
    && DeletesLive(l, updates, deletes)
    && (LatestRoot(l.db, l.last) == Ok(l.tree) || ReadsRoot(cfg, l, updates, deletes))
  }

  /** Every block that gets linked is clean when its turn comes. */
  predicate CleanLinks(cfg: Config, s: State)
    decreases |s.temps.Keys|
  {
    if s.ledger.last + 1 in s.temps then
      var block := s.temps[s.ledger.last + 1];
      && CleanAdd(cfg, s.ledger, block.updates, block.deletes)
      && (CanStep(Adding(cfg), s) ==>
           (StepShrinks(Adding(cfg), s); CleanLinks(cfg, Step(Adding(cfg), s).value)))
    else true
  }

  predicate ChangesTree(cfg: Config, node: Node) {
    exists k :: k in node.keys && k !in cfg.nonProvable
  }

  /** The last block deleted nothing and has a tree version of its own, or there is no tree yet. */
  predicate OwnVersion(cfg: Config, node: Node) {
    (forall k :: k in node.keys ==> !node.keys[k]) && (ChangesTree(cfg, node) || node.version == 0)
  }

  /** Pruning left only what belongs to the last block. */
  predicate NothingElse(cfg: Config, l: Ledger, node: Node) {
    && (forall y :: y in l.db && y.NpKey? ==> y.id == l.last)
    && if ChangesTree(cfg, node) then node.version == 1 else forall y :: y in l.db ==> !y.LeafKey?
  }

  predicate CleanRollback(cfg: Config, l: Ledger) {
    match NodeAt(l.db, l.last)
    case None => true
    case Some(node) =>
      if l.genesis < l.last || l.last <= 1 then OwnVersion(cfg, node) else NothingElse(cfg, l, node)
  }

  predicate CleanReceive(cfg: Config, s: State, block: RawBlock, id: nat) {
    id == s.ledger.last + 1 ==> CleanLinks(cfg, WithTemps(s, map[id := block]))
  }

  /** Conditions a caller can check before a call; reads need none. */
  predicate Clean(cfg: Config, s: State, op: Op) {
    match op
    case AddOp(updates, deletes) => s.temps == map[] && CleanAdd(cfg, s.ledger, updates, deletes)
    case AddRawOp(block, id) => CleanReceive(cfg, s, block, id)
    case DeleteOp(id) => id == s.ledger.last ==> CleanRollback(cfg, s.ledger)
    case DeleteLastOp => CleanRollback(cfg, s.ledger)
    case RestartOp(_) => true
    case CrashOp(block, id, _, _) => CleanReceive(cfg, s, block, id)
  }

  predicate CleanRun(cfg: Config, s: State, ops: seq<Op>)
    decreases |ops|
  {
    ops == [] ||
    (&& Clean(cfg, s, ops[0])
     && match Apply(cfg, s, ops[0])
        case Ok(s') => CleanRun(cfg, s', ops[1..])
        case Err(_) => CleanRun(cfg, s, ops[1..]))
  }

  /** The abstract adapter: a chain, the id of its first block still there, and waiting blocks. */
  datatype View = View(c: Chain, genesis: nat, temps: map<nat, RawBlock>)

  function ViewAdd(cfg: Config, v: View, updates: map<Key, Value>, deletes: set<Key>): View {
    View(Extend(cfg, v.c, EffectiveBlk(v.c, updates, deletes)), GenesisAfterAdd(v.genesis), v.temps)
  }

  /** Waiting blocks join the chain for as long as the next one is there. */
  function ViewLink(cfg: Config, v: View): View
    decreases |v.temps.Keys|
  {
    var id := |v.c| + 1;
    if id in v.temps then
      var v' := ViewAdd(cfg, v, v.temps[id].updates, v.temps[id].deletes).(temps := v.temps - {id});
      assert v'.temps.Keys == v.temps.Keys - {id};
      ViewLink(cfg, v')
    else v
  }

  function ViewReceive(cfg: Config, v: View, block: RawBlock, id: nat): View {
    if id <= |v.c| then v else ViewLink(cfg, v.(temps := v.temps + map[id := block]))
  }

  function ViewDropLast(v: View): View {
    if v.c == [] then v
    else View(Remaining(v.genesis, v.c[..|v.c| - 1]), GenesisAfterDelete(v.genesis, |v.c|), v.temps)
  }

  function ViewApply(cfg: Config, v: View, op: Op): View {
    match op
    case AddOp(updates, deletes) => if deletes !! cfg.nonProvable then ViewAdd(cfg, v, updates, deletes) else v
    case AddRawOp(block, id) => ViewReceive(cfg, v, block, id)
    case DeleteOp(id) =>
      if id > |v.c| then v.(temps := v.temps - {id})
      else if id == 0 || (id == |v.c| && id == v.genesis) then v
      else if id == |v.c| then ViewDropLast(v)
      else if id == v.genesis then v.(genesis := v.genesis + 1)
      else v
    case DeleteLastOp => ViewDropLast(v)
    case RestartOp(_) => v
    case CrashOp(block, id, _, _) => ViewReceive(cfg, v, block, id)
  }

  function ViewRun(cfg: Config, v: View, ops: seq<Op>): View
    decreases |ops|
  {
    if ops == [] then v else ViewRun(cfg, ViewApply(cfg, v, ops[0]), ops[1..])
  }

  /** The adapter state stands for the view. */
  ghost predicate Represents(cfg: Config, s: State, v: View) {
    && Inv(cfg, s.ledger, v.c) && s.ledger.genesis == v.genesis
    && s.temps == v.temps && Settled(s)
  }

  lemma {:induction false} CleanIsAddable(cfg: Config, l: Ledger, c: Chain, updates: map<Key, Value>, deletes: set<Key>)
    requires Inv(cfg, l, c) && CleanAdd(cfg, l, updates, deletes)
    ensures Addable(cfg, l, c, updates, deletes)
  {
    LatestRootIs(cfg, l.db, c, l.genesis);
    DeletedAreLive(cfg, l, c, updates, deletes);
  }

  lemma {:induction false} LinkStepIs(add: Adder, s: State, l: Ledger)
    requires s.ledger.last + 1 in s.temps && TempsAhead(s)
    requires add(s.ledger, s.temps[s.ledger.last + 1]) == Ok(l) && l.last == s.ledger.last + 1
    ensures CanStep(add, s) && Step(add, s) == Ok(s.(ledger := l, temps := s.temps - {s.ledger.last + 1}))
    ensures TempsAhead(Step(add, s).value)
  {
  }

  /** One clean waiting block joins the chain, and what it leaves is clean. */
  lemma {:induction false} LinkOneRefines(cfg: Config, s: State, v: View, block: RawBlock)
    requires Inv(cfg, s.ledger, v.c) && s.ledger.genesis == v.genesis && s.temps == v.temps
    requires TempsAhead(s) && CleanLinks(cfg, s)
    requires s.ledger.last + 1 in s.temps && block == s.temps[s.ledger.last + 1]
    ensures CanStep(Adding(cfg), s)
    ensures var next, v' := Step(Adding(cfg), s).value, ViewAdd(cfg, v, block.updates, block.deletes);
      && Inv(cfg, next.ledger, v'.c) && next.ledger.genesis == v'.genesis
      && next.temps == v.temps - {s.ledger.last + 1}
      && TempsAhead(next) && CleanLinks(cfg, next)
  {
    hide AddBlock, Holds, ChainOk, Addable, Update;
    CleanIsAddable(cfg, s.ledger, v.c, block.updates, block.deletes);
    AddBlockExtends(cfg, s.ledger, v.c, block.updates, block.deletes);
    LinkStepIs(Adding(cfg), s, AddBlock(cfg, s.ledger, block.updates, block.deletes).value);
    StepShrinks(Adding(cfg), s);
  }

  /** Linking clean blocks succeeds and adds exactly those blocks to the chain. */
  lemma {:induction false} LinksRefine(cfg: Config, s: State, v: View)
    requires Inv(cfg, s.ledger, v.c) && s.ledger.genesis == v.genesis && s.temps == v.temps
    requires TempsAhead(s) && CleanLinks(cfg, s)
    ensures Absorb(Adding(cfg), s).Ok?
    ensures Represents(cfg, Absorb(Adding(cfg), s).value, ViewLink(cfg, v))
    decreases |s.temps.Keys|
  {
    hide Holds, ChainOk, CleanLinks, ViewAdd, Step;
    var id := s.ledger.last + 1;
    if id in s.temps {
      var block := s.temps[id];
      LinkOneRefines(cfg, s, v, block);
      StepShrinks(Adding(cfg), s);
      LinksRefine(cfg, Step(Adding(cfg), s).value,
                  ViewAdd(cfg, v, block.updates, block.deletes).(temps := v.temps - {id}));
    }
  }

  lemma {:induction false} AddRawRefines(cfg: Config, s: State, v: View, block: RawBlock, id: nat)
    requires Represents(cfg, s, v) && CleanReceive(cfg, s, block, id) && id > s.ledger.last
    ensures AddRawBlock(cfg, s, block, id).Ok?
    ensures Represents(cfg, AddRawBlock(cfg, s, block, id).value, ViewReceive(cfg, v, block, id))
  {
    hide Holds, ChainOk, AddBlock, LinkBlock, CleanAdd;
    var s2 := WithTemps(s, map[id := block]);
    assert s2.temps.Keys == s.temps.Keys + {id};
    if id == s.ledger.last + 1 {
      LinksRefine(cfg, s2, v.(temps := v.temps + map[id := block]));
      AddersOk(cfg);
      AddRawBlockAbsorbs(Adding(cfg), Linked(cfg), s, block, id);
    } else {
      assert s.temps[id := block] == s2.temps;
    }
  }

  /** A last block that leaves no trace is rolled back to the chain that remains. */
  lemma {:induction false} RollbackKeepsInv(cfg: Config, l: Ledger, c: Chain, e: Entry)
    requires Inv(cfg, l, c + [e]) && LeavesNoTrace(cfg, l.genesis, c, e.blk)
    ensures DeleteLast(cfg, l).Ok? && Inv(cfg, DeleteLast(cfg, l).value, Remaining(l.genesis, c))
    ensures DeleteLast(cfg, l).value.genesis == GenesisAfterDelete(l.genesis, |c| + 1)
  {
    hide DeleteLast, NoNpWrites;
    var n := |c| + 1;
    BlockVersion(cfg, c + [e], n);
    assert TreeAt(c + [e], n - 1) == LastTree(c);
    TreesOk(cfg, c + [e], n);
    DeleteLastExact(cfg, l, c, e);
    forall i | 1 <= i <= n - 1
      ensures EntryOk(cfg, c, i)
    {
      assert EntryOk(cfg, c + [e], i);
    }
  }

  lemma {:induction false} LastNode(cfg: Config, l: Ledger, c: Chain, e: Entry)
    requires Inv(cfg, l, c + [e])
    ensures var node := NodeAt(l.db, l.last);
      && node == Some(NodeOf(c + [e], |c| + 1))
      && node.value.version == LastTree(c).version + (if TouchesTree(cfg, e.blk) then 1 else 0)
      && (ChangesTree(cfg, node.value) <==> TouchesTree(cfg, e.blk))
      && ((forall k :: k in node.value.keys ==> !node.value.keys[k]) <==> e.blk.deletes == {})
  {
    var c', n := c + [e], |c| + 1;
    assert Lookup(l.db, BlockKey(n)) == Expect(cfg, c', l.genesis, BlockKey(n));
    BlockVersion(cfg, c', n);
    assert TreeAt(c', n - 1) == LastTree(c);
    assert EntryOk(cfg, c', n);
    var node := NodeOf(c', n);
    assert forall k :: k in e.blk.deletes ==> k in node.keys && node.keys[k] && k !in cfg.nonProvable;
    assert forall k :: k in e.blk.updates ==> k in node.keys;
  }

  /** The only block left of a pruned chain is traceless if and only if pruning left nothing else. */
  lemma {:induction false} NothingElseExact(cfg: Config, l: Ledger, c: Chain, e: Entry)
    requires Inv(cfg, l, c + [e]) && l.genesis == |c| + 1 && c != []
    ensures NothingElse(cfg, l, NodeOf(c + [e], |c| + 1)) <==> Traceless(cfg, c, e.blk)
  {
    hide Traceless, ChangesTree, TouchesTree;
    LastNode(cfg, l, c, e);
    if Traceless(cfg, c, e.blk) {
      NothingElseStays(cfg, l, c, e);
    } else {
      SomethingElse(cfg, l, c, e);
    }
  }

  lemma {:induction false} NothingElseStays(cfg: Config, l: Ledger, c: Chain, e: Entry)
    requires Inv(cfg, l, c + [e]) && l.genesis == |c| + 1 && c != [] && Traceless(cfg, c, e.blk)
    ensures NothingElse(cfg, l, NodeOf(c + [e], |c| + 1))
  {
    LastNode(cfg, l, c, e);
    forall y | y in l.db
      ensures Dies(cfg, c, e, y)
    {
      assert Lookup(l.db, y) == Expect(cfg, c + [e], l.genesis, y);
      KeyGoes(cfg, c, e, y);
    }
  }

  lemma {:induction false} SomethingElse(cfg: Config, l: Ledger, c: Chain, e: Entry)
    requires Inv(cfg, l, c + [e]) && l.genesis == |c| + 1 && c != [] && !Traceless(cfg, c, e.blk)
    ensures !NothingElse(cfg, l, NodeOf(c + [e], |c| + 1))
  {
    LastNode(cfg, l, c, e);
    var y := SomethingStays(cfg, c, e);
    assert Lookup(l.db, y) == Expect(cfg, c + [e], l.genesis, y);
  }

  /** What a caller can check about the last block is exactly what its rollback needs. */
  lemma {:induction false} CleanRollbackExact(cfg: Config, l: Ledger, c: Chain, e: Entry)
    requires Inv(cfg, l, c + [e])
    ensures CleanRollback(cfg, l) <==> LeavesNoTrace(cfg, l.genesis, c, e.blk)
  {
    hide Holds, ChainOk, Traceless, NothingElse;
    LastNode(cfg, l, c, e);
    if l.genesis == |c| + 1 && c != [] {
      NothingElseExact(cfg, l, c, e);
    }
  }

  lemma {:induction false} RollbackRefines(cfg: Config, s: State, v: View)
    requires Represents(cfg, s, v) && Clean(cfg, s, DeleteLastOp)
    ensures DeleteLast(cfg, s.ledger).Ok?
    ensures Represents(cfg, s.(ledger := DeleteLast(cfg, s.ledger).value), ViewDropLast(v))
  {
    hide CleanRollback, Holds, ChainOk, LeavesNoTrace;
    var n := |v.c|;
    if n > 0 {
      var c, e := v.c[..n - 1], v.c[n - 1];
      assert v.c == c + [e];
      CleanRollbackExact(cfg, s.ledger, c, e);
      RollbackKeepsInv(cfg, s.ledger, c, e);
    }
  }

  lemma {:induction false} DeleteRefines(cfg: Config, s: State, v: View, id: nat)
    requires Represents(cfg, s, v) && Clean(cfg, s, DeleteOp(id))
    ensures match DeleteBlock(cfg, s, id)
      case Ok(s') => Represents(cfg, s', ViewApply(cfg, v, DeleteOp(id)))
      case Err(e) => e != Aborted && ViewApply(cfg, v, DeleteOp(id)) == v
  {
    var l := s.ledger;
    if id > l.last {
      if LatestBlockId(s) == 0 || id > LatestBlockId(s) {
        assert s.temps - {id} == s.temps;
      } else {
        DeleteTempSettled(s, id);
      }
    } else if id == l.last && id != l.genesis && id > 0 {
      RollbackRefines(cfg, s, v);
    } else if id == l.genesis && id != l.last && id > 0 {
      DeleteGenesisPrunes(cfg, l, v.c);
    }
  }

  lemma {:induction false} RestartRefines(cfg: Config, s: State, v: View)
    requires Represents(cfg, s, v)
    ensures Open(cfg, s.ledger.db, s.temps)
         == Ok(s.(ledger := s.ledger.(tree := LastTree(v.c))))
    ensures Represents(cfg, Open(cfg, s.ledger.db, s.temps).value, v)
  {
    LatestRootIs(cfg, s.ledger.db, v.c, s.ledger.genesis);
    RepresentsIds(cfg, s.ledger, v.c);
    CachedIdsReload(s.ledger);
    OpenSettled(cfg, s);
  }

  /** A represented chain has its ids in order. */
  lemma {:induction false} RepresentsIds(cfg: Config, l: Ledger, c: Chain)
    requires Inv(cfg, l, c)
    ensures IdsOk(l)
  {
    forall i: nat
      ensures BlockKey(i) in l.db <==> InRange(i, l.genesis, l.last)
      ensures BlockKey(i) in l.db ==> l.db[BlockKey(i)].NodeVal?
    {
      assert Lookup(l.db, BlockKey(i)) == Expect(cfg, c, l.genesis, BlockKey(i));
    }
    forall since: nat, y | StaleKey(since, y) in l.db
      ensures KeyItem(y).Some?
    {
      assert Lookup(l.db, StaleKey(since, y)) == Expect(cfg, c, l.genesis, StaleKey(since, y));
    }
    forall since: nat, y | NpStaleKey(since, y) in l.db
      ensures y.NpKey?
    {
      assert Lookup(l.db, NpStaleKey(since, y)) == Expect(cfg, c, l.genesis, NpStaleKey(since, y));
    }
  }

  /** A crash inside addRawBlock leads where the call leads. */
  lemma {:induction false} CrashRefines(cfg: Config, s: State, v: View, block: RawBlock, id: nat, n: nat)
    requires Represents(cfg, s, v) && CleanReceive(cfg, s, block, id)
    ensures var d := Crashed(cfg, s, block, id, n);
      var r := Open(cfg, d.ledger.db, d.temps);
      r.Ok? && Represents(cfg, r.value, ViewReceive(cfg, v, block, id))
  {
    hide Open, Holds, ChainOk, AddRawWith, CleanAdd, AddBlock, LinkBlock, ViewLink, CleanLinks;
    if id <= s.ledger.last {
      RestartRefines(cfg, s, v);
    } else if id > s.ledger.last + 1 {
      WaitingRefines(cfg, s, v, block, id);
    } else {
      GapClosedRefines(cfg, s, v, block, n);
    }
  }

  lemma {:induction false} WaitingRefines(cfg: Config, s: State, v: View, block: RawBlock, id: nat)
    requires Represents(cfg, s, v) && id > s.ledger.last + 1
    ensures var r := Open(cfg, s.ledger.db, s.temps[id := block]);
      r.Ok? && Represents(cfg, r.value, ViewReceive(cfg, v, block, id))
  {
    hide Open, Holds, ChainOk, Update;
    AddRawRefines(cfg, s, v, block, id);
    var s' := AddRawBlock(cfg, s, block, id).value;
    assert s'.ledger == s.ledger && s'.temps == s.temps[id := block];
    RestartRefines(cfg, s', ViewReceive(cfg, v, block, id));
  }

  lemma {:induction false} GapClosedRefines(cfg: Config, s: State, v: View, block: RawBlock, n: nat)
    requires Represents(cfg, s, v) && CleanReceive(cfg, s, block, s.ledger.last + 1)
    ensures var d := Crashed(cfg, s, block, s.ledger.last + 1, n);
      var r := Open(cfg, d.ledger.db, d.temps);
      r.Ok? && Represents(cfg, r.value, ViewReceive(cfg, v, block, s.ledger.last + 1))
  {
    hide Open, Holds, ChainOk, AddRawWith, AddBlock, LinkBlock, ViewLink, LinkUpTo, LinkSteps, Synced;
    var id := s.ledger.last + 1;
    AddRawRefines(cfg, s, v, block, id);
    RepresentsIds(cfg, s.ledger, v.c);
    GapCleanAdd(cfg, s, block);
    CleanIsAddable(cfg, s.ledger, v.c, block.updates, block.deletes);
    AddBlockExtends(cfg, s.ledger, v.c, block.updates, block.deletes);
    LatestRootIs(cfg, s.ledger.db, v.c, s.ledger.genesis);
    var m := LinkUpToIsSteps(Adding(cfg), s.(ledger := Adding(cfg)(s.ledger, block).value), n);
    CrashWhileLinkingExact(cfg, s, v.c, block, m);
  }

  /** Interrupted starts lead where one start leads. */
  lemma {:induction false} RestartsRefine(cfg: Config, s: State, v: View, restarts: seq<nat>)
    requires Represents(cfg, s, v)
    ensures Restarts(cfg, s.ledger.db, s.temps, restarts) == Open(cfg, s.ledger.db, s.temps)
  {
    hide Restarts, Open, Holds, ChainOk;
    RepresentsIds(cfg, s.ledger, v.c);
    InvRoots(cfg, s.ledger, v.c);
    RestartsAreOne(cfg, s, restarts);
  }

  lemma {:induction false} CrashRestartsRefine(
    cfg: Config, s: State, v: View, block: RawBlock, id: nat, n: nat, restarts: seq<nat>)
    requires Represents(cfg, s, v)
    ensures var d := Crashed(cfg, s, block, id, n);
      Restarts(cfg, d.ledger.db, d.temps, restarts) == Open(cfg, d.ledger.db, d.temps)
  {
    hide Restarts, Open, Holds, ChainOk, Crashed, RootsOk;
    RepresentsIds(cfg, s.ledger, v.c);
    InvRoots(cfg, s.ledger, v.c);
    CrashedIds(cfg, s, block, id, n);
    CrashedRoots(cfg, s, block, id, n);
    RestartsAreOne(cfg, Crashed(cfg, s, block, id, n), restarts);
  }

  lemma {:induction false} GapCleanAdd(cfg: Config, s: State, block: RawBlock)
    requires CleanLinks(cfg, WithTemps(s, map[s.ledger.last + 1 := block]))
    ensures CleanAdd(cfg, s.ledger, block.updates, block.deletes)
  {
  }

  lemma {:induction false} StepRefines(cfg: Config, s: State, v: View, op: Op)
    requires Represents(cfg, s, v) && Clean(cfg, s, op)
    ensures match Apply(cfg, s, op)
      case Ok(s') => Represents(cfg, s', ViewApply(cfg, v, op))
      case Err(e) => !Ends(op, e) && ViewApply(cfg, v, op) == v
  {
    hide Crashed, Open, Restarts;
    match op
    case AddOp(updates, deletes) =>
      CleanIsAddable(cfg, s.ledger, v.c, updates, deletes);
      AddBlockExtends(cfg, s.ledger, v.c, updates, deletes);
    case AddRawOp(block, id) =>
      if id > s.ledger.last {
        AddRawRefines(cfg, s, v, block, id);
      }
    case DeleteOp(id) => DeleteRefines(cfg, s, v, id);
    case DeleteLastOp => RollbackRefines(cfg, s, v);
    case RestartOp(restarts) =>
      RestartRefines(cfg, s, v);
      RestartsRefine(cfg, s, v, restarts);
    case CrashOp(block, id, links, restarts) =>
      CrashRefines(cfg, s, v, block, id, links);
      CrashRestartsRefine(cfg, s, v, block, id, links, restarts);
  }

  /**
   * Every clean run of adding, receiving, pruning, rolling back, restarting and crashing refines the
   * abstract chain: it never aborts, and the database it ends with is, key by key, the one
   * determined by the abstract chain and its genesis block.
   */
  lemma {:induction false} CleanRunsRefine(cfg: Config, s: State, v: View, ops: seq<Op>)
    requires Represents(cfg, s, v) && CleanRun(cfg, s, ops)
    ensures Run(cfg, s, ops).Some? && Represents(cfg, Run(cfg, s, ops).value, ViewRun(cfg, v, ops))
    decreases |ops|
  {
    if ops != [] {
      StepRefines(cfg, s, v, ops[0]);
      if Apply(cfg, s, ops[0]).Ok? {
        CleanRunsRefine(cfg, Apply(cfg, s, ops[0]).value, ViewApply(cfg, v, ops[0]), ops[1..]);
      } else {
        CleanRunsRefine(cfg, s, ViewApply(cfg, v, ops[0]), ops[1..]);
      }
    }
  }

  lemma {:induction false} EmptyRepresents(cfg: Config, s: State)
    requires IsEmpty(s)
    ensures Represents(cfg, s, View([], 0, map[]))
  {
    forall y
      ensures Lookup(s.ledger.db, y) == Expect(cfg, [], 0, y)
    {
    }
  }

  /**
   * In every state a clean run reaches from an empty database, every read at a version of
   * the chain agrees with the history the run stands for, every raw block is rebuilt as it
   * was added, and each block stores the digest of its parent.
   */
  lemma {:induction false} ReachableStates(cfg: Config, s: State, ops: seq<Op>, k: Key, i: nat)
    requires IsEmpty(s) && CleanRun(cfg, s, ops)
    ensures Run(cfg, s, ops).Some?
    ensures var end := Run(cfg, s, ops).value;
      var v := ViewRun(cfg, View([], 0, map[]), ops);
      && end.ledger.genesis == v.genesis && end.ledger.last == |v.c| && end.temps == v.temps
      && (1 <= v.genesis <= i <= |v.c| ==>
           && GetValue(cfg, end.ledger.db, k, i) == ReadHistory(v.c, k, i)
           && GetRawBlock(cfg, end.ledger.db, end.temps, i) == Ok(v.c[i - 1].raw)
           && (i > v.genesis ==> v.c[i - 1].raw.parentDigest == DigestOf(i - 1, v.c[i - 2].raw)))
  {
    hide Run, ViewRun, CleanRun, GetValue, ReadHistory, GetRawBlock;
    var v := ViewRun(cfg, View([], 0, map[]), ops);
    EmptyRepresents(cfg, s);
    CleanRunsRefine(cfg, s, View([], 0, map[]), ops);
    var end := Run(cfg, s, ops).value;
    if 1 <= v.genesis <= i <= |v.c| {
      ReadsRefineHistory(cfg, end.ledger.db, v.c, v.genesis, k, i);
      RawBlockRebuilt(cfg, end.ledger.db, end.temps, v.c, v.genesis, i);
      assert EntryOk(cfg, v.c, i);
    }
  }

  // ---------- export and import ----------

  /** Adding blocks one after the other leads where the single steps lead. */
  lemma {:induction false} AddAllReaches(
    add: Adder, at: (Ledger, nat) -> bool, l: Ledger, blocks: seq<RawBlock>, all: seq<RawBlock>, n: nat)
    requires n <= |all| && blocks == all[n..] && at(l, n)
    requires forall l': Ledger, i: nat :: at(l', i) && i < |all| ==>
      add(l', all[i]).Ok? && at(add(l', all[i]).value, i + 1)
    ensures AddAll(add, l, blocks).Ok? && at(AddAll(add, l, blocks).value, |all|)
    decreases |blocks|
  {
    if blocks != [] {
      assert blocks[0] == all[n];
      AddAllReaches(add, at, add(l, all[n]).value, blocks[1..], all, n + 1);
    }
  }

  /** The first n blocks of a chain have been imported. */
  ghost predicate Imported(cfg: Config, c: Chain, l: Ledger, n: nat) {
    n <= |c| && Inv(cfg, l, c[..n]) && l.tree == LastTree(c[..n]) && l.genesis <= 1
  }

  lemma {:induction false} ImportChain(cfg: Config, s: State, c: Chain, blocks: seq<RawBlock>)
    requires IsEmpty(s)
    requires ChainOk(cfg, c) && |blocks| == |c|
    requires forall i :: 0 <= i < |blocks| ==> blocks[i] == c[i].raw
    ensures AddAll(Adding(cfg), s.ledger, blocks).Ok?
    ensures Imported(cfg, c, AddAll(Adding(cfg), s.ledger, blocks).value, |c|)
  {
    EmptyRepresents(cfg, s);
    assert c[..0] == [];
    assert Imported(cfg, c, s.ledger, 0);
    forall l: Ledger, i: nat | Imported(cfg, c, l, i) && i < |blocks|
      ensures Adding(cfg)(l, blocks[i]).Ok? && Imported(cfg, c, Adding(cfg)(l, blocks[i]).value, i + 1)
    {
      ImportOne(cfg, l, c, i);
      assert EntryOk(cfg, c, i + 1);
    }
    AddAllReaches(Adding(cfg), (l: Ledger, n: nat) => Imported(cfg, c, l, n), s.ledger, blocks, blocks, 0);
  }

  lemma {:induction false} ImportOne(cfg: Config, l: Ledger, c: Chain, n: nat)
    requires ChainOk(cfg, c) && n < |c|
    requires Imported(cfg, c, l, n)
    ensures var r := AddBlock(cfg, l, c[n].raw.updates, c[n].raw.deletes);
      r.Ok? && Imported(cfg, c, r.value, n + 1)
  {
    var p, blk := c[..n], c[n].blk;
    assert EntryOk(cfg, c, n + 1);
    assert TreeAt(c, n) == LastTree(p);
    assert DeletesLive(l, blk.updates, blk.deletes) by {
      forall k | k in blk.deletes && k !in blk.updates
        ensures match LeafAtMost(l.db, k, l.tree.version)
                case None => true
                case Some(w) => LeafAt(l.db, k, w).value.deletedIn.None?
      {
        LiveFound(cfg, l, p, k);
      }
    }
    assert EffectiveBlk(p, blk.updates, blk.deletes) == blk;
    assert Extend(cfg, p, blk) == c[..n + 1];
    AddBlockExtends(cfg, l, p, blk.updates, blk.deletes);
  }

  /** Every raw block an adapter exports is the one of its chain; adding them all rebuilds its database. */
  lemma {:induction false} ImportedDb(cfg: Config, s: State, v: View, blocks: seq<RawBlock>, target: State)
    requires IsEmpty(target)
    requires Represents(cfg, s, v) && v.genesis == 1
    requires |blocks| == |v.c|
    requires forall i :: 0 <= i < |blocks| ==> Ok(blocks[i]) == GetRawBlock(cfg, s.ledger.db, s.temps, i + 1)
    ensures AddAll(Adding(cfg), target.ledger, blocks).Ok?
    ensures AddAll(Adding(cfg), target.ledger, blocks).value.db == s.ledger.db
  {
    hide AddAll, AddBlock, GetRawBlock;
    forall i | 0 <= i < |blocks|
      ensures blocks[i] == v.c[i].raw
    {
      RawBlockRebuilt(cfg, s.ledger.db, s.temps, v.c, 1, i + 1);
    }
    ImportChain(cfg, target, v.c, blocks);
    assert v.c[..|v.c|] == v.c;
    DbUnique(cfg, s.ledger.db, AddAll(Adding(cfg), target.ledger, blocks).value.db, v.c, 1);
  }

  /**
   * Importing, in any order, the raw blocks 1 .. N that another adapter exports reproduces
   * the exporter: the same database, and so the same raw blocks.
   */
  lemma {:induction false} ImportReproducesExport(
    cfg: Config, s: State, v: View, blocks: seq<RawBlock>, target: State, ds: seq<Delivery>)
    requires IsEmpty(target)
    requires Represents(cfg, s, v) && v.genesis == 1
    requires |blocks| == |v.c|
    requires forall i :: 0 <= i < |blocks| ==> Ok(blocks[i]) == GetRawBlock(cfg, s.ledger.db, s.temps, i + 1)
    requires NewIds(target, ds) && AsMap(ds) == Numbered(blocks, 1)
    ensures var r := DeliverAll(Adding(cfg), Linked(cfg), target, ds);
      && r.Ok? && r.value.temps == map[] && r.value.ledger.last == s.ledger.last
      && r.value.ledger.db == s.ledger.db
  {
    ImportedDb(cfg, s, v, blocks, target);
    AddersOk(cfg);
    TransferOrderIndependent(Adding(cfg), Linked(cfg), target, blocks, ds);
  }
}
