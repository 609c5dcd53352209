/**
 * State transfer: raw blocks received in any order wait as temporary blocks until they
 * can be linked to the chain. How a block is written does not matter here, so the
 * operations take the functions that add and link a block as parameters.
 */
module Linking {
  import opened Common
  import opened AdapterSpec

  /** The whole adapter: the chain, the temporary blocks and the cached id of the latest one. */
  datatype State = State(ledger: Ledger, temps: map<nat, RawBlock>, latestTemp: Option<nat>)

  type Adder = (Ledger, RawBlock) -> Result<Ledger>

  /** A block adder advances the chain by one; linking differs from adding on an empty chain only. */
  ghost predicate AddsBlocks(add: Adder, link: Adder) {
    && (forall l: Ledger, b: RawBlock :: add(l, b).Ok? ==> add(l, b).value.last == l.last + 1 && add(l, b).value.genesis != 0)
    && (forall l: Ledger, b: RawBlock :: l.genesis != 0 ==> link(l, b) == add(l, b))
  }

  function LatestTemp(temps: map<nat, RawBlock>): Option<nat> {
    if temps == map[] then None else Some(MaxOf(temps.Keys))
  }

  /** getLatestBlockId. */
  function LatestBlockId(s: State): nat {
    if s.latestTemp.Some? then s.latestTemp.value else s.ledger.last
  }

  /** The loop of linkSTChainFrom, from block id i to the latest id known when it started. */
  function LinkLoop(link: Adder, s: State, i: nat, latest: nat): Result<State>
    decreases latest + 1 - i
  {
    if i > latest then Ok(s.(latestTemp := None))
    else if i !in s.temps then Ok(s)
    else
      var linked :- link(s.ledger, s.temps[i]);
      LinkLoop(link, s.(ledger := linked, temps := s.temps - {i}), i + 1, latest)
  }

  /** addRawBlock; a failure while linking terminates the process. */
  function AddRawWith(add: Adder, link: Adder, s: State, block: RawBlock, id: nat): Result<State> {
    if id <= s.ledger.last then Err(InvalidArgument)
    else if id == s.ledger.last + 1 then
      var added :- add(s.ledger, block);
      var s' := s.(ledger := added);
      match LinkLoop(link, s', id + 1, LatestBlockId(s'))
      case Ok(linked) => Ok(linked)
      case Err(_) => Err(Aborted)
    else
      Ok(s.(temps := s.temps[id := block],
            latestTemp := if s.latestTemp.Some? && id <= s.latestTemp.value then s.latestTemp else Some(id)))
  }

  /** No temporary block can be linked, and the cached latest id is that of the last temporary block. */
  ghost predicate Settled(s: State) {
    && (forall i :: i in s.temps ==> i > s.ledger.last + 1)
    && s.latestTemp == LatestTemp(s.temps)
  }

  // ---------- the outcome of a set of temporary blocks ----------

  /** Moves the next temporary block to the chain. */
  function Step(add: Adder, s: State): Result<State>
    requires s.ledger.last + 1 in s.temps
  {
    var added :- add(s.ledger, s.temps[s.ledger.last + 1]);
    Ok(s.(ledger := added, temps := s.temps - {s.ledger.last + 1}))
  }

  /** Links temporary blocks for as long as the next one is there. */
  function Absorb(add: Adder, s: State): Result<State>
    decreases |s.temps.Keys|
  {
    if s.ledger.last + 1 in s.temps then
      var next :- Step(add, s);
      StepShrinks(add, s);
      Absorb(add, next)
    else Ok(s.(latestTemp := LatestTemp(s.temps)))
  }

  lemma {:induction false} StepShrinks(add: Adder, s: State)
    requires s.ledger.last + 1 in s.temps && Step(add, s).Ok?
    ensures |Step(add, s).value.temps.Keys| < |s.temps.Keys|
  {
    assert Step(add, s).value.temps.Keys == s.temps.Keys - {s.ledger.last + 1};
  }

  function WithTemps(s: State, m: map<nat, RawBlock>): State {
    s.(temps := s.temps + m)
  }

  ghost predicate TempsAhead(s: State) {
    forall i :: i in s.temps ==> i > s.ledger.last
  }

  lemma {:induction false} StepWithTemps(add: Adder, s: State, m: map<nat, RawBlock>)
    requires s.ledger.last + 1 in s.temps && s.ledger.last + 1 !in m
    ensures Step(add, WithTemps(s, m))
         == match Step(add, s) case Ok(s') => Ok(WithTemps(s', m)) case Err(e) => Err(e)
  {
    assert (s.temps + m) - {s.ledger.last + 1} == (s.temps - {s.ledger.last + 1}) + m;
  }

  lemma {:induction false} AbsorbIgnoresLatest(add: Adder, s: State, latest: Option<nat>)
    ensures Absorb(add, s.(latestTemp := latest)) == Absorb(add, s)
    decreases |s.temps.Keys|
  {
    if s.ledger.last + 1 in s.temps && Step(add, s).Ok? {
      StepShrinks(add, s);
      AbsorbIgnoresLatest(add, Step(add, s).value, latest);
      assert Step(add, s.(latestTemp := latest)) == Ok(Step(add, s).value.(latestTemp := latest));
    }
  }

  /** The blocks of m are beyond the chain and not waiting. */
  ghost predicate Outside(s: State, m: map<nat, RawBlock>) {
    forall i :: i in m ==> i > s.ledger.last && i !in s.temps
  }

  lemma {:induction false} StepAhead(add: Adder, link: Adder, s: State, m: map<nat, RawBlock>)
    requires AddsBlocks(add, link) && TempsAhead(s) && Outside(s, m)
    requires s.ledger.last + 1 in s.temps && Step(add, s).Ok?
    ensures var next := Step(add, s).value;
      && TempsAhead(next) && Outside(next, m)
      && next.ledger.last == s.ledger.last + 1 && next.temps.Keys <= s.temps.Keys
  {
  }

  /** Absorbing first and adding blocks later is the same as absorbing everything at once. */
  lemma {:induction false} AbsorbMerge(add: Adder, link: Adder, s: State, m: map<nat, RawBlock>)
    requires AddsBlocks(add, link) && TempsAhead(s) && Outside(s, m)
    requires Absorb(add, WithTemps(s, m)).Ok?
    ensures Absorb(add, s).Ok?
    ensures var mid := Absorb(add, s).value;
      && Settled(mid) && mid.temps.Keys <= s.temps.Keys && s.ledger.last <= mid.ledger.last
      && Outside(mid, m)
      && Absorb(add, WithTemps(mid, m)) == Absorb(add, WithTemps(s, m))
    decreases |s.temps.Keys|
  {
    if s.ledger.last + 1 in s.temps {
      StepWithTemps(add, s, m);
      StepShrinks(add, s);
      StepAhead(add, link, s, m);
      AbsorbMerge(add, link, Step(add, s).value, m);
    } else {
      AbsorbIgnoresLatest(add, WithTemps(s, m), LatestTemp(s.temps));
    }
  }

  predicate CanStep(add: Adder, s: State) {
    s.ledger.last + 1 in s.temps && Step(add, s).Ok?
  }

  /** The state after n link transactions. */
  function LinkSteps(add: Adder, s: State, n: nat): Result<State>
    decreases n
  {
    if n == 0 then Ok(s)
    else if CanStep(add, s) then LinkSteps(add, Step(add, s).value, n - 1)
    else Err(NotFound)
  }

  /** A property of the chain that adding a block keeps. */
  ghost predicate Keeps(add: Adder, good: Ledger -> bool) {
    forall l: Ledger, b: RawBlock :: good(l) && add(l, b).Ok? ==> good(add(l, b).value)
  }

  /** After any number of link transactions the rest of the linking leads to the same end. */
  lemma {:induction false} StepsThenAbsorb(add: Adder, link: Adder, good: Ledger -> bool, s: State, n: nat)
    requires AddsBlocks(add, link) && Keeps(add, good)
    requires TempsAhead(s) && good(s.ledger) && LinkSteps(add, s, n).Ok?
    ensures var mid := LinkSteps(add, s, n).value;
      && TempsAhead(mid) && good(mid.ledger)
      && Absorb(add, mid) == Absorb(add, s)
    decreases n
  {
    if n > 0 {
      StepAhead(add, link, s, map[]);
      StepsThenAbsorb(add, link, good, Step(add, s).value, n - 1);
    }
  }

  /** Linking everything keeps what adding one block keeps. */
  lemma {:induction false} AbsorbKeeps(add: Adder, link: Adder, good: Ledger -> bool, s: State)
    requires AddsBlocks(add, link) && Keeps(add, good)
    requires TempsAhead(s) && good(s.ledger) && Absorb(add, s).Ok?
    ensures Settled(Absorb(add, s).value) && good(Absorb(add, s).value.ledger)
    decreases |s.temps.Keys|
  {
    if s.ledger.last + 1 in s.temps {
      StepAhead(add, link, s, map[]);
      StepShrinks(add, s);
      AbsorbKeeps(add, link, good, Step(add, s).value);
    }
  }

  // ---------- addRawBlock ----------

  /** linkSTChainFrom absorbs everything that can be linked. */
  lemma {:induction false} LinkIsAbsorb(add: Adder, link: Adder, s: State, latest: nat)
    requires AddsBlocks(add, link) && TempsAhead(s)
    requires s.ledger.genesis != 0 || s.ledger.last + 1 !in s.temps
    requires if s.temps == map[] then latest <= s.ledger.last
             else s.latestTemp == Some(latest) && LatestTemp(s.temps) == Some(latest)
    ensures LinkLoop(link, s, s.ledger.last + 1, latest) == Absorb(add, s)
    decreases |s.temps.Keys|
  {
    var i := s.ledger.last + 1;
    if i in s.temps {
      assert link(s.ledger, s.temps[i]) == add(s.ledger, s.temps[i]);
      if Step(add, s).Ok? {
        var next := Step(add, s).value;
        StepShrinks(add, s);
        assert next.temps.Keys == s.temps.Keys - {i};
        if next.temps != map[] {
          var j :| j in next.temps;
          assert MaxOf(s.temps.Keys) == latest;
          assert latest in next.temps;
        }
        LinkIsAbsorb(add, link, next, latest);
      }
    }
  }

  /** From a settled state, addRawBlock leaves what absorbing the block together with the waiting ones leaves. */
  lemma {:induction false} AddRawBlockAbsorbs(add: Adder, link: Adder, s: State, block: RawBlock, id: nat)
    requires AddsBlocks(add, link) && Settled(s) && id > s.ledger.last && id !in s.temps
    ensures var all := Absorb(add, WithTemps(s, map[id := block]));
      var r := AddRawWith(add, link, s, block, id);
      (all.Ok? <==> r.Ok?) && (all.Ok? ==> r == all)
  {
    var s2 := WithTemps(s, map[id := block]);
    assert s2.temps.Keys == s.temps.Keys + {id};
    if id == s.ledger.last + 1 {
      var added := add(s.ledger, block);
      assert s2.temps - {id} == s.temps;
      if added.Ok? {
        var s' := s.(ledger := added.value);
        assert Step(add, s2) == Ok(s');
        LinkIsAbsorb(add, link, s', LatestBlockId(s'));
      }
    } else {
      assert s2.temps == s.temps[id := block];
    }
  }

  // ---------- order independence ----------

  /** A received block: its id and contents. */
  type Delivery = (nat, RawBlock)

  function AsMap(ds: seq<Delivery>): map<nat, RawBlock> {
    if ds == [] then map[] else AsMap(ds[1..])[ds[0].0 := ds[0].1]
  }

  /** Distinct ids beyond the chain that are not waiting already. */
  ghost predicate NewIds(s: State, ds: seq<Delivery>) {
    && (forall d :: d in ds ==> d.0 > s.ledger.last && d.0 !in s.temps)
    && (forall a, b :: 0 <= a < b < |ds| ==> ds[a].0 != ds[b].0)
  }

  function DeliverAll(add: Adder, link: Adder, s: State, ds: seq<Delivery>): Result<State>
    decreases |ds|
  {
    if ds == [] then Ok(s)
    else
      var next :- AddRawWith(add, link, s, ds[0].1, ds[0].0);
      DeliverAll(add, link, next, ds[1..])
  }

  lemma {:induction false} AsMapKeys(ds: seq<Delivery>)
    ensures forall i :: i in AsMap(ds) ==> exists a :: 0 <= a < |ds| && ds[a].0 == i
    ensures forall a :: 0 <= a < |ds| ==> ds[a].0 in AsMap(ds)
  {
    if ds != [] {
      var rest := ds[1..];
      AsMapKeys(rest);
      forall i | i in AsMap(ds)
        ensures exists a :: 0 <= a < |ds| && ds[a].0 == i
      {
        if i in AsMap(rest) {
          var a :| 0 <= a < |rest| && rest[a].0 == i;
          assert ds[a + 1].0 == i;
        }
      }
      forall a | 0 <= a < |ds|
        ensures ds[a].0 in AsMap(ds)
      {
        assert a > 0 ==> rest[a - 1].0 in AsMap(rest);
      }
    }
  }

  /** The blocks still to come are new after the first one has been absorbed. */
  lemma {:induction false} NewIdsRest(s: State, ds: seq<Delivery>, next: State)
    requires ds != [] && NewIds(s, ds)
    requires Outside(next, AsMap(ds[1..]))
    ensures NewIds(next, ds[1..])
  {
    var rest := ds[1..];
    AsMapKeys(rest);
    forall d | d in rest
      ensures d.0 > next.ledger.last && d.0 !in next.temps
    {
      var a :| 0 <= a < |rest| && rest[a] == d;
      assert rest[a].0 in AsMap(rest);
    }
  }

  /** The blocks after the first have ids that neither the state nor the first block uses. */
  lemma {:induction false} RestIsNew(s: State, ds: seq<Delivery>)
    requires ds != [] && NewIds(s, ds)
    ensures ds[0].0 !in AsMap(ds[1..])
    ensures Outside(s, AsMap(ds[1..]))
  {
    var rest := ds[1..];
    AsMapKeys(rest);
    forall i | i in AsMap(rest)
      ensures i > s.ledger.last && i !in s.temps && i != ds[0].0
    {
      var a :| 0 <= a < |rest| && rest[a].0 == i;
      assert rest[a] == ds[a + 1];
    }
  }

  /**
   * The state after any number of raw blocks depends only on which blocks arrived, not on
   * their order, whether or not they close all the gaps.
   */
  lemma {:induction false} DeliveryOrderIrrelevant(add: Adder, link: Adder, s: State, ds: seq<Delivery>)
    requires AddsBlocks(add, link) && Settled(s) && NewIds(s, ds)
    requires Absorb(add, WithTemps(s, AsMap(ds))).Ok?
    ensures DeliverAll(add, link, s, ds) == Absorb(add, WithTemps(s, AsMap(ds)))
    decreases |ds|
  {
    if ds == [] {
      assert WithTemps(s, map[]) == s;
    } else {
      var id, block, m := ds[0].0, ds[0].1, AsMap(ds[1..]);
      var s1 := WithTemps(s, map[id := block]);
      RestIsNew(s, ds);
      assert WithTemps(s1, m) == WithTemps(s, AsMap(ds)) by {
        assert (s.temps + map[id := block]) + m == s.temps + AsMap(ds);
      }
      AbsorbMerge(add, link, s1, m);
      AddRawBlockAbsorbs(add, link, s, block, id);
      var next := Absorb(add, s1).value;
      NewIdsRest(s, ds, next);
      DeliveryOrderIrrelevant(add, link, next, ds[1..]);
    }
  }

  // ---------- a complete range ----------

  /** Adds blocks one after the other. */
  function AddAll(add: Adder, l: Ledger, blocks: seq<RawBlock>): Result<Ledger>
    decreases |blocks|
  {
    if blocks == [] then Ok(l)
    else
      var next :- add(l, blocks[0]);
      AddAll(add, next, blocks[1..])
  }

  /** The blocks first, first + 1, ... as temporary blocks. */
  function Numbered(blocks: seq<RawBlock>, first: nat): (m: map<nat, RawBlock>)
    ensures forall i :: i in m ==> first <= i < first + |blocks|
    decreases |blocks|
  {
    if blocks == [] then map[] else Numbered(blocks[1..], first + 1)[first := blocks[0]]
  }

  lemma {:induction false} AbsorbRange(add: Adder, link: Adder, l: Ledger, blocks: seq<RawBlock>)
    requires AddsBlocks(add, link) && AddAll(add, l, blocks).Ok?
    ensures var end := AddAll(add, l, blocks).value;
      && end.last == l.last + |blocks|
      && Absorb(add, State(l, Numbered(blocks, l.last + 1), None)) == Ok(State(end, map[], None))
    decreases |blocks|
  {
    var s := State(l, Numbered(blocks, l.last + 1), None);
    if blocks == [] {
      assert s.temps == map[];
    } else {
      var next := add(l, blocks[0]).value;
      assert s.temps - {l.last + 1} == Numbered(blocks[1..], next.last + 1);
      assert Step(add, s) == Ok(State(next, Numbered(blocks[1..], next.last + 1), None));
      AbsorbRange(add, link, next, blocks[1..]);
    }
  }

  /**
   * State transfer is order independent: delivering the blocks last + 1 .. N in any order
   * ends with last = latest = N, no temporary blocks, and exactly the chain that adding
   * them in ascending order gives.
   */
  lemma {:induction false} TransferOrderIndependent(
    add: Adder, link: Adder, s: State, blocks: seq<RawBlock>, ds: seq<Delivery>)
    requires AddsBlocks(add, link) && AddAll(add, s.ledger, blocks).Ok?
    requires s.temps == map[] && s.latestTemp == None
    requires NewIds(s, ds) && AsMap(ds) == Numbered(blocks, s.ledger.last + 1)
    ensures var end := AddAll(add, s.ledger, blocks).value;
      && DeliverAll(add, link, s, ds) == Ok(State(end, map[], None))
      && end.last == s.ledger.last + |blocks|
  {
    AbsorbRange(add, link, s.ledger, blocks);
    assert s.temps + AsMap(ds) == AsMap(ds);
    assert WithTemps(s, AsMap(ds)) == State(s.ledger, AsMap(ds), None);
    DeliveryOrderIrrelevant(add, link, s, ds);
  }
}
