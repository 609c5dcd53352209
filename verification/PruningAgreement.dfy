/** Agreement of the replicas on how far to prune. */
module PruningAgreement {
  import opened Common

  /** A replica's signed reply: the last block it can prune. */
  datatype LatestPrunableBlock = LatestPrunableBlock(replica: nat, blockId: nat, signature: Bytes)

  datatype PruneRequest = PruneRequest(
    sender: nat, latestPrunableBlocks: seq<LatestPrunableBlock>, tickPeriodSeconds: int, batchBlocksNum: int)

  /** Whether the signature is the replica's signature of the reply. */
  type SignatureCheck = LatestPrunableBlock -> bool

  function VerifyReply(replicaIds: set<nat>, signed: SignatureCheck, reply: LatestPrunableBlock): bool {
    reply.replica in replicaIds && signed(reply)
  }

  /** The replicas named by the first n replies. */
  function Named(replies: seq<LatestPrunableBlock>, n: nat): set<nat>
    requires n <= |replies|
  {
    if n == 0 then {} else Named(replies, n - 1) + {replies[n - 1].replica}
  }

  /** The first n replies name different replicas. */
  ghost predicate Distinct(replies: seq<LatestPrunableBlock>, n: nat)
    requires n <= |replies|
  {
    forall i, j :: 0 <= i < j < n ==> replies[i].replica != replies[j].replica
  }

  ghost predicate Acceptable(replicaIds: set<nat>, signed: SignatureCheck, request: PruneRequest) {
    var replies := request.latestPrunableBlocks;
    && request.sender !in replicaIds
    && request.tickPeriodSeconds > 0 && request.batchBlocksNum > 0
    && Distinct(replies, |replies|) && Named(replies, |replies|) == replicaIds
    && forall i :: 0 <= i < |replies| ==> signed(replies[i])
  }

  lemma {:induction false} NamedHas(replies: seq<LatestPrunableBlock>, n: nat, i: nat)
    requires i < n <= |replies|
    ensures replies[i].replica in Named(replies, n)
  {
    if i < n - 1 {
      NamedHas(replies, n - 1, i);
    }
  }

  lemma {:induction false} NamedAt(replies: seq<LatestPrunableBlock>, n: nat, r: nat) returns (i: nat)
    requires n <= |replies| && r in Named(replies, n)
    ensures i < n && replies[i].replica == r
  {
    if replies[n - 1].replica == r {
      i := n - 1;
    } else {
      i := NamedAt(replies, n - 1, r);
    }
  }

  lemma {:induction false} DistinctCount(replies: seq<LatestPrunableBlock>, n: nat)
    requires n <= |replies| && Distinct(replies, n)
    ensures |Named(replies, n)| == n
  {
    if n > 0 {
      DistinctCount(replies, n - 1);
      if replies[n - 1].replica in Named(replies, n - 1) {
        var i := NamedAt(replies, n - 1, replies[n - 1].replica);
      }
    }
  }

  /** PruningVerifier::verify: crosses off the replicas one by one. */
  method Verify(replicaIds: set<nat>, signed: SignatureCheck, request: PruneRequest) returns (ok: bool)
    ensures ok <==> Acceptable(replicaIds, signed, request)
  {
    hide Named;
    var replies := request.latestPrunableBlocks;
    if |replies| != |replicaIds| {
      if Distinct(replies, |replies|) {
        DistinctCount(replies, |replies|);
      }
      return false;
    }
    if request.sender in replicaIds {
      return false;
    }
    if request.tickPeriodSeconds <= 0 || request.batchBlocksNum <= 0 {
      return false;
    }
    ok := CrossOff(replicaIds, signed, replies);
  }

  /** The loop of verify. */
  method CrossOff(replicaIds: set<nat>, signed: SignatureCheck, replies: seq<LatestPrunableBlock>) returns (ok: bool)
    ensures ok <==>
      && Distinct(replies, |replies|) && Named(replies, |replies|) == replicaIds
      && forall i :: 0 <= i < |replies| ==> signed(replies[i])
  {
    var toVerify := replicaIds;
    var n := 0;
    while n < |replies|
      invariant n <= |replies|
      invariant forall i :: 0 <= i < n ==> VerifyReply(replicaIds, signed, replies[i])
      invariant Distinct(replies, n)
      invariant Named(replies, n) <= replicaIds && toVerify == replicaIds - Named(replies, n)
    {
      var r := replies[n].replica;
      NamedHas(replies, |replies|, n);
      if !VerifyReply(replicaIds, signed, replies[n]) {
        return false;
      }
      if r !in toVerify {
        var i := NamedAt(replies, n, r);
        assert !Distinct(replies, |replies|);
        return false;
      }
      forall i | 0 <= i < n
        ensures replies[i].replica != r
      {
        NamedHas(replies, n, i);
      }
      toVerify := toVerify - {r};
      n := n + 1;
    }
    ok := toVerify == {};
    assert ok <==> Named(replies, n) == replicaIds;
  }

  // ---------- the prune point ----------

  /** The reply leaves exactly the blocks to keep, or asks for nothing when there are not that many. */
  function LatestBasedOnNumBlocksConfig(last: nat, numBlocksToKeep: nat): (r: nat)
    ensures last >= numBlocksToKeep ==> last - r == numBlocksToKeep
    ensures last < numBlocksToKeep ==> r == 0
  {
    if last < numBlocksToKeep then 0 else last - numBlocksToKeep
  }

  /** agreedPrunableBlockId: the smallest reply; no replies is an abort. */
  method AgreedPrunableBlockId(request: PruneRequest) returns (r: Result<nat>)
    ensures r.Err? <==> request.latestPrunableBlocks == []
    ensures r.Ok? ==> IsAgreed(request, r.value)
  {
    var replies := request.latestPrunableBlocks;
    if replies == [] {
      return Err(Aborted);
    }
    var least, i := replies[0].blockId, 1;
    while i < |replies|
      invariant 1 <= i <= |replies|
      invariant forall j :: 0 <= j < i ==> least <= replies[j].blockId
      invariant exists j :: 0 <= j < i && replies[j].blockId == least
    {
      if replies[i].blockId < least {
        least := replies[i].blockId;
      }
      i := i + 1;
    }
    r := Ok(least);
  }

  ghost predicate IsAgreed(request: PruneRequest, id: nat) {
    && (forall i :: 0 <= i < |request.latestPrunableBlocks| ==> id <= request.latestPrunableBlocks[i].blockId)
    && (exists i :: 0 <= i < |request.latestPrunableBlocks| && request.latestPrunableBlocks[i].blockId == id)
  }

  class Chain {
    var genesis: nat
    var last: nat

    ghost predicate Valid()
      reads this
    {
      1 <= genesis <= last
    }

    constructor (genesis: nat, last: nat)
      requires 1 <= genesis <= last
      ensures Valid() && this.genesis == genesis && this.last == last
    {
      this.genesis, this.last := genesis, last;
    }

    /** pruneThroughBlockId: deletes from the genesis block on; deleting the only block ends the process. */
    method PruneThroughBlockId(id: nat) returns (terminated: bool)
      requires Valid()
      modifies `genesis
      ensures Valid()
      ensures terminated <==> id >= last
      ensures genesis == if id < old(genesis) then old(genesis) else if id < last then id + 1 else last
    {
      if id < genesis {
        return false;
      }
      var until := if id < last then id else last;
      var i := genesis;
      while i <= until
        invariant Valid() && i == genesis && i <= until + 1
        decreases until + 1 - i
      {
        if genesis == last {
          return true;
        }
        genesis := genesis + 1;
        i := i + 1;
      }
      return false;
    }
  }

  /**
   * Whatever the other replicas reported, a replica whose own reply is genuine and at most as
   * recent as its chain keeps its blocks.
   */
  lemma {:induction false} GenuineReplyKeepsBlocks(
    replicaIds: set<nat>, signed: SignatureCheck, request: PruneRequest, agreed: nat,
    me: nat, lastThen: nat, genesis: nat, last: nat, keep: nat)
    requires Acceptable(replicaIds, signed, request) && IsAgreed(request, agreed)
    requires me in replicaIds && lastThen <= last && 1 <= genesis <= last
    requires forall i :: 0 <= i < |request.latestPrunableBlocks| && request.latestPrunableBlocks[i].replica == me ==>
      request.latestPrunableBlocks[i].blockId == LatestBasedOnNumBlocksConfig(lastThen, keep)
    ensures agreed < genesis || last - agreed >= keep
    ensures keep > 0 ==> agreed < genesis || agreed < last
  {
    var replies := request.latestPrunableBlocks;
    var i := NamedAt(replies, |replies|, me);
    assert agreed <= replies[i].blockId;
  }

  // ---------- runs ----------

  /** One replica: its chain and the replies it has signed. */
  datatype Replica = Replica(genesis: nat, last: nat, replies: set<nat>)

  datatype Event = AddBlock | Reply | Prune(request: PruneRequest, agreed: nat)

  /** None when the replica had to remove its only block. */
  function Step(s: Replica, keep: nat, e: Event): Option<Replica> {
    match e
    case AddBlock => Some(s.(last := s.last + 1))
    case Reply => Some(s.(replies := s.replies + {LatestBasedOnNumBlocksConfig(s.last, keep)}))
    case Prune(_, agreed) =>
      if agreed < s.genesis then Some(s)
      else if agreed < s.last then Some(s.(genesis := agreed + 1))
      else None
  }

  /** An accepted request in which the replica's own reply is one it signed. */
  ghost predicate Genuine(
    replicaIds: set<nat>, signed: SignatureCheck, me: nat, s: Replica, e: Event)
  {
    e.Prune? ==>
      && Acceptable(replicaIds, signed, e.request) && IsAgreed(e.request, e.agreed)
      && forall i :: 0 <= i < |e.request.latestPrunableBlocks| && e.request.latestPrunableBlocks[i].replica == me ==>
           e.request.latestPrunableBlocks[i].blockId in s.replies
  }

  /** A run of requests; signatures of this replica are never forged, others reply what they like. */
  ghost predicate GenuineRun(
    replicaIds: set<nat>, signed: SignatureCheck, me: nat, s: Replica, keep: nat, events: seq<Event>)
    decreases |events|
  {
    events == [] ||
    (Genuine(replicaIds, signed, me, s, events[0])
     && (Step(s, keep, events[0]).Some? ==>
          GenuineRun(replicaIds, signed, me, Step(s, keep, events[0]).value, keep, events[1..])))
  }

  function Run(s: Replica, keep: nat, events: seq<Event>): Option<Replica>
    decreases |events|
  {
    if events == [] then Some(s)
    else match Step(s, keep, events[0])
      case Some(s') => Run(s', keep, events[1..])
      case None => None
  }

  /** Nothing has been pruned, or the last keep blocks are there; no reply reaches into them. */
  predicate Kept(s: Replica, keep: nat) {
    && 1 <= s.genesis <= s.last
    && (s.genesis == 1 || s.last - s.genesis + 1 >= keep)
    && forall r :: r in s.replies ==> r == 0 || r + keep <= s.last
  }

  /** The request asks for the last block too. */
  predicate Whole(s: Replica, e: Event) {
    e.Prune? && e.agreed == s.last
  }

  /** One step: only a request for the last block ends the process, and there is none while blocks are to be kept. */
  lemma {:induction false} StepKeeps(
    replicaIds: set<nat>, signed: SignatureCheck, me: nat, s: Replica, keep: nat, e: Event)
    requires me in replicaIds && Kept(s, keep) && Genuine(replicaIds, signed, me, s, e)
    ensures Step(s, keep, e).None? <==> Whole(s, e)
    ensures Whole(s, e) ==> keep == 0
    ensures Step(s, keep, e).Some? ==> Kept(Step(s, keep, e).value, keep)
  {
    if e.Prune? {
      var replies := e.request.latestPrunableBlocks;
      var i := NamedAt(replies, |replies|, me);
      assert e.agreed <= replies[i].blockId && replies[i].blockId in s.replies;
    }
  }

  /** No request of the run asks for the block that is the last one at that point. */
  predicate NeverWhole(s: Replica, keep: nat, events: seq<Event>)
    decreases |events|
  {
    events == [] ||
    (&& !Whole(s, events[0])
     && match Step(s, keep, events[0])
        case Some(s') => NeverWhole(s', keep, events[1..])
        case None => true)
  }

  /**
   * In every run the process survives, and the last keep blocks are still there if anything was
   * pruned, if and only if no request asks for the last block. While at least one block is to be
   * kept there is no such request.
   */
  lemma {:induction false} BlocksToKeepSurvive(
    replicaIds: set<nat>, signed: SignatureCheck, me: nat, s: Replica, keep: nat, events: seq<Event>)
    requires me in replicaIds && Kept(s, keep) && GenuineRun(replicaIds, signed, me, s, keep, events)
    ensures Run(s, keep, events).Some? <==> NeverWhole(s, keep, events)
    ensures keep > 0 ==> NeverWhole(s, keep, events)
    ensures Run(s, keep, events).Some? ==> Kept(Run(s, keep, events).value, keep)
    decreases |events|
  {
    if events != [] {
      StepKeeps(replicaIds, signed, me, s, keep, events[0]);
      if Step(s, keep, events[0]).Some? {
        BlocksToKeepSurvive(replicaIds, signed, me, Step(s, keep, events[0]).value, keep, events[1..]);
      }
    }
  }

  // ---------- what pruning leaves ----------

  /** Every replica replied when its last block was the given one. */
  ghost predicate AllGenuine(request: PruneRequest, lasts: map<nat, nat>, keep: nat) {
    forall i :: 0 <= i < |request.latestPrunableBlocks| ==>
      var reply := request.latestPrunableBlocks[i];
      reply.replica in lasts && reply.blockId == LatestBasedOnNumBlocksConfig(lasts[reply.replica], keep)
  }

  /** The replica that was furthest behind decides, if all replies are genuine. */
  lemma {:induction false} SlowestDecides(
    replicaIds: set<nat>, signed: SignatureCheck, request: PruneRequest, agreed: nat, lasts: map<nat, nat>, keep: nat,
    slowest: nat)
    requires Acceptable(replicaIds, signed, request) && IsAgreed(request, agreed) && AllGenuine(request, lasts, keep)
    requires slowest in replicaIds && slowest in lasts
    requires forall r :: r in replicaIds && r in lasts ==> lasts[slowest] <= lasts[r]
    ensures agreed == LatestBasedOnNumBlocksConfig(lasts[slowest], keep)
  {
    var replies := request.latestPrunableBlocks;
    var i := NamedAt(replies, |replies|, slowest);
    var j :| 0 <= j < |replies| && replies[j].blockId == agreed;
    NamedHas(replies, |replies|, j);
    assert agreed <= replies[i].blockId;
  }

  function Added(s: Replica, n: nat): Replica {
    s.(last := s.last + n)
  }

  lemma {:induction false} RunAdds(s: Replica, keep: nat, added: seq<Event>, e: Event)
    requires forall i :: 0 <= i < |added| ==> added[i].AddBlock?
    ensures Run(s, keep, added + [e]) == Step(Added(s, |added|), keep, e)
    decreases |added|
  {
    if added == [] {
      assert [] + [e] == [e] && [e][1..] == [];
    } else {
      assert (added + [e])[1..] == added[1..] + [e];
      RunAdds(Step(s, keep, added[0]).value, keep, added[1..], e);
    }
  }

  /**
   * When all replies are genuine: a replica that replies, adds some blocks and prunes is left with as many blocks as it
   * is to keep, plus those that it is ahead of where the slowest replica was when that replied; fewer only if it had
   * fewer. The slowest replica itself, with no block added in between, is left with exactly the blocks to keep.
   */
  lemma {:induction false} PrunedToExactlyKeep(
    replicaIds: set<nat>, signed: SignatureCheck, request: PruneRequest, agreed: nat, lasts: map<nat, nat>, keep: nat,
    slowest: nat, me: nat, s: Replica, added: seq<Event>)
    requires Acceptable(replicaIds, signed, request) && IsAgreed(request, agreed) && AllGenuine(request, lasts, keep)
    requires slowest in replicaIds && slowest in lasts && me in replicaIds && me in lasts && lasts[me] == s.last
    requires forall r :: r in replicaIds && r in lasts ==> lasts[slowest] <= lasts[r]
    requires 1 <= s.genesis <= s.last && forall i :: 0 <= i < |added| ==> added[i].AddBlock?
    requires 0 < keep <= lasts[slowest]
    ensures var end := Run(s, keep, [Reply] + (added + [Prune(request, agreed)]));
      && end.Some? && end.value.last == s.last + |added|
      && var had, ahead := s.last + |added| - s.genesis + 1, s.last + |added| - lasts[slowest];
      && end.value.last - end.value.genesis + 1 == (if had < keep + ahead then had else keep + ahead)
      && (me == slowest && added == [] && had >= keep ==> end.value.last - end.value.genesis + 1 == keep)
    ensures GenuineRun(replicaIds, signed, me, s, keep, [Reply] + (added + [Prune(request, agreed)]))
  {
    hide LatestBasedOnNumBlocksConfig, Acceptable;
    SlowestDecides(replicaIds, signed, request, agreed, lasts, keep, slowest);
    var s1 := Step(s, keep, Reply).value;
    var p := Prune(request, agreed);
    assert ([Reply] + (added + [p]))[1..] == added + [p];
    RunAdds(s1, keep, added, p);
    AddsStayGenuine(replicaIds, signed, me, s1, keep, added, p);
  }

  /** Adding blocks takes nothing away from the replies. */
  lemma {:induction false} AddsStayGenuine(
    replicaIds: set<nat>, signed: SignatureCheck, me: nat, s: Replica, keep: nat, added: seq<Event>, e: Event)
    requires (forall i :: 0 <= i < |added| ==> added[i].AddBlock?) && Genuine(replicaIds, signed, me, s, e)
    ensures GenuineRun(replicaIds, signed, me, s, keep, added + [e])
    decreases |added|
  {
    if added == [] {
      assert [] + [e] == [e] && [e][1..] == [];
    } else {
      assert (added + [e])[1..] == added[1..] + [e];
      AddsStayGenuine(replicaIds, signed, me, Step(s, keep, added[0]).value, keep, added[1..], e);
    }
  }

  /** A chain shorter than what is to be kept stops all pruning. */
  lemma {:induction false} NothingToPrune(
    replicaIds: set<nat>, signed: SignatureCheck, request: PruneRequest, agreed: nat, lasts: map<nat, nat>, keep: nat,
    short: nat, s: Replica)
    requires Acceptable(replicaIds, signed, request) && IsAgreed(request, agreed) && AllGenuine(request, lasts, keep)
    requires short in replicaIds && short in lasts && lasts[short] <= keep && 1 <= s.genesis <= s.last
    ensures agreed == 0 && Step(s, keep, Prune(request, agreed)) == Some(s)
  {
    var replies := request.latestPrunableBlocks;
    var i := NamedAt(replies, |replies|, short);
    assert agreed <= replies[i].blockId;
  }

  /**
   * The default configuration keeps no block: a replica that replies and is asked to prune what all
   * could prune ends the process if and only if no replica is behind and it has not added a block
   * in between.
   */
  lemma {:induction false} DefaultKeepsNothing(s: Replica, added: seq<Event>, request: PruneRequest, agreed: nat)
    requires 1 <= s.genesis <= s.last && forall i :: 0 <= i < |added| ==> added[i].AddBlock?
    requires IsAgreed(request, agreed) && s.last in RepliesOf(request)
    ensures Run(s, 0, [Reply] + added + [Prune(request, agreed)]).None? <==>
      added == [] && forall r :: r in RepliesOf(request) ==> r >= s.last
  {
    var s1 := Step(s, 0, Reply).value;
    assert ([Reply] + added + [Prune(request, agreed)])[1..] == added + [Prune(request, agreed)];
    AddThenPrune(s1, added, request, agreed);
    var replies := request.latestPrunableBlocks;
    var i :| 0 <= i < |replies| && replies[i].blockId == agreed;
    assert agreed in RepliesOf(request);
  }

  /** The blocks that the replicas reported. */
  function RepliesOf(request: PruneRequest): set<nat> {
    set i | 0 <= i < |request.latestPrunableBlocks| :: request.latestPrunableBlocks[i].blockId
  }

  lemma {:induction false} AddThenPrune(s: Replica, added: seq<Event>, request: PruneRequest, agreed: nat)
    requires s.genesis <= s.last && forall i :: 0 <= i < |added| ==> added[i].AddBlock?
    ensures Run(s, 0, added + [Prune(request, agreed)]).None? <==> agreed >= s.last + |added|
    decreases |added|
  {
    var p := Prune(request, agreed);
    if added == [] {
      assert [] + [p] == [p];
      assert [p][1..] == [];
    } else {
      assert (added + [p])[1..] == added[1..] + [p];
      AddThenPrune(Step(s, 0, added[0]).value, added[1..], request, agreed);
    }
  }
}
