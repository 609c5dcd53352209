/** Wedging a replica at a checkpoint and starting new epochs, as recorded on the chain. */
module EpochProtocol {
  import opened Common

  const CHECKPOINT_WINDOW_SIZE: nat := 150

  /** What the protocol writes into a block; startsEpoch marks the blocks that open a new epoch. */
  datatype Block = Block(seqNum: nat, epoch: Option<nat>, wedge: bool, startsEpoch: bool)

  /** Reconfiguration commands by whether their block carries the wedge key. */
  datatype Command = WedgeCommand | RestartCommand | AddRemoveWithWedgeCommand | InstallCommand | OtherCommand

  predicate Wedges(c: Command) {
    c.WedgeCommand? || c.RestartCommand? || c.AddRemoveWithWedgeCommand?
  }

  /**
   * The chain, the id of its last block in the metadata, the new-epoch flag and the last executed
   * number are persistent; the rest is lost in a restart.
   */
  datatype State = State(
    chain: seq<Block>, persisted: nat, newEpochFlag: bool, selfEpoch: nat, stopAt: nat, wedged: bool,
    lastExecuted: nat)

  // ---------- reading the chain ----------

  /** The latest epoch written, or 0. */
  function LatestEpoch(chain: seq<Block>): nat {
    if chain == [] then 0
    else if chain[|chain| - 1].epoch.Some? then chain[|chain| - 1].epoch.value
    else LatestEpoch(chain[..|chain| - 1])
  }

  /** The number of blocks up to and including the last one with the wedge key, or 0. */
  function LatestWedge(chain: seq<Block>): (n: nat)
    ensures n <= |chain| && (n > 0 ==> chain[n - 1].wedge)
    ensures forall i :: n <= i < |chain| ==> !chain[i].wedge
  {
    if chain == [] then 0
    else if chain[|chain| - 1].wedge then |chain|
    else LatestWedge(chain[..|chain| - 1])
  }

  /** The checkpoint after the next one. */
  function StopPoint(seqNum: nat): nat {
    if seqNum == 0 then 0
    else
      var p := seqNum + 2 * CHECKPOINT_WINDOW_SIZE;
      p - p % CHECKPOINT_WINDOW_SIZE
  }

  /** What handleWedgeEvent sets the stop to, for a chain. */
  function StopFromChain(chain: seq<Block>): nat {
    var n := LatestWedge(chain);
    if n == 0 || chain[n - 1].seqNum == 0 then 0
    else
      var wedgeEpoch := if chain[n - 1].epoch.Some? then chain[n - 1].epoch.value else 0;
      if wedgeEpoch == LatestEpoch(chain) then StopPoint(chain[n - 1].seqNum) else 0
  }

  // ---------- steps ----------

  datatype Event =
    | AppBlock(seqNum: nat)
    | Reconfigure(command: Command, seqNum: nat)
    | Unwedge(seqNum: nat, canUnwedge: bool, restart: bool)
    | Execute(lastExecuted: nat)
    | Persist
    | Restart(kept: nat)
    | InterruptedRestart(kept: nat, persistedFirst: bool, keptNext: nat)

  /** The block of a reconfiguration command, and the stop that wedging commands and installation set. */
  function OnReconfigure(s: State, c: Command, seqNum: nat): State {
    s.(chain := s.chain + [Block(seqNum, Some(s.selfEpoch), Wedges(c), false)],
       stopAt := if Wedges(c) || c.InstallCommand? then StopPoint(seqNum) else s.stopAt)
  }

  /** persistNewEpochBlock, after which the id of the block goes to the metadata. */
  function NewEpochBlock(s: State, seqNum: nat): State {
    s.(chain := s.chain + [Block(seqNum, Some(s.selfEpoch + 1), false, true)], persisted := |s.chain| + 1,
       selfEpoch := s.selfEpoch + 1)
  }

  function OnUnwedge(s: State, seqNum: nat, canUnwedge: bool, restart: bool): State {
    if !s.wedged || !canUnwedge then s
    else if restart then s.(newEpochFlag := true)
    else NewEpochBlock(s, seqNum).(stopAt := 0, wedged := false)
  }

  /** Execution reaches the stop and wedges. */
  function OnExecute(s: State, lastExecuted: nat): State {
    s.(lastExecuted := lastExecuted, wedged := s.wedged || (s.stopAt != 0 && lastExecuted == s.stopAt))
  }

  /** handleNewEpochEvent on what a restart leaves. */
  function OnNewEpochEvent(s: State): State {
    var epoch := LatestEpoch(s.chain);
    if s.newEpochFlag then
      s.(chain := s.chain + [Block(s.lastExecuted, Some(epoch + 1), false, true)], persisted := |s.chain| + 1,
         newEpochFlag := false, selfEpoch := epoch + 1)
    else s.(selfEpoch := epoch)
  }

  /** handleWedgeEvent. */
  function OnWedgeEvent(s: State): State {
    var stop := StopFromChain(s.chain);
    if stop == 0 then s else s.(stopAt := stop, wedged := s.wedged || stop == s.lastExecuted)
  }

  /** How many blocks the state sync of a startup leaves: it may remove any of those not persisted. */
  function KeptBlocks(s: State, kept: nat): nat {
    if |s.chain| <= s.persisted || |s.chain| <= kept then |s.chain|
    else if kept <= s.persisted then s.persisted
    else kept
  }

  /** Memory is lost, and the state sync has run. */
  function Lost(s: State, kept: nat): State {
    s.(chain := s.chain[..KeptBlocks(s, kept)], selfEpoch := 0, stopAt := 0, wedged := false)
  }

  /** A startup that added the new-epoch block but did not get to clear the flag, and maybe not to persist the block. */
  function Interrupted(s: State, kept: nat, persistedFirst: bool): State {
    var first := OnNewEpochEvent(Lost(s, kept));
    first.(newEpochFlag := s.newEpochFlag, persisted := if persistedFirst then first.persisted else s.persisted)
  }

  /** The end of createReplicaAndSyncState. */
  function Startup(s: State, kept: nat): State {
    OnWedgeEvent(OnNewEpochEvent(Lost(s, kept)))
  }

  function Step(s: State, e: Event): State {
    match e
    case AppBlock(seqNum) => s.(chain := s.chain + [Block(seqNum, None, false, false)])
    case Reconfigure(c, seqNum) => OnReconfigure(s, c, seqNum)
    case Unwedge(seqNum, canUnwedge, restart) => OnUnwedge(s, seqNum, canUnwedge, restart)
    case Execute(lastExecuted) => OnExecute(s, lastExecuted)
    case Persist => s.(persisted := |s.chain|)
    case Restart(kept) => Startup(s, kept)
    case InterruptedRestart(kept, persistedFirst, keptNext) => Startup(Interrupted(s, kept, persistedFirst), keptNext)
  }

  /** Consensus sequence numbers start at 1. */
  predicate Numbered(e: Event) {
    e.Reconfigure? ==> e.seqNum > 0
  }

  function Run(s: State, events: seq<Event>): State
    decreases |events|
  {
    if events == [] then s else Run(Step(s, events[0]), events[1..])
  }

  predicate AllNumbered(events: seq<Event>) {
    forall i :: 0 <= i < |events| ==> Numbered(events[i])
  }

  // ---------- what every chain looks like ----------

  /** Block i carries on the epoch before it or, when it starts an epoch, the next one. */
  predicate BlockOk(chain: seq<Block>, i: nat)
    requires i < |chain|
  {
    var b, before := chain[i], LatestEpoch(chain[..i]);
    && (b.wedge ==> b.epoch.Some? && !b.startsEpoch && b.seqNum > 0)
    && (b.startsEpoch ==> b.epoch == Some(before + 1))
    && (!b.startsEpoch && b.epoch.Some? ==> b.epoch == Some(before))
  }

  predicate ChainOk(chain: seq<Block>) {
    forall i :: 0 <= i < |chain| ==> BlockOk(chain, i)
  }

  lemma {:induction false} ChainOkAppend(chain: seq<Block>, b: Block)
    requires ChainOk(chain)
    requires b.wedge ==> b.epoch.Some? && !b.startsEpoch && b.seqNum > 0
    requires b.startsEpoch ==> b.epoch == Some(LatestEpoch(chain) + 1)
    requires !b.startsEpoch && b.epoch.Some? ==> b.epoch == Some(LatestEpoch(chain))
    ensures ChainOk(chain + [b])
    ensures LatestEpoch(chain + [b]) == if b.epoch.Some? then b.epoch.value else LatestEpoch(chain)
    ensures LatestWedge(chain + [b]) == if b.wedge then |chain| + 1 else LatestWedge(chain)
  {
    hide LatestEpoch, LatestWedge;
    var c := chain + [b];
    AppendEpoch(chain, b);
    forall i | 0 <= i < |c|
      ensures BlockOk(c, i)
    {
      if i < |chain| {
        assert BlockOk(chain, i);
        assert c[..i] == chain[..i];
      } else {
        assert c[..i] == chain;
      }
    }
  }

  lemma {:induction false} AppendEpoch(chain: seq<Block>, b: Block)
    ensures LatestEpoch(chain + [b]) == if b.epoch.Some? then b.epoch.value else LatestEpoch(chain)
    ensures LatestWedge(chain + [b]) == if b.wedge then |chain| + 1 else LatestWedge(chain)
  {
    assert (chain + [b])[..|chain|] == chain;
  }

  /** Epochs never decrease, and grow exactly when a block in between starts an epoch. */
  lemma {:induction false} EpochsGrow(chain: seq<Block>, i: nat, j: nat)
    requires ChainOk(chain) && i <= j <= |chain|
    ensures LatestEpoch(chain[..i]) <= LatestEpoch(chain[..j])
    ensures LatestEpoch(chain[..i]) == LatestEpoch(chain[..j]) <==> forall k :: i <= k < j ==> !chain[k].startsEpoch
  {
    hide LatestEpoch, ChainOk;
    if i < j {
      EpochsGrow(chain, i, j - 1);
      assert chain[..j] == chain[..j - 1] + [chain[j - 1]];
      AppendEpoch(chain[..j - 1], chain[j - 1]);
      ChainBlockOk(chain, j - 1);
    }
  }

  lemma {:induction false} ChainBlockOk(chain: seq<Block>, i: nat)
    requires ChainOk(chain) && i < |chain|
    ensures BlockOk(chain, i)
  {
  }

  /** The stop is a multiple of the window, more than one and at most two windows ahead. */
  lemma {:induction false} StopPointIsAhead(seqNum: nat)
    requires seqNum > 0
    ensures StopPoint(seqNum) % CHECKPOINT_WINDOW_SIZE == 0
    ensures seqNum + CHECKPOINT_WINDOW_SIZE < StopPoint(seqNum) <= seqNum + 2 * CHECKPOINT_WINDOW_SIZE
  {
  }

  /** No block after the latest wedge block starts an epoch. */
  predicate StillWedged(chain: seq<Block>) {
    var n := LatestWedge(chain);
    n > 0 && forall i :: n <= i < |chain| ==> !chain[i].startsEpoch
  }

  /** A startup arms the stop exactly when no new epoch has started since the latest wedge block. */
  lemma {:induction false} StopArmedExactly(chain: seq<Block>)
    requires ChainOk(chain)
    ensures StopFromChain(chain) ==
      if StillWedged(chain) then StopPoint(chain[LatestWedge(chain) - 1].seqNum) else 0
  {
    var n := LatestWedge(chain);
    if n > 0 {
      assert BlockOk(chain, n - 1);
      assert chain[..n] == chain[..n - 1] + [chain[n - 1]];
      AppendEpoch(chain[..n - 1], chain[n - 1]);
      EpochsGrow(chain, n, |chain|);
      assert chain[..|chain|] == chain;
    }
  }

  // ---------- runs ----------

  /** A running replica knows the epoch of its chain. */
  predicate Running(s: State) {
    ChainOk(s.chain) && s.persisted <= |s.chain| && s.selfEpoch == LatestEpoch(s.chain)
  }

  lemma {:induction false} ChainOkPrefix(chain: seq<Block>, n: nat)
    requires ChainOk(chain) && n <= |chain|
    ensures ChainOk(chain[..n])
  {
    forall i | 0 <= i < n
      ensures BlockOk(chain[..n], i)
    {
      assert BlockOk(chain, i);
      assert chain[..n][..i] == chain[..i];
    }
  }

  lemma {:induction false} NewEpochEventKeeps(s: State)
    requires ChainOk(s.chain) && s.persisted <= |s.chain|
    ensures Running(OnNewEpochEvent(s)) && s.chain <= OnNewEpochEvent(s).chain
    ensures s.persisted <= OnNewEpochEvent(s).persisted
  {
    ChainOkAppend(s.chain, Block(s.lastExecuted, Some(LatestEpoch(s.chain) + 1), false, true));
  }

  /** A startup keeps the persisted blocks. */
  lemma {:induction false} StartupKeeps(s: State, kept: nat)
    requires ChainOk(s.chain) && s.persisted <= |s.chain|
    ensures Running(Startup(s, kept)) && s.persisted <= Startup(s, kept).persisted
    ensures s.chain[..s.persisted] <= Startup(s, kept).chain
  {
    hide ChainOk, LatestEpoch, StopFromChain;
    ChainOkPrefix(s.chain, KeptBlocks(s, kept));
    NewEpochEventKeeps(Lost(s, kept));
    assert s.chain[..s.persisted] <= Lost(s, kept).chain;
  }

  lemma {:induction false} InterruptedKeeps(s: State, kept: nat, persistedFirst: bool)
    requires ChainOk(s.chain) && s.persisted <= |s.chain|
    ensures var s' := Interrupted(s, kept, persistedFirst);
      && ChainOk(s'.chain) && s.persisted <= s'.persisted <= |s'.chain|
      && s.chain[..s.persisted] <= s'.chain[..s'.persisted]
  {
    hide ChainOk, LatestEpoch;
    ChainOkPrefix(s.chain, KeptBlocks(s, kept));
    NewEpochEventKeeps(Lost(s, kept));
  }

  lemma {:induction false} StepKeeps(s: State, e: Event)
    requires Running(s) && Numbered(e)
    ensures Running(Step(s, e)) && s.persisted <= Step(s, e).persisted
    ensures s.chain[..s.persisted] <= Step(s, e).chain
    ensures !e.Restart? && !e.InterruptedRestart? ==> s.chain <= Step(s, e).chain
  {
    hide ChainOk, LatestEpoch, StopFromChain, Startup, Interrupted;
    match e
    case AppBlock(seqNum) => ChainOkAppend(s.chain, Block(seqNum, None, false, false));
    case Reconfigure(c, seqNum) => ChainOkAppend(s.chain, Block(seqNum, Some(s.selfEpoch), Wedges(c), false));
    case Unwedge(seqNum, _, _) => ChainOkAppend(s.chain, Block(seqNum, Some(s.selfEpoch + 1), false, true));
    case Restart(kept) => StartupKeeps(s, kept);
    case InterruptedRestart(kept, persistedFirst, keptNext) =>
      InterruptedKeeps(s, kept, persistedFirst);
      StartupKeeps(Interrupted(s, kept, persistedFirst), keptNext);
    case _ =>
  }

  /** A replica started for the first time. */
  predicate IsNew(s: State) {
    s == State([], 0, false, 0, 0, false, s.lastExecuted)
  }

  lemma {:induction false} RunKeeps(s: State, events: seq<Event>)
    requires Running(s) && AllNumbered(events)
    ensures Running(Run(s, events)) && s.persisted <= Run(s, events).persisted
    ensures s.chain[..s.persisted] <= Run(s, events).chain
    decreases |events|
  {
    if events != [] {
      StepKeeps(s, events[0]);
      RunKeeps(Step(s, events[0]), events[1..]);
      assert s.chain[..s.persisted] <= Step(s, events[0]).chain[..Step(s, events[0]).persisted];
    }
  }

  /**
   * In every run, restarts whose state sync removes blocks that were not persisted included: every
   * block with the wedge key also has its epoch, epochs on the chain never decrease, and a restart,
   * whatever its sync removes, keeps the persisted blocks and arms the stop exactly when no new epoch
   * follows the latest wedge block, at a multiple of the window between one and two windows after it.
   */
  lemma {:induction false} EveryRunIsWellFormed(s: State, events: seq<Event>, kept: nat)
    requires IsNew(s) && AllNumbered(events)
    ensures var end := Run(s, events);
      && (forall i :: 0 <= i < |end.chain| && end.chain[i].wedge ==> end.chain[i].epoch.Some?)
      && (forall i, j :: 0 <= i <= j < |end.chain| && end.chain[i].epoch.Some? && end.chain[j].epoch.Some? ==>
           end.chain[i].epoch.value <= end.chain[j].epoch.value)
      && end.persisted <= |end.chain|
      && var again := Step(end, Restart(kept));
      && end.chain[..end.persisted] <= again.chain && again.selfEpoch == LatestEpoch(again.chain)
      && (again.stopAt != 0 <==> StillWedged(again.chain))
      && (again.stopAt != 0 ==>
           var seqNum := again.chain[LatestWedge(again.chain) - 1].seqNum;
           && again.stopAt % CHECKPOINT_WINDOW_SIZE == 0
           && seqNum + CHECKPOINT_WINDOW_SIZE < again.stopAt <= seqNum + 2 * CHECKPOINT_WINDOW_SIZE)
  {
    hide StopFromChain, StillWedged, StopPoint, Step, Run, ChainOk, LatestEpoch;
    NewIsRunning(s);
    RunKeeps(s, events);
    EpochsOnChain(Run(s, events).chain);
    RestartArms(Run(s, events), kept);
  }

  lemma {:induction false} NewIsRunning(s: State)
    requires IsNew(s)
    ensures Running(s) && s.stopAt == StopFromChain(s.chain)
  {
  }

  lemma {:induction false} EpochsOnChain(chain: seq<Block>)
    requires ChainOk(chain)
    ensures forall i :: 0 <= i < |chain| && chain[i].wedge ==> chain[i].epoch.Some?
    ensures forall i, j :: 0 <= i <= j < |chain| && chain[i].epoch.Some? && chain[j].epoch.Some? ==>
      chain[i].epoch.value <= chain[j].epoch.value
  {
    hide LatestEpoch;
    forall i, j | 0 <= i <= j < |chain| && chain[i].epoch.Some? && chain[j].epoch.Some?
      ensures chain[i].epoch.value <= chain[j].epoch.value
    {
      EpochAt(chain, i);
      EpochAt(chain, j);
      EpochsGrow(chain, i + 1, j + 1);
    }
    assert forall i :: 0 <= i < |chain| && chain[i].wedge ==> BlockOk(chain, i);
  }

  lemma {:induction false} EpochAt(chain: seq<Block>, i: nat)
    requires i < |chain| && chain[i].epoch.Some?
    ensures LatestEpoch(chain[..i + 1]) == chain[i].epoch.value
  {
    assert chain[..i + 1] == chain[..i] + [chain[i]];
    AppendEpoch(chain[..i], chain[i]);
  }

  lemma {:induction false} RestartArms(s: State, kept: nat)
    requires Running(s)
    ensures var again := Step(s, Restart(kept));
      && Running(again) && s.chain[..s.persisted] <= again.chain
      && (again.stopAt != 0 <==> StillWedged(again.chain))
      && (again.stopAt != 0 ==>
           var seqNum := again.chain[LatestWedge(again.chain) - 1].seqNum;
           && seqNum > 0 && again.stopAt == StopPoint(seqNum)
           && again.stopAt % CHECKPOINT_WINDOW_SIZE == 0
           && seqNum + CHECKPOINT_WINDOW_SIZE < again.stopAt <= seqNum + 2 * CHECKPOINT_WINDOW_SIZE)
  {
    hide StopFromChain, StopPoint, ChainOk, LatestEpoch;
    StepKeeps(s, Restart(kept));
    var again := Step(s, Restart(kept));
    StopArmedExactly(again.chain);
    if StillWedged(again.chain) {
      WedgeNumbered(again.chain);
      StopPointIsAhead(again.chain[LatestWedge(again.chain) - 1].seqNum);
    }
  }

  lemma {:induction false} WedgeNumbered(chain: seq<Block>)
    requires ChainOk(chain) && LatestWedge(chain) > 0
    ensures chain[LatestWedge(chain) - 1].seqNum > 0
  {
    assert BlockOk(chain, LatestWedge(chain) - 1);
  }

  // ---------- the stop survives restarts ----------

  predicate NoInstall(events: seq<Event>) {
    forall i :: 0 <= i < |events| && events[i].Reconfigure? ==> !events[i].command.InstallCommand?
  }

  lemma {:induction false} StopAfterAppend(chain: seq<Block>, b: Block)
    requires ChainOk(chain) && ChainOk(chain + [b])
    ensures StopFromChain(chain + [b]) ==
      if b.wedge then StopPoint(b.seqNum) else if b.startsEpoch then 0 else StopFromChain(chain)
  {
    hide ChainOk, LatestEpoch, StopFromChain;
    var c := chain + [b];
    StopArmedExactly(chain);
    StopArmedExactly(c);
    AppendEpoch(chain, b);
    var n := LatestWedge(chain);
    assert StillWedged(c) <==> b.wedge || (StillWedged(chain) && !b.startsEpoch) by {
      assert forall i :: 0 <= i < |chain| ==> c[i] == chain[i];
      assert c[|chain|] == b;
      if !b.wedge && n > 0 {
        assert forall i :: n <= i < |c| ==> (i < |chain| && c[i] == chain[i]) || (i == |chain| && c[i] == b);
      }
    }
  }

  /** Without install commands the stop in memory is always the one the chain tells. */
  lemma {:induction false} StopFollowsChain(s: State, e: Event)
    requires Running(s) && Numbered(e) && s.stopAt == StopFromChain(s.chain)
    requires e.Reconfigure? ==> !e.command.InstallCommand?
    ensures Step(s, e).stopAt == StopFromChain(Step(s, e).chain)
  {
    hide ChainOk, LatestEpoch, StopFromChain, StopPoint;
    StepKeeps(s, e);
    match e
    case AppBlock(seqNum) => StopAfterAppend(s.chain, Block(seqNum, None, false, false));
    case Reconfigure(c, seqNum) => StopAfterAppend(s.chain, Block(seqNum, Some(s.selfEpoch), Wedges(c), false));
    case Unwedge(seqNum, can, restart) =>
      if s.wedged && can && !restart {
        StopAfterAppend(s.chain, Block(seqNum, Some(s.selfEpoch + 1), false, true));
      }
    case _ =>
  }

  /** No block from n on carries the wedge key or starts an epoch. */
  predicate Plain(chain: seq<Block>, n: nat) {
    forall i :: n <= i < |chain| ==> !chain[i].wedge && !chain[i].startsEpoch
  }

  /** Removing blocks that neither wedge nor start an epoch leaves the stop as it is. */
  lemma {:induction false} StopOfPrefix(chain: seq<Block>, n: nat)
    requires ChainOk(chain) && n <= |chain| && Plain(chain, n)
    ensures StopFromChain(chain[..n]) == StopFromChain(chain)
    decreases |chain|
  {
    hide ChainOk, LatestEpoch, StopFromChain, StopPoint;
    if n < |chain| {
      var front := chain[..|chain| - 1];
      ChainOkPrefix(chain, |chain| - 1);
      assert chain == front + [chain[|chain| - 1]];
      StopAfterAppend(front, chain[|chain| - 1]);
      StopOfPrefix(front, n);
      assert front[..n] == chain[..n];
    } else {
      assert chain[..n] == chain;
    }
  }

  lemma {:induction false} RestartStop(s: State, kept: nat)
    requires Running(s) && !s.newEpochFlag && s.stopAt == StopFromChain(s.chain)
    requires Plain(s.chain, KeptBlocks(s, kept))
    ensures Step(s, Restart(kept)).stopAt == s.stopAt
  {
    hide ChainOk, LatestEpoch, StopFromChain;
    StopOfPrefix(s.chain, KeptBlocks(s, kept));
  }

  /**
   * Without install commands the stop in memory is always the one the chain tells, and a restart
   * whose sync removes no block that wedges or starts an epoch leaves it as it is.
   */
  lemma {:induction false} StopSurvivesRestarts(s: State, events: seq<Event>, kept: nat)
    requires Running(s) && AllNumbered(events) && NoInstall(events) && s.stopAt == StopFromChain(s.chain)
    ensures var end := Run(s, events);
      && end.stopAt == StopFromChain(end.chain)
      && (!end.newEpochFlag && Plain(end.chain, KeptBlocks(end, kept)) ==> Step(end, Restart(kept)).stopAt == end.stopAt)
    decreases |events|
  {
    hide ChainOk, LatestEpoch, StopFromChain, StopPoint, Plain, Step;
    if events != [] {
      StepKeeps(s, events[0]);
      StopFollowsChain(s, events[0]);
      StopSurvivesRestarts(Step(s, events[0]), events[1..], kept);
    } else if !s.newEpochFlag && Plain(s.chain, KeptBlocks(s, kept)) {
      RestartStop(s, kept);
    }
  }

  /** An install command stops the replica too, but leaves nothing on the chain that says so. */
  lemma {:induction false} InstallStopIsForgotten(s: State, seqNum: nat)
    requires Running(s) && seqNum > 0 && !s.newEpochFlag
    ensures var installed := Step(s, Reconfigure(InstallCommand, seqNum));
      && installed.stopAt == StopPoint(seqNum) > 0
      && (Step(installed, Restart(|installed.chain|)).stopAt == installed.stopAt
          <==> StopFromChain(s.chain) == StopPoint(seqNum))
  {
    hide ChainOk, LatestEpoch, StopFromChain;
    StopPointIsAhead(seqNum);
    StepKeeps(s, Reconfigure(InstallCommand, seqNum));
    StopAfterAppend(s.chain, Block(seqNum, Some(s.selfEpoch), false, false));
    var installed := Step(s, Reconfigure(InstallCommand, seqNum));
    assert installed.chain[..|installed.chain|] == installed.chain;
  }

  // ---------- when a replica is wedged ----------

  /** The stop of a wedge block: the multiple of the window more than one and at most two windows after it. */
  predicate IsStop(seqNum: nat, n: nat) {
    && n % CHECKPOINT_WINDOW_SIZE == 0
    && seqNum + CHECKPOINT_WINDOW_SIZE < n <= seqNum + 2 * CHECKPOINT_WINDOW_SIZE
  }

  /** The chain tells a replica that has executed up to n to stand still. */
  predicate StandsStill(chain: seq<Block>, n: nat) {
    StillWedged(chain) && IsStop(chain[LatestWedge(chain) - 1].seqNum, n)
  }

  lemma {:induction false} StopIsUnique(seqNum: nat, n: nat)
    requires seqNum > 0
    ensures IsStop(seqNum, n) <==> n == StopPoint(seqNum)
  {
    StopPointIsAhead(seqNum);
  }

  lemma {:induction false} StopFromChainIs(chain: seq<Block>, n: nat)
    requires ChainOk(chain)
    ensures StandsStill(chain, n) <==> StopFromChain(chain) != 0 && n == StopFromChain(chain)
  {
    hide ChainOk, StopPoint, StopFromChain, IsStop;
    StopArmedExactly(chain);
    if StillWedged(chain) {
      WedgeNumbered(chain);
      var seqNum := chain[LatestWedge(chain) - 1].seqNum;
      StopIsUnique(seqNum, n);
      StopPointIsAhead(seqNum);
    }
  }

  /** Any startup, the one after an interrupted startup included, wedges exactly when the chain says so. */
  lemma {:induction false} StartupWedges(s: State, kept: nat)
    requires ChainOk(s.chain) && s.persisted <= |s.chain|
    ensures var again := Startup(s, kept);
      again.wedged <==> StandsStill(again.chain, again.lastExecuted)
  {
    hide ChainOk, LatestEpoch, StopFromChain, StandsStill;
    StartupKeeps(s, kept);
    StopFromChainIs(Startup(s, kept).chain, s.lastExecuted);
  }

  /**
   * When a replica is wedged, over every run without install commands: a restart wedges it exactly when no new epoch
   * follows the latest wedge block and it has executed up to that block's stop; executing wedges it exactly at that
   * stop; only a supported unwedge without restart frees it; nothing else changes it.
   */
  lemma {:induction false} WedgedExactly(s: State, events: seq<Event>, e: Event)
    requires IsNew(s) && AllNumbered(events) && NoInstall(events) && Numbered(e)
    ensures var end := Run(s, events);
      var next := Step(end, e);
      next.wedged <==>
        match e
        case Restart(_) => StandsStill(next.chain, next.lastExecuted)
        case InterruptedRestart(_, _, _) => StandsStill(next.chain, next.lastExecuted)
        case Execute(n) => end.wedged || StandsStill(end.chain, n)
        case Unwedge(_, canUnwedge, restart) => end.wedged && (!canUnwedge || restart)
        case _ => end.wedged
  {
    hide ChainOk, LatestEpoch, StopFromChain, StandsStill, Startup, Interrupted, Run;
    NewIsRunning(s);
    RunKeeps(s, events);
    var end := Run(s, events);
    match e
    case Restart(kept) => StartupWedges(end, kept);
    case InterruptedRestart(kept, persistedFirst, keptNext) =>
      InterruptedKeeps(end, kept, persistedFirst);
      StartupWedges(Interrupted(end, kept, persistedFirst), keptNext);
    case Execute(n) =>
      StopSurvivesRestarts(s, events, 0);
      StopFromChainIs(end.chain, n);
    case _ =>
  }

  /**
   * The commands that wedge, restart, or add and remove replicas with a wedge leave the stop on the chain: it is armed
   * at once, and again by a restart that keeps the block. Installation arms it in memory only, other commands do not.
   */
  lemma {:induction false} CommandStops(s: State, c: Command, seqNum: nat, n: nat)
    requires Running(s) && seqNum > 0
    ensures var next := Step(s, Reconfigure(c, seqNum));
      && (c.WedgeCommand? || c.RestartCommand? || c.AddRemoveWithWedgeCommand? ==>
           (StandsStill(next.chain, n) <==> IsStop(seqNum, n)) && IsStop(seqNum, next.stopAt))
      && (c.InstallCommand? ==> IsStop(seqNum, next.stopAt))
      && (c.InstallCommand? || c.OtherCommand? ==> (StandsStill(next.chain, n) <==> StandsStill(s.chain, n)))
      && (c.OtherCommand? ==> next.stopAt == s.stopAt)
  {
    hide ChainOk, LatestEpoch, StopFromChain, StandsStill, StopPoint, IsStop;
    var next := Step(s, Reconfigure(c, seqNum));
    StepKeeps(s, Reconfigure(c, seqNum));
    StopAfterAppend(s.chain, Block(seqNum, Some(s.selfEpoch), Wedges(c), false));
    StopFromChainIs(next.chain, n);
    StopFromChainIs(s.chain, n);
    StopIsUnique(seqNum, n);
    StopIsUnique(seqNum, StopPoint(seqNum));
    StopPointIsAhead(seqNum);
  }

  /** With install commands too, a restart wedges exactly when the chain says so. */
  lemma {:induction false} RestartWedgesExactly(s: State, events: seq<Event>, kept: nat)
    requires IsNew(s) && AllNumbered(events)
    ensures var again := Step(Run(s, events), Restart(kept));
      again.wedged <==> StandsStill(again.chain, again.lastExecuted)
  {
    hide ChainOk, LatestEpoch, StandsStill, Startup, Run;
    NewIsRunning(s);
    RunKeeps(s, events);
    StartupWedges(Run(s, events), kept);
  }

  // ---------- when a new epoch starts ----------

  /** A supported unwedge with restart has reached the wedged replica since its last startup. */
  predicate Asked(s: State, events: seq<Event>)
    decreases |events|
  {
    events != [] &&
    var front, e := events[..|events| - 1], events[|events| - 1];
    match e
    case Restart(_) => false
    case InterruptedRestart(_, _, _) => false
    case Unwedge(_, canUnwedge, restart) => (Run(s, front).wedged && canUnwedge && restart) || Asked(s, front)
    case _ => Asked(s, front)
  }

  lemma {:induction false} RunSnoc(s: State, events: seq<Event>, e: Event)
    ensures Run(s, events + [e]) == Step(Run(s, events), e)
    decreases |events|
  {
    hide Step;
    if events == [] {
      assert [e][1..] == [];
      assert events + [e] == [e];
    } else {
      assert (events + [e])[1..] == events[1..] + [e];
      RunSnoc(Step(s, events[0]), events[1..], e);
    }
  }

  lemma {:induction false} FlagIsAsked(s: State, events: seq<Event>)
    requires !s.newEpochFlag
    ensures Run(s, events).newEpochFlag <==> Asked(s, events)
    decreases |events|
  {
    hide LatestEpoch, StopFromChain, StopPoint;
    if events != [] {
      var front, e := events[..|events| - 1], events[|events| - 1];
      assert events == front + [e];
      FlagIsAsked(s, front);
      RunSnoc(s, front, e);
    }
  }

  /**
   * On every run, a restart starts the next epoch exactly when a supported unwedge with restart asked for it since
   * the last startup, and otherwise takes over the epoch of the blocks that the sync left. The new epoch is on the
   * chain, persisted, disarms the stop and frees the replica.
   */
  lemma {:induction false} RestartStartsEpochIffAsked(s: State, events: seq<Event>, kept: nat)
    requires IsNew(s) && AllNumbered(events)
    ensures var end := Run(s, events);
      var again, before := Step(end, Restart(kept)), LatestEpoch(end.chain[..KeptBlocks(end, kept)]);
      && again.selfEpoch == LatestEpoch(again.chain) == (if Asked(s, events) then before + 1 else before)
      && !again.newEpochFlag
      && (Asked(s, events) ==> again.stopAt == 0 && !again.wedged && again.persisted == |again.chain|)
  {
    hide ChainOk, LatestEpoch, StopFromChain, Run;
    NewIsRunning(s);
    RunKeeps(s, events);
    FlagIsAsked(s, events);
    var end := Run(s, events);
    var lost := Lost(end, kept);
    ChainOkPrefix(end.chain, KeptBlocks(end, kept));
    AppendEpoch(lost.chain, Block(lost.lastExecuted, Some(LatestEpoch(lost.chain) + 1), false, true));
    NewEpochEventKeeps(lost);
    if end.newEpochFlag {
      StopAfterAppend(lost.chain, Block(lost.lastExecuted, Some(LatestEpoch(lost.chain) + 1), false, true));
    }
  }

  /** Without restart a supported unwedge starts the next epoch at once; with restart it waits for the startup. */
  lemma {:induction false} UnwedgeStartsEpoch(s: State, seqNum: nat, restart: bool, kept: nat)
    requires Running(s) && s.wedged
    ensures var next := Step(s, Unwedge(seqNum, true, restart));
      if restart then
        var again := Step(next, Restart(kept));
        && next == s.(newEpochFlag := true)
        && again.selfEpoch == LatestEpoch(s.chain[..KeptBlocks(s, kept)]) + 1 == LatestEpoch(again.chain)
        && again.stopAt == 0 && !again.wedged
      else
        && next.selfEpoch == s.selfEpoch + 1 == LatestEpoch(next.chain)
        && next.stopAt == 0 == StopFromChain(next.chain) && !next.wedged && next.persisted == |next.chain|
  {
    hide ChainOk, LatestEpoch, StopFromChain;
    if restart {
      var lost := Lost(s.(newEpochFlag := true), kept);
      ChainOkPrefix(s.chain, KeptBlocks(s, kept));
      NewEpochEventKeeps(lost);
      AppendEpoch(lost.chain, Block(lost.lastExecuted, Some(LatestEpoch(lost.chain) + 1), false, true));
      StopAfterAppend(lost.chain, Block(lost.lastExecuted, Some(LatestEpoch(lost.chain) + 1), false, true));
    } else {
      StepKeeps(s, Unwedge(seqNum, true, false));
      StopAfterAppend(s.chain, Block(seqNum, Some(s.selfEpoch + 1), false, true));
    }
  }

  // ---------- the handlers ----------

  datatype UnwedgeStatus = UnwedgeStatus(epoch: nat, validSignature: bool)

  /** Replicas whose signed status is not from an earlier epoch. */
  function Supporters(unwedges: map<nat, UnwedgeStatus>, epoch: nat): set<nat> {
    set id | id in unwedges && unwedges[id].epoch >= epoch && unwedges[id].validSignature
  }

  class Replica {
    var chain: seq<Block>
    var persisted: nat
    var newEpochFlag: bool
    var selfEpoch: nat
    var stopAt: nat
    var wedged: bool
    var lastExecuted: nat

    function Current(): State
      reads this
    {
      State(chain, persisted, newEpochFlag, selfEpoch, stopAt, wedged, lastExecuted)
    }

    constructor ()
      ensures IsNew(Current()) && lastExecuted == 0
    {
      chain, persisted, newEpochFlag, selfEpoch, stopAt, wedged, lastExecuted := [], 0, false, 0, 0, false, 0;
    }

    /** The handlers of reconfiguration commands. */
    method HandleCommand(command: Command, seqNum: nat)
      modifies this
      ensures Current() == Step(old(Current()), Reconfigure(command, seqNum))
    {
      PersistReconfigurationBlock(seqNum, Wedges(command));
      if Wedges(command) || command.InstallCommand? {
        SetStopAtNextCheckpoint(seqNum);
      }
    }

    method PersistReconfigurationBlock(seqNum: nat, includeWedge: bool)
      modifies `chain
      ensures chain == old(chain) + [Block(seqNum, Some(selfEpoch), includeWedge, false)]
    {
      chain := chain + [Block(seqNum, Some(selfEpoch), includeWedge, false)];
    }

    method SetStopAtNextCheckpoint(seqNum: nat)
      modifies `stopAt
      ensures stopAt == StopPoint(seqNum)
      ensures seqNum > 0 ==> stopAt % CHECKPOINT_WINDOW_SIZE == 0
      ensures seqNum > 0 ==> seqNum + CHECKPOINT_WINDOW_SIZE < stopAt <= seqNum + 2 * CHECKPOINT_WINDOW_SIZE
    {
      if seqNum == 0 {
        stopAt := 0;
        return;
      }
      StopPointIsAhead(seqNum);
      var stop := seqNum + 2 * CHECKPOINT_WINDOW_SIZE;
      stopAt := stop - stop % CHECKPOINT_WINDOW_SIZE;
    }

    /** persistLastBlockIdInMetadata. */
    method PersistLastBlockId()
      modifies `persisted
      ensures persisted == |chain|
    {
      persisted := |chain|;
    }

    method PersistNewEpochBlock(seqNum: nat)
      modifies this
      ensures Current() == NewEpochBlock(old(Current()), seqNum)
    {
      chain := chain + [Block(seqNum, Some(selfEpoch + 1), false, true)];
      selfEpoch := selfEpoch + 1;
      PersistLastBlockId();
    }

    /** Counts the valid signatures of the current epoch. */
    method CountSupporters(unwedges: map<nat, UnwedgeStatus>) returns (n: nat)
      ensures n == |Supporters(unwedges, selfEpoch)|
    {
      n := 0;
      var rest := unwedges.Keys;
      ghost var seen: set<nat> := {};
      while rest != {}
        invariant rest <= unwedges.Keys
        invariant seen == set id | id in Supporters(unwedges, selfEpoch) && id !in rest
        invariant n == |seen|
        decreases |rest|
      {
        var id :| id in rest;
        rest := rest - {id};
        if unwedges[id].epoch >= selfEpoch && unwedges[id].validSignature {
          n := n + 1;
          seen := seen + {id};
        }
      }
      assert seen == Supporters(unwedges, selfEpoch);
    }

    /** The Unwedge handler: a quorum of the replicas, or of a BFT majority, starts a new epoch. */
    method HandleUnwedge(seqNum: nat, unwedges: map<nat, UnwedgeStatus>, quorum: nat, restart: bool) returns (ok: bool)
      modifies this
      ensures ok <==> !old(wedged) || |Supporters(unwedges, old(selfEpoch))| >= quorum
      ensures Current() == Step(old(Current()), Unwedge(seqNum, ok, restart))
    {
      if !wedged {
        return true;
      }
      var valid := CountSupporters(unwedges);
      ok := valid >= quorum;
      if ok {
        if !restart {
          PersistNewEpochBlock(seqNum);
          SetStopAtNextCheckpoint(0);
          wedged := false;
        } else {
          newEpochFlag := true;
        }
      }
    }

    /** handleNewEpochEvent. */
    method HandleNewEpochEvent()
      modifies this
      ensures Current() == OnNewEpochEvent(old(Current()))
    {
      var epoch := LatestEpoch(chain);
      if newEpochFlag {
        epoch := epoch + 1;
        chain := chain + [Block(lastExecuted, Some(epoch), false, true)];
        PersistLastBlockId();
        newEpochFlag := false;
      }
      selfEpoch := epoch;
    }

    /** handleWedgeEvent. */
    method HandleWedgeEvent()
      modifies this
      ensures Current() == OnWedgeEvent(old(Current()))
    {
      hide LatestEpoch;
      var n := LatestWedge(chain);
      if n == 0 {
        return;
      }
      var seqNum := chain[n - 1].seqNum;
      if seqNum == 0 {
        return;
      }
      var wedgePoint := seqNum + 2 * CHECKPOINT_WINDOW_SIZE;
      wedgePoint := wedgePoint - wedgePoint % CHECKPOINT_WINDOW_SIZE;
      var wedgeEpoch := if chain[n - 1].epoch.Some? then chain[n - 1].epoch.value else 0;
      if wedgeEpoch == LatestEpoch(chain) {
        SetStopAtNextCheckpoint(seqNum);
        if wedgePoint == lastExecuted {
          wedged := true;
        }
      }
    }

    /** A restart: memory is lost, the state sync removes unpersisted blocks, then the two events are handled. */
    method Start(kept: nat)
      modifies this
      ensures Current() == Step(old(Current()), Restart(kept))
    {
      ghost var s := Current();
      selfEpoch, stopAt, wedged := 0, 0, false;
      while |chain| > persisted && |chain| > kept
        invariant KeptBlocks(s, kept) <= |chain| <= |s.chain|
        invariant Current() == s.(chain := s.chain[..|chain|], selfEpoch := 0, stopAt := 0, wedged := false)
        decreases |chain|
      {
        chain := chain[..|chain| - 1];
      }
      assert Current() == Lost(s, kept);
      HandleNewEpochEvent();
      HandleWedgeEvent();
    }
  }
}
