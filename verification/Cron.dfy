/** A cron table with periodic actions and the entry that persists their schedule. */
module Cron {
  import opened Common

  /** A periodic action with its period in milliseconds, or the entry that saves the schedule. */
  datatype CronEntry = Periodic(period: nat) | Persist

  /** The next invocation of the entry at a position of a component's table. */
  type Schedule = map<(nat, nat), int>

  /** What happened to the entries of a table: executions and removals. */
  datatype LogEntry = Fired(position: nat, time: int, period: nat) | Removed(position: nat)

  datatype State = State(
    entries: map<nat, CronEntry>, schedule: Schedule, pending: bool, page: Option<Schedule>, log: seq<LogEntry>)

  datatype Event =
    | Evaluate(component: nat, time: Option<int>)
    | AddEntry(position: nat, entry: CronEntry)
    | RemoveEntry(position: nat)
    | Restart

  // ---------- evaluating a table ----------

  /** The positions in ascending order. */
  function Ascending(ids: set<nat>): (r: seq<nat>)
    ensures forall p :: p in r <==> p in ids
    ensures forall i, j :: 0 <= i < j < |r| ==> r[i] < r[j]
  {
    if ids == {} then []
    else
      var m := MinOf(ids);
      var rest := Ascending(ids - {m});
      assert forall p :: p in ids ==> p == m || p in ids - {m};
      assert forall i :: 0 <= i < |rest| ==> rest[i] in rest;
      [m] + rest
  }

  /** The rule of a periodic action: time is known and the next invocation, if scheduled, has come. */
  predicate Due(schedule: Schedule, component: nat, p: nat, time: Option<int>) {
    time.Some? && ((component, p) in schedule ==> time.value >= schedule[(component, p)])
  }

  function EvaluateEntry(s: State, component: nat, time: Option<int>, p: nat): State {
    if p !in s.entries then s
    else match s.entries[p]
      case Periodic(period) =>
        if Due(s.schedule, component, p, time) then
          s.(schedule := s.schedule[(component, p) := time.value + period], pending := true,
             log := s.log + [Fired(p, time.value, period)])
        else s
      case Persist => if s.pending then s.(page := Some(s.schedule), pending := false) else s
  }

  function EvaluateUpTo(s: State, component: nat, time: Option<int>, order: seq<nat>, n: nat): State
    requires n <= |order|
  {
    if n == 0 then s else EvaluateEntry(EvaluateUpTo(s, component, time, order, n - 1), component, time, order[n - 1])
  }

  /** CronTable::evaluate; a tick of another component is ignored. */
  function EvaluateTable(s: State, component: nat, tickComponent: nat, time: Option<int>): State {
    if tickComponent != component then s
    else
      var order := Ascending(s.entries.Keys);
      EvaluateUpTo(s, component, time, order, |order|)
  }

  /** removeEntry with the on_remove of the entry. */
  function Remove(s: State, component: nat, p: nat): State {
    if p !in s.entries then s
    else
      var schedule := s.schedule - {(component, p)};
      match s.entries[p]
      case Periodic(_) =>
        s.(entries := s.entries - {p}, schedule := schedule, page := Some(schedule), log := s.log + [Removed(p)])
      case Persist => s.(entries := s.entries - {p}, page := Some(map[]))
  }

  function Step(s: State, component: nat, e: Event): State {
    match e
    case Evaluate(c, time) => EvaluateTable(s, component, c, time)
    case AddEntry(p, entry) => if p in s.entries then s else s.(entries := s.entries[p := entry])
    case RemoveEntry(p) => Remove(s, component, p)
    case Restart => s.(schedule := if s.page.Some? then s.page.value else map[], pending := false)
  }

  function Run(s: State, component: nat, events: seq<Event>): State
    decreases |events|
  {
    if events == [] then s else Run(Step(s, component, events[0]), component, events[1..])
  }

  // ---------- what one evaluation does ----------

  /** A periodic action that runs when the table is evaluated. */
  predicate Fires(s: State, component: nat, time: Option<int>, p: nat) {
    p in s.entries && s.entries[p].Periodic? && Due(s.schedule, component, p, time)
  }

  /** The page holds the schedule; a page that was never saved stands for the empty one. */
  predicate Saved(s: State) {
    s.schedule == if s.page.Some? then s.page.value else map[]
  }

  predicate Increasing(order: seq<nat>) {
    forall i, j :: 0 <= i < j < |order| ==> order[i] < order[j]
  }

  /** After n entries: those that fire are rescheduled, the others are as they were. */
  lemma {:induction false} EvaluatedSchedule(
    s: State, component: nat, time: Option<int>, order: seq<nat>, n: nat, p: nat)
    requires n <= |order| && Increasing(order)
    ensures var s' := EvaluateUpTo(s, component, time, order, n);
      && s'.entries == s.entries
      && (p in order[..n] && Fires(s, component, time, p) ==>
           (component, p) in s'.schedule && s'.schedule[(component, p)] == time.value + s.entries[p].period)
      && (!(p in order[..n] && Fires(s, component, time, p)) ==>
           && ((component, p) in s'.schedule <==> (component, p) in s.schedule)
           && ((component, p) in s.schedule ==> s'.schedule[(component, p)] == s.schedule[(component, p)]))
  {
    if n > 0 {
      EvaluatedSchedule(s, component, time, order, n - 1, p);
      EvaluatedSchedule(s, component, time, order, n - 1, order[n - 1]);
      assert order[..n] == order[..n - 1] + [order[n - 1]];
      assert order[n - 1] !in order[..n - 1];
    }
  }

  /** An entry fires in its turn exactly when it was due before the evaluation. */
  lemma {:induction false} FiresInTurn(s: State, component: nat, time: Option<int>, order: seq<nat>, n: nat)
    requires n < |order| && Increasing(order)
    ensures var before := EvaluateUpTo(s, component, time, order, n);
      Fires(before, component, time, order[n]) <==> Fires(s, component, time, order[n])
  {
    EvaluatedSchedule(s, component, time, order, n, order[n]);
    assert order[n] !in order[..n];
  }

  /** After n entries the schedule waits to be saved exactly when an entry fired and the saving entry did not follow. */
  lemma {:induction false} EvaluatedPending(
    s: State, component: nat, time: Option<int>, order: seq<nat>, n: nat, q: nat)
    requires n <= |order| && Increasing(order) && !s.pending && Saved(s)
    requires forall p :: p in s.entries ==> (s.entries[p].Persist? <==> p == q)
    ensures var s' := EvaluateUpTo(s, component, time, order, n);
      && s'.entries == s.entries
      && (s'.pending || Saved(s'))
      && (s'.pending <==> Unsaved(s, component, time, order, n, q))
  {
    if n > 0 {
      EvaluatedPending(s, component, time, order, n - 1, q);
      FiresInTurn(s, component, time, order, n - 1);
      PendingStep(s, component, time, order, n, q);
    }
  }

  /** Some fired entry among the first n is not followed by the saving entry. */
  predicate Unsaved(s: State, component: nat, time: Option<int>, order: seq<nat>, n: nat, q: nat)
    requires n <= |order|
  {
    exists i :: 0 <= i < n && Fires(s, component, time, order[i]) && !(q in s.entries && q in order[i..n])
  }

  lemma {:induction false} PendingStep(s: State, component: nat, time: Option<int>, order: seq<nat>, n: nat, q: nat)
    requires 0 < n <= |order|
    requires q in s.entries ==> !Fires(s, component, time, q)
    ensures Unsaved(s, component, time, order, n, q) <==>
      if q in s.entries && order[n - 1] == q then false
      else Fires(s, component, time, order[n - 1]) || Unsaved(s, component, time, order, n - 1, q)
  {
    forall i | 0 <= i < n
      ensures q in order[i..n] <==> order[n - 1] == q || q in order[i..n - 1]
    {
      assert order[i..n] == order[i..n - 1] + [order[n - 1]];
    }
    if Unsaved(s, component, time, order, n - 1, q) && !(q in s.entries && order[n - 1] == q) {
      var i :| 0 <= i < n - 1 && Fires(s, component, time, order[i]) && !(q in s.entries && q in order[i..n - 1]);
      assert !(q in s.entries && q in order[i..n]);
    }
    if Unsaved(s, component, time, order, n, q) {
      var i :| 0 <= i < n && Fires(s, component, time, order[i]) && !(q in s.entries && q in order[i..n]);
      if i < n - 1 {
        assert !(q in s.entries && q in order[i..n - 1]);
      }
    }
  }

  /** A fired entry that the saving entry does not follow comes after it. */
  lemma {:induction false} UnsavedIsLater(s: State, component: nat, time: Option<int>, order: seq<nat>, q: nat)
    requires Increasing(order) && q in s.entries && !Fires(s, component, time, q)
    requires forall p :: p in order <==> p in s.entries
    ensures Unsaved(s, component, time, order, |order|, q) <==>
      exists p :: p in s.entries && p > q && Fires(s, component, time, p)
  {
    hide Fires;
    assert q in order;
    var k :| 0 <= k < |order| && order[k] == q;
    if p :| p in s.entries && p > q && Fires(s, component, time, p) {
      assert p in order;
      var i :| 0 <= i < |order| && order[i] == p;
      assert forall j :: i <= j < |order| ==> order[j] >= p;
      assert q !in order[i..|order|];
    }
    assert forall i :: 0 <= i <= k ==> order[i..|order|][k - i] == q;
    if i :| 0 <= i < |order| && Fires(s, component, time, order[i]) && q !in order[i..|order|] {
      assert order[i] in order && order[i] > q;
    }
  }

  /** An evaluation does not touch the schedule of other components. */
  lemma {:induction false} OtherSchedules(
    s: State, component: nat, time: Option<int>, order: seq<nat>, n: nat, key: (nat, nat))
    requires n <= |order| && key.0 != component
    ensures var s' := EvaluateUpTo(s, component, time, order, n);
      && (key in s'.schedule <==> key in s.schedule)
      && (key in s.schedule ==> s'.schedule[key] == s.schedule[key])
  {
    if n > 0 {
      OtherSchedules(s, component, time, order, n - 1, key);
    }
  }

  /** The page does not change after the saving entry. */
  lemma {:induction false} PageAfter(
    s: State, component: nat, time: Option<int>, order: seq<nat>, k: nat, n: nat)
    requires k <= n <= |order| && Increasing(order)
    requires forall i :: k <= i < n ==> order[i] in s.entries ==> s.entries[order[i]].Periodic?
    ensures EvaluateUpTo(s, component, time, order, n).page == EvaluateUpTo(s, component, time, order, k).page
  {
    if n > k {
      PageAfter(s, component, time, order, k, n - 1);
      EvaluatedSchedule(s, component, time, order, n - 1, order[n - 1]);
    }
  }

  /** Every entry after q that fires is scheduled again for the time it had. */
  predicate LaterUnmoved(s: State, component: nat, time: Option<int>, q: nat) {
    forall p :: p in s.entries && p > q && Fires(s, component, time, p) ==>
      (component, p) in s.schedule && s.schedule[(component, p)] == time.value + s.entries[p].period
  }

  /** The entries up to the k-th are those up to its position. */
  lemma {:induction false} UpToPosition(order: seq<nat>, k: nat, p: nat)
    requires k < |order| && Increasing(order)
    ensures p in order[..k + 1] <==> p in order && p <= order[k]
  {
    if p in order {
      var i :| 0 <= i < |order| && order[i] == p;
      assert i <= k ==> order[..k + 1][i] == p;
    }
  }

  /** From right after the k-th entry on the schedule changes only where a later entry moves. */
  lemma {:induction false} ScheduleSince(s: State, component: nat, time: Option<int>, order: seq<nat>, k: nat)
    requires k < |order| && Increasing(order)
    requires forall p :: p in order <==> p in s.entries
    ensures EvaluateUpTo(s, component, time, order, |order|).schedule
         == EvaluateUpTo(s, component, time, order, k + 1).schedule
       <==> LaterUnmoved(s, component, time, order[k])
  {
    hide EvaluateUpTo;
    var mid, end := EvaluateUpTo(s, component, time, order, k + 1), EvaluateUpTo(s, component, time, order, |order|);
    forall p
      ensures var x := (component, p);
        if p in s.entries && p > order[k] && Fires(s, component, time, p) then
          && x in end.schedule && end.schedule[x] == time.value + s.entries[p].period
          && (x in mid.schedule <==> x in s.schedule) && (x in s.schedule ==> mid.schedule[x] == s.schedule[x])
        else
          (x in end.schedule <==> x in mid.schedule) && (x in end.schedule ==> end.schedule[x] == mid.schedule[x])
    {
      EvaluatedSchedule(s, component, time, order, |order|, p);
      EvaluatedSchedule(s, component, time, order, k + 1, p);
      assert order[..|order|] == order;
      UpToPosition(order, k, p);
    }
    if LaterUnmoved(s, component, time, order[k]) {
      forall x: (nat, nat)
        ensures x in end.schedule <==> x in mid.schedule
        ensures x in end.schedule ==> end.schedule[x] == mid.schedule[x]
      {
        if x.0 != component {
          OtherSchedules(s, component, time, order, |order|, x);
          OtherSchedules(s, component, time, order, k + 1, x);
        } else {
          assert x == (component, x.1);
        }
      }
    }
  }

  lemma {:induction false} SavedAtPersist(
    s: State, component: nat, time: Option<int>, order: seq<nat>, k: nat)
    requires k < |order| && Increasing(order) && !s.pending && Saved(s) && order[k] in s.entries
    requires forall p :: p in s.entries ==> (s.entries[p].Persist? <==> p == order[k])
    ensures Saved(EvaluateUpTo(s, component, time, order, k + 1))
  {
    hide Saved, EvaluateUpTo, Unsaved;
    EvaluatedPending(s, component, time, order, k + 1, order[k]);
    PendingStep(s, component, time, order, k + 1, order[k]);
  }

  lemma {:induction false} SavedAtEnd(s: State, component: nat, time: Option<int>, order: seq<nat>, q: nat)
    requires Increasing(order) && !s.pending && Saved(s) && q in s.entries
    requires forall p :: p in order <==> p in s.entries
    requires forall p :: p in s.entries ==> (s.entries[p].Persist? <==> p == q)
    ensures Saved(EvaluateUpTo(s, component, time, order, |order|)) <==> LaterUnmoved(s, component, time, q)
  {
    hide EvaluateUpTo, LaterUnmoved;
    assert q in order;
    var k :| 0 <= k < |order| && order[k] == q;
    SavedAtPersist(s, component, time, order, k);
    PageAfter(s, component, time, order, k + 1, |order|);
    ScheduleSince(s, component, time, order, k);
  }

  /**
   * An evaluation of the table leaves the schedule waiting to be saved exactly when an entry after
   * the saving one fires, and the page in step with the schedule exactly when every such entry is
   * scheduled again for the time it had.
   */
  lemma {:induction false} SavedUnlessLaterEntryMoves(s: State, component: nat, time: Option<int>, q: nat)
    requires !s.pending && Saved(s) && q in s.entries
    requires forall p :: p in s.entries ==> (s.entries[p].Persist? <==> p == q)
    ensures var s' := EvaluateTable(s, component, component, time);
      && s'.entries == s.entries
      && (s'.pending <==> exists p :: p in s.entries && p > q && Fires(s, component, time, p))
      && (Saved(s') <==> LaterUnmoved(s, component, time, q))
  {
    hide EvaluateUpTo, Unsaved, Due, LaterUnmoved, Saved;
    var order := Ascending(s.entries.Keys);
    EvaluatedPending(s, component, time, order, |order|, q);
    UnsavedIsLater(s, component, time, order, q);
    SavedAtEnd(s, component, time, order, q);
  }

  /** When later entries have positive periods, the page falls behind exactly when one of them fires. */
  lemma {:induction false} SavedUnlessLaterEntryFires(s: State, component: nat, time: Option<int>, q: nat)
    requires !s.pending && Saved(s) && q in s.entries
    requires forall p :: p in s.entries ==> (s.entries[p].Persist? <==> p == q)
    requires forall p :: p in s.entries && p > q ==> s.entries[p].period > 0
    ensures Saved(EvaluateTable(s, component, component, time))
       <==> !exists p :: p in s.entries && p > q && Fires(s, component, time, p)
  {
    hide EvaluateTable, Saved;
    SavedUnlessLaterEntryMoves(s, component, time, q);
    if p :| p in s.entries && p > q && Fires(s, component, time, p) {
      assert Due(s.schedule, component, p, time);
    }
  }

  /** A periodic action behind the saving entry. */
  function LateEntry(period: nat, schedule: Schedule, page: Option<Schedule>): State {
    State(map[1 := Persist, 2 := Periodic(period)], schedule, false, page, [])
  }

  lemma {:induction false} LateEntryOrder()
    ensures Ascending({1, 2}) == [1, 2]
  {
    var r := Ascending({1, 2});
    assert 1 in r && 2 in r;
    assert forall i :: 0 <= i < |r| ==> r[i] in r;
  }

  /** One evaluation of such a table when the action is due. */
  lemma {:induction false} LateEntryFires(
    period: nat, schedule: Schedule, page: Option<Schedule>, log: seq<LogEntry>, t: int)
    requires (0, 2) in schedule ==> t >= schedule[(0, 2)]
    ensures var s := LateEntry(period, schedule, page).(log := log);
      EvaluateTable(s, 0, 0, Some(t))
      == s.(schedule := schedule[(0, 2) := t + period], pending := true, log := log + [Fired(2, t, period)])
  {
    var s := LateEntry(period, schedule, page).(log := log);
    LateEntryOrder();
    assert s.entries.Keys == {1, 2};
    var order := [1, 2];
    assert EvaluateUpTo(s, 0, Some(t), order, 0) == s;
    assert EvaluateUpTo(s, 0, Some(t), order, 1) == s;
  }

  /**
   * The failing case: the page misses what the late action was scheduled for, so after a restart it
   * runs again before its period is over.
   */
  lemma {:induction false} LateEntryRepeats()
    ensures var s := LateEntry(10, map[], None);
      && Saved(s) && !Saved(Run(s, 0, [Evaluate(0, Some(5))]))
      && !Spaced(Run(s, 0, [Evaluate(0, Some(5)), Restart, Evaluate(0, Some(6))]).log)
  {
    hide EvaluateTable, Spaced;
    var s := LateEntry(10, map[], None);
    var events := [Evaluate(0, Some(5)), Restart, Evaluate(0, Some(6))];
    LateEntryFires(10, map[], None, [], 5);
    var s1 := Step(s, 0, events[0]);
    assert Run(s, 0, [Evaluate(0, Some(5))]) == s1;
    assert (0, 2) in s1.schedule;
    var s2 := Step(s1, 0, events[1]);
    LateEntryFires(10, map[], None, [Fired(2, 5, 10)], 6);
    assert s2 == LateEntry(10, map[], None).(log := [Fired(2, 5, 10)]);
    var s3 := Step(s2, 0, events[2]);
    RunThree(s, events);
    assert s3.log == [Fired(2, 5, 10), Fired(2, 6, 10)];
    TooClose(s3.log);
  }

  lemma {:induction false} RunThree(s: State, events: seq<Event>)
    requires |events| == 3
    ensures Run(s, 0, events) == Step(Step(Step(s, 0, events[0]), 0, events[1]), 0, events[2])
  {
    hide Step;
    assert events[1..][0] == events[1] && events[1..][1..] == [events[2]];
    assert Run(Step(Step(s, 0, events[0]), 0, events[1]), 0, [events[2]])
        == Step(Step(Step(s, 0, events[0]), 0, events[1]), 0, events[2]);
  }

  lemma {:induction false} TooClose(log: seq<LogEntry>)
    requires log == [Fired(2, 5, 10), Fired(2, 6, 10)]
    ensures !Spaced(log)
  {
    assert Consecutive(log, 0, 1);
  }

  /** A late action with period zero can fire and leave the page in step all the same. */
  lemma {:induction false} LateEntryUnmoved(t: int)
    ensures var s := LateEntry(0, map[(0, 2) := t], Some(map[(0, 2) := t]));
      Saved(s) && EvaluateTable(s, 0, 0, Some(t)).pending && Saved(EvaluateTable(s, 0, 0, Some(t)))
  {
    LateEntryFires(0, map[(0, 2) := t], Some(map[(0, 2) := t]), [], t);
  }

  // ---------- the log of a table ----------

  predicate About(e: LogEntry, p: nat) {
    e.position == p
  }

  /** The last thing that happened to the entry at a position. */
  function LastAbout(log: seq<LogEntry>, p: nat): Option<LogEntry> {
    if log == [] then None
    else if About(log[|log| - 1], p) then Some(log[|log| - 1])
    else LastAbout(log[..|log| - 1], p)
  }

  /** Two executions of an entry with nothing about it in between. */
  predicate Consecutive(log: seq<LogEntry>, i: nat, j: nat)
    requires i < j < |log|
  {
    && log[i].Fired? && log[j].Fired? && log[i].position == log[j].position
    && forall k :: i < k < j ==> !About(log[k], log[i].position)
  }

  /** Consecutive executions are at least a period apart. */
  ghost predicate Spaced(log: seq<LogEntry>) {
    forall i, j :: 0 <= i < j < |log| && Consecutive(log, i, j) ==> log[j].time >= log[i].time + log[i].period
  }

  lemma {:induction false} LastAboutAppend(log: seq<LogEntry>, e: LogEntry, p: nat)
    ensures LastAbout(log + [e], p) == if About(e, p) then Some(e) else LastAbout(log, p)
  {
    assert (log + [e])[..|log|] == log;
  }

  lemma {:induction false} LastAboutIs(log: seq<LogEntry>, i: nat)
    requires i < |log| && forall k :: i < k < |log| ==> !About(log[k], log[i].position)
    ensures LastAbout(log, log[i].position) == Some(log[i])
  {
    if i < |log| - 1 {
      assert !About(log[|log| - 1], log[i].position);
      LastAboutIs(log[..|log| - 1], i);
    }
  }

  lemma {:induction false} SpacedAppend(log: seq<LogEntry>, e: LogEntry)
    requires Spaced(log)
    requires e.Fired? ==>
      match LastAbout(log, e.position) case Some(Fired(_, t, period)) => e.time >= t + period case _ => true
    ensures Spaced(log + [e])
  {
    var log' := log + [e];
    forall i, j | 0 <= i < j < |log'| && Consecutive(log', i, j)
      ensures log'[j].time >= log'[i].time + log'[i].period
    {
      if j < |log| {
        assert forall k :: i <= k <= j ==> log'[k] == log[k];
        assert Consecutive(log, i, j);
      } else {
        assert forall k :: i < k < |log| ==> log'[k] == log[k];
        LastAboutIs(log, i);
      }
    }
  }

  // ---------- runs ----------

  /** The last execution of an entry determines its next invocation. */
  predicate Scheduled(s: State, component: nat, p: nat) {
    match LastAbout(s.log, p)
    case Some(Fired(_, t, period)) =>
      && p in s.entries && s.entries[p] == Periodic(period)
      && (component, p) in s.schedule && s.schedule[(component, p)] == t + period
    case _ => true
  }

  ghost predicate Consistent(s: State, component: nat) {
    Spaced(s.log) && forall p :: Scheduled(s, component, p)
  }

  lemma {:induction false} EntryKeepsConsistent(s: State, component: nat, time: Option<int>, p: nat)
    requires Consistent(s, component)
    ensures Consistent(EvaluateEntry(s, component, time, p), component)
  {
    hide Spaced, LastAbout;
    var s' := EvaluateEntry(s, component, time, p);
    if Fires(s, component, time, p) {
      var e := Fired(p, time.value, s.entries[p].period);
      assert Scheduled(s, component, p);
      SpacedAppend(s.log, e);
      forall r
        ensures Scheduled(s', component, r)
      {
        assert Scheduled(s, component, r);
        LastAboutAppend(s.log, e, r);
      }
    } else {
      forall r
        ensures Scheduled(s', component, r)
      {
        assert Scheduled(s, component, r);
      }
    }
  }

  lemma {:induction false} EvaluationKeepsConsistent(
    s: State, component: nat, time: Option<int>, order: seq<nat>, n: nat)
    requires n <= |order| && Consistent(s, component)
    ensures Consistent(EvaluateUpTo(s, component, time, order, n), component)
  {
    hide Consistent, EvaluateEntry;
    if n > 0 {
      EvaluationKeepsConsistent(s, component, time, order, n - 1);
      EntryKeepsConsistent(EvaluateUpTo(s, component, time, order, n - 1), component, time, order[n - 1]);
    }
  }

  lemma {:induction false} RemoveKeepsConsistent(s: State, component: nat, p: nat)
    requires Consistent(s, component)
    ensures Consistent(Remove(s, component, p), component)
  {
    hide Spaced, LastAbout;
    var s' := Remove(s, component, p);
    assert Scheduled(s, component, p);
    if p in s.entries && s.entries[p].Periodic? {
      SpacedAppend(s.log, Removed(p));
    }
    forall r
      ensures Scheduled(s', component, r)
    {
      assert Scheduled(s, component, r);
      LastAboutAppend(s.log, Removed(p), r);
    }
  }

  /** A restart is harmless while the page holds the schedule. */
  predicate Allowed(s: State, e: Event) {
    e.Restart? ==> Saved(s)
  }

  lemma {:induction false} StepKeepsConsistent(s: State, component: nat, e: Event)
    requires Consistent(s, component) && Allowed(s, e)
    ensures Consistent(Step(s, component, e), component)
  {
    hide Spaced, LastAbout;
    match e
    case Evaluate(c, time) =>
      if c == component {
        var order := Ascending(s.entries.Keys);
        EvaluationKeepsConsistent(s, component, time, order, |order|);
      }
    case RemoveEntry(p) => RemoveKeepsConsistent(s, component, p);
    case AddEntry(_, _) =>
      assert forall r :: Scheduled(s, component, r) ==> Scheduled(Step(s, component, e), component, r);
    case Restart =>
      assert forall r :: Scheduled(s, component, r) ==> Scheduled(Step(s, component, e), component, r);
  }

  ghost predicate AllowedRun(s: State, component: nat, events: seq<Event>)
    decreases |events|
  {
    events == [] || (Allowed(s, events[0]) && AllowedRun(Step(s, component, events[0]), component, events[1..]))
  }

  /** Whatever times the ticks carry, executions of an entry that is not removed in between are a period apart. */
  lemma {:induction false} PeriodsApart(s: State, component: nat, events: seq<Event>)
    requires Consistent(s, component) && AllowedRun(s, component, events)
    ensures Consistent(Run(s, component, events), component)
    ensures Spaced(Run(s, component, events).log)
    decreases |events|
  {
    hide Spaced, Scheduled, Step;
    if events != [] {
      StepKeepsConsistent(s, component, events[0]);
      PeriodsApart(Step(s, component, events[0]), component, events[1..]);
    }
  }

  /** After n entries the log tells of each of them that fired. */
  lemma {:induction false} EvaluatedLog(s: State, component: nat, time: Option<int>, order: seq<nat>, n: nat, p: nat)
    requires n <= |order| && Increasing(order)
    ensures LastAbout(EvaluateUpTo(s, component, time, order, n).log, p) ==
      if p in order[..n] && Fires(s, component, time, p) then Some(Fired(p, time.value, s.entries[p].period))
      else LastAbout(s.log, p)
  {
    if n > 0 {
      var before, r := EvaluateUpTo(s, component, time, order, n - 1), order[n - 1];
      EvaluatedLog(s, component, time, order, n - 1, p);
      EvaluatedSchedule(s, component, time, order, n - 1, r);
      FiresInTurn(s, component, time, order, n - 1);
      assert order[..n] == order[..n - 1] + [r];
      assert r !in order[..n - 1];
      if Fires(s, component, time, r) {
        LastAboutAppend(before.log, Fired(r, time.value, s.entries[r].period), p);
      }
    }
  }

  /**
   * An entry that has run runs again at a tick exactly when the tick is at or past one period after
   * its last execution, and otherwise its last execution stays the last.
   */
  lemma {:induction false} FiresAtFirstDueTick(s: State, component: nat, time: int, p: nat, t: int, period: nat)
    requires Consistent(s, component) && LastAbout(s.log, p) == Some(Fired(p, t, period))
    ensures LastAbout(EvaluateTable(s, component, component, Some(time)).log, p) ==
      Some(Fired(p, if time >= t + period then time else t, period))
  {
    hide LastAbout, EvaluateUpTo, Spaced;
    var order := Ascending(s.entries.Keys);
    assert Scheduled(s, component, p);
    EvaluatedLog(s, component, Some(time), order, |order|, p);
    assert order[..|order|] == order;
  }

  // ---------- adding and removing entries ----------

  /**
   * A periodic entry that is added runs at the first tick with a time, unless it is still scheduled for later.
   */
  lemma {:induction false} AddedEntryFires(s: State, component: nat, p: nat, period: nat, time: int)
    requires p !in s.entries
    ensures var s' := Step(s, component, AddEntry(p, Periodic(period)));
      var log := EvaluateTable(s', component, component, Some(time)).log;
      LastAbout(log, p) ==
        if (component, p) in s.schedule && time < s.schedule[(component, p)] then LastAbout(s.log, p)
        else Some(Fired(p, time, period))
  {
    hide LastAbout, EvaluateUpTo;
    var s' := Step(s, component, AddEntry(p, Periodic(period)));
    var order := Ascending(s'.entries.Keys);
    EvaluatedLog(s', component, Some(time), order, |order|, p);
    assert order[..|order|] == order;
    assert p in order;
  }

  /**
   * A periodic entry that is removed is forgotten, in memory and on the page. Added again it runs at the next tick
   * that carries a time, however recently it ran.
   */
  lemma {:induction false} RemovedEntryFiresAgain(s: State, component: nat, p: nat, period: nat, time: int)
    requires p in s.entries && s.entries[p].Periodic?
    ensures var s1 := Step(s, component, RemoveEntry(p));
      && p !in s1.entries && (component, p) !in s1.schedule && Saved(s1)
      && (forall q :: q != p ==>
           (q in s1.entries <==> q in s.entries) && (q in s.entries ==> s1.entries[q] == s.entries[q]))
      && var s2 := Step(s1, component, AddEntry(p, Periodic(period)));
      && LastAbout(EvaluateTable(s2, component, component, None).log, p) == Some(Removed(p))
      && LastAbout(EvaluateTable(s2, component, component, Some(time)).log, p) == Some(Fired(p, time, period))
  {
    hide LastAbout, EvaluateUpTo;
    var s1 := Step(s, component, RemoveEntry(p));
    LastAboutAppend(s.log, Removed(p), p);
    AddedEntryFires(s1, component, p, period, time);
    var s2 := Step(s1, component, AddEntry(p, Periodic(period)));
    var order := Ascending(s2.entries.Keys);
    EvaluatedLog(s2, component, None, order, |order|, p);
  }

  /** Removing the saving entry empties the page: after a restart everything runs at its next tick with a time. */
  lemma {:induction false} RemovedPersistForgets(s: State, component: nat, q: nat, p: nat, time: int)
    requires q in s.entries && s.entries[q].Persist? && p in s.entries && s.entries[p].Periodic?
    ensures var s1 := Step(s, component, RemoveEntry(q));
      && q !in s1.entries && s1.page == Some(map[]) && s1.schedule == s.schedule && p in s1.entries
      && var s2 := Step(s1, component, Restart);
      && s2.schedule == map[]
      && LastAbout(EvaluateTable(s2, component, component, Some(time)).log, p)
         == Some(Fired(p, time, s.entries[p].period))
  {
    hide LastAbout, EvaluateUpTo;
    var s2 := Step(Step(s, component, RemoveEntry(q)), component, Restart);
    var order := Ascending(s2.entries.Keys);
    EvaluatedLog(s2, component, Some(time), order, |order|, p);
    assert order[..|order|] == order;
    assert p in order;
  }

  // ---------- with the saving entry last ----------

  /** One saving entry, and all periodic actions before it. */
  predicate PersistLast(s: State, q: nat) {
    && q in s.entries && s.entries[q] == Persist
    && forall p :: p in s.entries && p != q ==> p < q && s.entries[p].Periodic?
  }

  /** Entries are added before the saving entry, which stays. */
  predicate KeepsPersistLast(e: Event, q: nat) {
    && (e.AddEntry? ==> e.position < q && e.entry.Periodic?)
    && (e.RemoveEntry? ==> e.position != q)
  }

  lemma {:induction false} StepSaves(s: State, component: nat, q: nat, e: Event)
    requires PersistLast(s, q) && KeepsPersistLast(e, q) && !s.pending && Saved(s)
    ensures var s' := Step(s, component, e);
      PersistLast(s', q) && !s'.pending && Saved(s')
  {
    hide EvaluateTable;
    if e.Evaluate? {
      if e.component == component {
        SavedUnlessLaterEntryMoves(s, component, e.time, q);
      } else {
        OtherComponent(s, component, e.component, e.time);
      }
    }
  }

  lemma {:induction false} OtherComponent(s: State, component: nat, other: nat, time: Option<int>)
    requires other != component
    ensures EvaluateTable(s, component, other, time) == s
  {
  }

  /**
   * With the saving entry last, the page equals the schedule in memory after every event, restarts
   * included, and consecutive executions are a period apart across them.
   */
  lemma {:induction false} ScheduleSurvivesRestarts(s: State, component: nat, q: nat, events: seq<Event>)
    requires PersistLast(s, q) && !s.pending && Saved(s) && Consistent(s, component)
    requires forall i :: 0 <= i < |events| ==> KeepsPersistLast(events[i], q)
    ensures var end := Run(s, component, events);
      !end.pending && Saved(end) && Spaced(end.log) && Consistent(end, component)
    decreases |events|
  {
    hide Step, Saved, Consistent, PersistLast, Spaced;
    if events != [] {
      StepSaves(s, component, q, events[0]);
      AllowedWhenSaved(s, events[0]);
      StepKeepsConsistent(s, component, events[0]);
      ScheduleSurvivesRestarts(Step(s, component, events[0]), component, q, events[1..]);
    } else {
      ConsistentIsSpaced(s, component);
    }
  }

  lemma {:induction false} AllowedWhenSaved(s: State, e: Event)
    requires Saved(s)
    ensures Allowed(s, e)
  {
  }

  lemma {:induction false} ConsistentIsSpaced(s: State, component: nat)
    requires Consistent(s, component)
    ensures Spaced(s.log)
  {
  }

  // ---------- the table ----------

  class CronTable {
    const component: nat
    var entries: map<nat, CronEntry>
    // The schedule, the flag and the page are shared by the closures of the entries.
    var schedule: Schedule
    var pending: bool
    var page: Option<Schedule>
    ghost var log: seq<LogEntry>

    ghost function Current(): State
      reads this
    {
      State(entries, schedule, pending, page, log)
    }

    /** Loads the schedule from the page, if it was ever saved. */
    constructor (component: nat, page: Option<Schedule>)
      ensures this.component == component
      ensures Current() == State(map[], if page.Some? then page.value else map[], false, page, [])
      ensures Saved(Current())
    {
      this.component := component;
      entries := map[];
      schedule := if page.Some? then page.value else map[];
      pending := false;
      this.page := page;
      log := [];
    }

    method AddCronEntry(position: nat, entry: CronEntry)
      modifies this
      ensures Current() == Step(old(Current()), component, AddEntry(position, entry))
    {
      if position !in entries {
        entries := entries[position := entry];
      }
    }

    method RemoveCronEntry(position: nat) returns (removed: bool)
      modifies this
      ensures removed <==> position in old(entries)
      ensures Current() == Step(old(Current()), component, RemoveEntry(position))
    {
      if position !in entries {
        return false;
      }
      match entries[position] {
        case Periodic(_) =>
          schedule := schedule - {(component, position)};
          page := Some(schedule);
          log := log + [Removed(position)];
        case Persist =>
          page := Some(map[]);
      }
      entries := entries - {position};
      removed := true;
    }

    /** evaluate: walks the entries in the order of their positions. */
    method EvaluateTick(tickComponent: nat, time: Option<int>)
      modifies this
      ensures Current() == Step(old(Current()), component, Evaluate(tickComponent, time))
    {
      hide EvaluateEntry, Due, Ascending;
      var order := Ascending(entries.Keys);
      var n := 0;
      while n < |order|
        invariant n <= |order| && entries == old(entries)
        invariant Current() ==
          if tickComponent == component then EvaluateUpTo(old(Current()), component, time, order, n) else old(Current())
      {
        if tickComponent == component {
          RunEntry(order[n], time);
        }
        n := n + 1;
      }
    }

    /** Runs one entry if its rule holds: schedules its next invocation, then acts. */
    method RunEntry(position: nat, time: Option<int>)
      requires position in entries
      modifies this
      ensures Current() == EvaluateEntry(old(Current()), component, time, position) && entries == old(entries)
    {
      match entries[position] {
        case Periodic(period) =>
          if Due(schedule, component, position, time) {
            schedule := schedule[(component, position) := time.value + period];
            pending := true;
            log := log + [Fired(position, time.value, period)];
          }
        case Persist =>
          if pending {
            page := Some(schedule);
            pending := false;
          }
      }
    }
  }
}
