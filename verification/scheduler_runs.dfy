/** Ordering, progress and fairness of every run of the scheduler. */
module SchedulerRuns {
  import opened TaskClaims
  import opened SchedulerRules

  /** Before event `k`, `task` had left: dropped from the queue, or started and released. */
  ghost predicate Departed(history: seq<Event>, k: nat, task: Task)
    requires k <= |history|
  {
    exists m :: 0 <= m < k && (history[m] == Dropped(task) || history[m] == Released(task))
  }

  function StateAt(history: seq<Event>, k: nat): (s: State)
    requires k <= |history|
  {
    Replay(history[..k])
  }

  lemma StateAfter(history: seq<Event>, k: nat)
    requires k < |history|
    ensures StateAt(history, k + 1) == Apply(StateAt(history, k), history[k])
  {
    assert history[..k + 1][..k] == history[..k];
  }

  lemma SafeAt(limits: Limits, history: seq<Event>, k: nat)
    requires ValidLimits(limits) && Legal(limits, history) && k <= |history|
    ensures WellFormed(StateAt(history, k)) && Safe(limits, StateAt(history, k))
    ensures k < |history| ==> Enabled(limits, StateAt(history, k), history[k])
  {
    PrefixIsLegal(limits, history, k);
    EveryRunIsSafe(limits, history[..k]);
  }

  lemma {:induction false} SubmissionsGrow(history: seq<Event>, i: nat, k: nat)
    requires i <= k <= |history|
    ensures StateAt(history, i).submitted <= StateAt(history, k).submitted
    decreases k - i
  {
    if i < k {
      StateAfter(history, i);
      SubmissionsGrow(history, i + 1, k);
    }
  }

  lemma WithoutMembers(tasks: seq<Task>, gone: Task)
    requires Distinct(tasks)
    ensures forall t :: t in Without(tasks, gone) <==> t in tasks && t != gone
  {
    if gone in tasks {
      var i :| 0 <= i < |tasks| && tasks[i] == gone;
      WithoutAt(tasks, i);
      var rest := tasks[..i] + tasks[i + 1..];
      forall t | t in tasks && t != gone
        ensures t in rest
      {
        var j :| 0 <= j < |tasks| && tasks[j] == t;
        assert t == rest[if j < i then j else j - 1];
      }
    } else {
      WithoutAbsent(tasks, gone);
    }
  }

  lemma {:induction false} WithoutAbsent(tasks: seq<Task>, gone: Task)
    requires gone !in tasks
    ensures Without(tasks, gone) == tasks
  {
    if tasks != [] {
      WithoutAbsent(tasks[1..], gone);
    }
  }

  ghost predicate Held(s: State, task: Task) {
    task in s.queue || task in s.active
  }

  /** A submitted task stays in the queue or in the active set until it departs. */
  lemma {:induction false} HeldUntilDeparture(limits: Limits, history: seq<Event>, i: nat, k: nat, task: Task)
    requires ValidLimits(limits) && Legal(limits, history)
    requires i < k <= |history| && history[i] == Submitted(task)
    requires !Departed(history, k, task)
    ensures Held(StateAt(history, k), task)
    decreases k
  {
    StateAfter(history, k - 1);
    if k - 1 > i {
      HeldUntilDeparture(limits, history, i, k - 1, task);
      SafeAt(limits, history, k - 1);
      var s := StateAt(history, k - 1);
      WithoutMembers(s.queue, history[k - 1].task);
      WithoutMembers(s.active, history[k - 1].task);
    }
  }

  /** Known to the scheduler once, and no longer queued or active. */
  ghost predicate Gone(s: State, task: Task) {
    task.sequence < s.submitted && !Held(s, task)
  }

  lemma DepartureRemoves(limits: Limits, s: State, event: Event)
    requires WellFormed(s) && Enabled(limits, s, event) && (event.Dropped? || event.Released?)
    ensures Gone(Apply(s, event), event.task)
  {
    if event.Dropped? {
      WithoutMembers(s.queue, event.task);
    } else {
      WithoutMembers(s.active, event.task);
    }
  }

  lemma AbsenceLasts(limits: Limits, s: State, event: Event, task: Task)
    requires WellFormed(s) && Enabled(limits, s, event) && Gone(s, task)
    ensures Gone(Apply(s, event), task)
  {
    WithoutMembers(s.queue, event.task);
    WithoutMembers(s.active, event.task);
  }

  /** Once departed, a task is never queued or active again. */
  lemma {:induction false} GoneForGood(limits: Limits, history: seq<Event>, m: nat, k: nat)
    requires ValidLimits(limits) && Legal(limits, history)
    requires m < k <= |history| && (history[m].Dropped? || history[m].Released?)
    ensures Gone(StateAt(history, k), history[m].task)
    decreases k
  {
    var before := k - 1;
    StateAfter(history, before);
    SafeAt(limits, history, before);
    assert Enabled(limits, StateAt(history, before), history[before]);
    if m < before {
      GoneForGood(limits, history, m, before);
      AbsenceLasts(limits, StateAt(history, before), history[before], history[m].task);
    } else {
      DepartureRemoves(limits, StateAt(history, before), history[before]);
    }
  }

  lemma StartedFromQueue(limits: Limits, history: seq<Event>, k: nat, task: Task)
    requires Legal(limits, history) && k < |history| && history[k] == Started(task)
    ensures task in StateAt(history, k).queue
  {
    PrefixIsLegal(limits, history, k);
  }

  /**
   * Submission order decides between any two tasks that may not overlap. When the younger one
   * starts, an older one that shares a path tree with it, or either being exclusive, has already
   * left and never starts later: their ownership intervals are disjoint and in submission order,
   * nothing overtakes an exclusive task, and an exclusive task waits for everything older.
   */
  lemma OlderBlockerHasLeft(limits: Limits, history: seq<Event>, i: nat, j: nat, k: nat, older: Task, younger: Task)
    requires ValidLimits(limits) && Legal(limits, history)
    requires i < j < |history| && history[i] == Submitted(older) && history[j] == Submitted(younger)
    requires k < |history| && history[k] == Started(younger)
    requires TasksConflict(older, younger) || older.IsExclusive() || younger.IsExclusive()
    ensures j < k && Departed(history, k, older)
    ensures forall m :: k <= m < |history| ==> history[m] != Started(older)
  {
    SubmissionOrder(limits, history, i, j, k, older, younger);
    if !Departed(history, k, older) {
      HeldUntilDeparture(limits, history, i, k, older);
      var s := StateAt(history, k);
      SafeAt(limits, history, k);
      var at :| IsNext(limits, s, at) && s.queue[at] == younger;
      ClaimSetsConflictSymmetric(older.claims, younger.claims);
      BlockedByOlder(limits, s, at, older);
    }
    var d :| 0 <= d < k && (history[d] == Dropped(older) || history[d] == Released(older));
    forall m | k <= m < |history|
      ensures history[m] != Started(older)
    {
      GoneForGood(limits, history, d, m);
      if history[m] == Started(older) {
        StartedFromQueue(limits, history, m, older);
      }
    }
  }

  lemma SubmissionOrder(limits: Limits, history: seq<Event>, i: nat, j: nat, k: nat, older: Task, younger: Task)
    requires ValidLimits(limits) && Legal(limits, history)
    requires i < j < |history| && history[i] == Submitted(older) && history[j] == Submitted(younger)
    requires k < |history| && history[k] == Started(younger)
    ensures older.sequence < younger.sequence && j < k
  {
    PrefixIsLegal(limits, history, i);
    PrefixIsLegal(limits, history, j);
    StateAfter(history, i);
    SubmissionsGrow(history, i + 1, j);
    StartedFromQueue(limits, history, k, younger);
    SafeAt(limits, history, k);
    if k <= j {
      SubmissionsGrow(history, k, j);
    }
  }

  lemma BlockedByOlder(limits: Limits, s: State, at: nat, older: Task)
    requires WellFormed(s) && IsNext(limits, s, at)
    requires older.sequence < s.queue[at].sequence
    requires TasksConflict(s.queue[at], older) || older.IsExclusive() || s.queue[at].IsExclusive()
    ensures !Held(s, older)
  {
    forall q | 0 <= q < |s.queue|
      ensures s.queue[q] != older
    {
      assert q >= at ==> s.queue[q].sequence >= s.queue[at].sequence;
    }
    forall q | 0 <= q < |s.active|
      ensures s.active[q] != older
    {
    }
  }

  // ---------------------------------------------------------------------------------------------
  // Progress

  /** When nothing is active, the head of the queue can start: waiting always waits for a runner. */
  lemma WorkIsConserved(limits: Limits, s: State)
    requires ValidLimits(limits) && Quiescent(limits, s) && s.queue != []
    ensures s.active != []
  {
    if s.active == [] {
      assert Runnable(limits, s, 0);
    }
  }

  function Remaining(s: State): (n: nat) {
    2 * |s.queue| + |s.active|
  }

  lemma StepUsesWork(limits: Limits, s: State, event: Event)
    requires WellFormed(s) && Enabled(limits, s, event) && !event.Submitted?
    ensures Remaining(Apply(s, event)) < Remaining(s)
  {
    if event.Released? {
      var i :| 0 <= i < |s.active| && s.active[i] == event.task;
      WithoutAt(s.active, i);
    } else {
      var i :| 0 <= i < |s.queue| && s.queue[i] == event.task;
      WithoutAt(s.queue, i);
    }
  }

  /**
   * Without submissions every event uses up remaining work, so at most `Remaining` events follow;
   * together with `WorkIsConserved` the scheduler can only stop when it is idle.
   */
  lemma {:induction false} RunsDrain(limits: Limits, history: seq<Event>, from: nat, to: nat)
    requires ValidLimits(limits) && Legal(limits, history) && from <= to <= |history|
    requires forall k :: from <= k < to ==> !history[k].Submitted?
    ensures to + Remaining(StateAt(history, to)) <= from + Remaining(StateAt(history, from))
    decreases |history| - from
  {
    if from < to {
      StateAfter(history, from);
      SafeAt(limits, history, from);
      StepUsesWork(limits, StateAt(history, from), history[from]);
      RunsDrain(limits, history, from + 1, to);
    }
  }

  /** A run without submissions that comes to rest has a runner left to wait for, or is idle. */
  lemma DrainedOrWaiting(limits: Limits, history: seq<Event>, from: nat)
    requires ValidLimits(limits) && Legal(limits, history) && from <= |history|
    requires forall k :: from <= k < |history| ==> !history[k].Submitted?
    requires Quiescent(limits, Replay(history))
    ensures var s := Replay(history);
            (s.queue == [] && s.active == []) || exists t :: Enabled(limits, s, Released(t))
    ensures |history| <= from + Remaining(StateAt(history, from))
    ensures |history| == from + Remaining(StateAt(history, from)) ==>
              Replay(history).queue == [] && Replay(history).active == []
  {
    assert history[..|history|] == history;
    RunsDrain(limits, history, from, |history|);
    var s := Replay(history);
    if s.active == [] && s.queue != [] {
      WorkIsConserved(limits, s);
    }
    if s.active != [] {
      assert Enabled(limits, s, Released(s.active[0]));
    }
  }
}
