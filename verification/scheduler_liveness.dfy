/** Every queued task leaves the queue after a bounded number of turnovers, wherever it stands. */
module SchedulerLiveness {
  import opened TaskClaims
  import opened SchedulerRules
  import opened SchedulerRuns
  import opened SchedulerFairness

  // ---------------------------------------------------------------------------------------------
  // A turnover clears the head

  /** Since `before`, only tasks that may run beside the head have joined it. */
  ghost predicate OnlyCompatibleJoined(before: seq<Task>, active: seq<Task>, head: Task) {
    forall t :: t in active ==> t in before || (!head.IsExclusive() && !TasksConflict(head, t))
  }

  /** The head is where it was, and nothing that it blocks has started. */
  ghost predicate HeadHolds(before: seq<Task>, s: State, head: Task) {
    s.queue != [] && s.queue[0] == head && OnlyCompatibleJoined(before, s.active, head)
  }

  /** A task that starts past the head is compatible with it. */
  lemma StartsBesideHead(limits: Limits, s: State, head: Task, task: Task)
    requires WellFormed(s) && s.queue != [] && s.queue[0] == head
    requires Enabled(limits, s, Started(task)) && task != head
    ensures !head.IsExclusive() && !TasksConflict(head, task)
    ensures Apply(s, Started(task)).queue != [] && Apply(s, Started(task)).queue[0] == head
  {
    var i :| IsNext(limits, s, i) && s.queue[i] == task;
    assert i > 0;
    WithoutAt(s.queue, i);
    ClaimSetsConflictSymmetric(task.claims, head.claims);
  }

  lemma HeadHoldsStep(limits: Limits, before: seq<Task>, s: State, event: Event, head: Task)
    requires WellFormed(s) && HeadHolds(before, s, head) && Enabled(limits, s, event)
    requires head in Apply(s, event).queue
    ensures HeadHolds(before, Apply(s, event), head)
  {
    WithoutHead(s.queue);
    WithoutMembers(s.active, event.task);
    hide TasksConflict, IsNext, WellFormed;
    match event
    case Started(task) => StartsBesideHead(limits, s, head, task);
    case _ =>
  }

  lemma {:induction false} HeadHoldsThroughout(limits: Limits, history: seq<Event>, at: nat, k: nat, head: Task)
    requires ValidLimits(limits) && Legal(limits, history) && at <= k <= |history|
    requires StateAt(history, at).queue != [] && StateAt(history, at).queue[0] == head
    requires head in StateAt(history, k).queue
    ensures HeadHolds(StateAt(history, at).active, StateAt(history, k), head)
    decreases k
  {
    hide TasksConflict, Legal, WellFormed, Safe, Enabled, HeadHolds;
    if at < k {
      QueuedBefore(limits, history, at, k, head);
      HeadHoldsThroughout(limits, history, at, k - 1, head);
      SafeAt(limits, history, k - 1);
      StateAfter(history, k - 1);
      PrefixIsLegal(limits, history, k - 1);
      HeadHoldsStep(limits, StateAt(history, at).active, StateAt(history, k - 1), history[k - 1], head);
    } else {
      HeadHoldsAtFirst(StateAt(history, at), head);
    }
  }

  lemma HeadHoldsAtFirst(s: State, head: Task)
    requires s.queue != [] && s.queue[0] == head
    ensures HeadHolds(s.active, s, head)
  {
  }

  /** At rest after a turnover the head is clear: what it waited for has left and nothing of the kind came. */
  lemma TurnoverClearsHead(limits: Limits, history: seq<Event>, at: nat, k: nat, head: Task)
    requires ValidLimits(limits) && Legal(limits, history) && at <= k <= |history|
    requires StateAt(history, at).queue != [] && StateAt(history, at).queue[0] == head
    requires head in StateAt(history, k).queue
    requires TurnedOver(history, at, k) && Quiescent(limits, StateAt(history, k))
    ensures ClearHead(StateAt(history, k), head)
  {
    HeadHoldsThroughout(limits, history, at, k, head);
    hide TasksConflict, Legal;
    var s := StateAt(history, k);
    WorkIsConserved(limits, s);
    assert s.active[0] in s.active;
    assert forall j :: 0 <= j < |s.active| ==> s.active[j] in s.active;
  }

  /** Wherever it came from, a head that cannot starve is gone after two turnovers. */
  lemma TwoTurnoversStartHead(limits: Limits, history: seq<Event>, at: nat, mid: nat, k: nat, head: Task)
    requires ValidLimits(limits) && Legal(limits, history) && Eager(limits, history) && at <= mid <= k <= |history|
    requires StateAt(history, at).queue != [] && StateAt(history, at).queue[0] == head && CannotStarve(limits, head)
    requires TurnedOver(history, at, mid) && TurnedOver(history, mid, k)
    requires Quiescent(limits, StateAt(history, mid)) && Quiescent(limits, StateAt(history, k))
    ensures head !in StateAt(history, k).queue
  {
    hide Legal, Eager, Quiescent, ClearHead, TurnedOver;
    if head in StateAt(history, k).queue {
      QueuedBefore(limits, history, at, k, head);
      TurnoverClearsHead(limits, history, at, mid, head);
      NoHeadOutwaitsATurnover(limits, history, mid, k, head);
    }
  }

  // ---------------------------------------------------------------------------------------------
  // The tasks ahead

  /** The queued tasks submitted before `task`. */
  function Ahead(s: State, task: Task): (older: set<Task>) {
    set t | t in s.queue && t.sequence < task.sequence
  }

  /** Nobody joins the queue ahead of a task that was submitted. */
  lemma {:induction false} NobodyCutsIn(limits: Limits, history: seq<Event>, at: nat, k: nat, older: Task)
    requires ValidLimits(limits) && Legal(limits, history) && at <= k <= |history|
    requires older.sequence < StateAt(history, at).submitted && older in StateAt(history, k).queue
    ensures older in StateAt(history, at).queue
    decreases k
  {
    hide WellFormed, Safe, Legal, Enabled;
    if at < k {
      SafeAt(limits, history, k - 1);
      StateAfter(history, k - 1);
      PrefixIsLegal(limits, history, k - 1);
      SubmissionsGrow(history, at, k - 1);
      if older !in StateAt(history, k - 1).queue {
        NeverRequeued(limits, StateAt(history, k - 1), history[k - 1], older);
      }
      NobodyCutsIn(limits, history, at, k - 1, older);
    }
  }

  /** Once the head is gone a waiting task has fewer tasks ahead of it. */
  lemma FewerAhead(limits: Limits, history: seq<Event>, at: nat, k: nat, task: Task)
    requires ValidLimits(limits) && Legal(limits, history) && at <= k <= |history|
    requires task in StateAt(history, at).queue && task in StateAt(history, k).queue
    requires StateAt(history, at).queue[0] !in StateAt(history, k).queue
    ensures Ahead(StateAt(history, k), task) < Ahead(StateAt(history, at), task)
  {
    var first, last := StateAt(history, at), StateAt(history, k);
    hide Legal, Safe;
    SafeAt(limits, history, at);
    var i :| 0 <= i < |first.queue| && first.queue[i] == task;
    assert first.queue[0] in Ahead(first, task);
    forall t | t in Ahead(last, task)
      ensures t in Ahead(first, task)
    {
      NobodyCutsIn(limits, history, at, k, t);
    }
    assert first.queue[0] !in Ahead(last, task);
  }

  /** Moments of rest between any two of which every task that was active has released. */
  ghost predicate Turnovers(limits: Limits, history: seq<Event>, marks: seq<nat>) {
    && (forall i :: 0 <= i < |marks| ==> marks[i] <= |history| && Quiescent(limits, StateAt(history, marks[i])))
    && (forall i :: 0 < i < |marks| ==> marks[i - 1] <= marks[i])
    && (forall i :: 0 < i < |marks| ==> TurnedOver(history, marks[i - 1], marks[i]))
  }

  /** Neither the task nor any queued one ahead of it is of the kind that can be overtaken for ever. */
  ghost predicate NobodyStarves(limits: Limits, s: State, task: Task) {
    CannotStarve(limits, task) && forall t :: t in Ahead(s, task) ==> CannotStarve(limits, t)
  }

  lemma TurnoversOf(limits: Limits, history: seq<Event>, marks: seq<nat>)
    requires Turnovers(limits, history, marks) && |marks| >= 3
    ensures marks[0] <= marks[1] <= marks[2] <= |history|
    ensures TurnedOver(history, marks[0], marks[1]) && TurnedOver(history, marks[1], marks[2])
    ensures Quiescent(limits, StateAt(history, marks[1])) && Quiescent(limits, StateAt(history, marks[2]))
    ensures Turnovers(limits, history, marks[2..])
  {
    hide TurnedOver, Quiescent;
    assert TurnedOver(history, marks[1 - 1], marks[1]) && TurnedOver(history, marks[2 - 1], marks[2]);
    forall i | 0 < i < |marks[2..]|
      ensures marks[2..][i - 1] <= marks[2..][i] && TurnedOver(history, marks[2..][i - 1], marks[2..][i])
    {
      assert marks[2..][i - 1] == marks[i + 2 - 1] && marks[2..][i] == marks[i + 2];
    }
  }

  lemma HeadCannotStarve(limits: Limits, s: State, task: Task)
    requires WellFormed(s) && task in s.queue && NobodyStarves(limits, s, task)
    ensures CannotStarve(limits, s.queue[0])
  {
    assert s.queue[0] != task ==> s.queue[0] in Ahead(s, task);
  }

  /**
   * Liveness for every queued task, whatever it and the tasks ahead of it claim or exclude: with `n`
   * tasks ahead it has left the queue after `2 * (n + 1)` turnovers.
   */
  lemma {:induction false} EveryTaskLeaves(limits: Limits, history: seq<Event>, marks: seq<nat>, task: Task)
    requires ValidLimits(limits) && Legal(limits, history) && Eager(limits, history)
    requires Turnovers(limits, history, marks) && marks != [] && task in StateAt(history, marks[0]).queue
    requires NobodyStarves(limits, StateAt(history, marks[0]), task)
    requires |marks| > 2 * (|Ahead(StateAt(history, marks[0]), task)| + 1)
    ensures task !in StateAt(history, marks[|marks| - 1]).queue
    decreases |marks|
  {
    hide Legal, Eager, Turnovers, TurnedOver, Quiescent, WellFormed, Safe, CannotStarve;
    TurnoversOf(limits, history, marks);
    var first, third, last := StateAt(history, marks[0]), StateAt(history, marks[2]), marks[|marks| - 1];
    SafeAt(limits, history, marks[0]);
    HeadCannotStarve(limits, first, task);
    TwoTurnoversStartHead(limits, history, marks[0], marks[1], marks[2], first.queue[0]);
    if task in third.queue {
      FewerAhead(limits, history, marks[0], marks[2], task);
      FewerThan(Ahead(third, task), Ahead(first, task));
      EveryTaskLeaves(limits, history, marks[2..], task);
    } else {
      LastIsLater(limits, history, marks);
      StaysAway(limits, history, marks[0], marks[2], last, task);
    }
  }

  lemma FewerThan(fewer: set<Task>, more: set<Task>)
    requires fewer < more
    ensures |fewer| < |more|
  {
    var t :| t in more && t !in fewer;
    SubsetSize(fewer, more - {t});
  }

  lemma {:induction false} SubsetSize(a: set<Task>, b: set<Task>)
    requires a <= b
    ensures |a| <= |b|
    decreases |a|
  {
    if a != {} {
      var t :| t in a;
      SubsetSize(a - {t}, b - {t});
    }
  }

  lemma {:induction false} LastIsLater(limits: Limits, history: seq<Event>, marks: seq<nat>)
    requires Turnovers(limits, history, marks) && |marks| >= 3
    ensures marks[2] <= marks[|marks| - 1] <= |history|
    decreases |marks|
  {
    hide TurnedOver, Quiescent;
    if |marks| > 3 {
      var init := marks[..|marks| - 1];
      forall i | 0 < i < |init|
        ensures init[i - 1] <= init[i] && TurnedOver(history, init[i - 1], init[i])
      {
        assert TurnedOver(history, marks[i - 1], marks[i]);
      }
      LastIsLater(limits, history, init);
      assert marks[|marks| - 1 - 1] <= marks[|marks| - 1];
    }
  }

  lemma StaysAway(limits: Limits, history: seq<Event>, at: nat, mid: nat, k: nat, task: Task)
    requires ValidLimits(limits) && Legal(limits, history) && at <= mid <= k <= |history|
    requires task in StateAt(history, at).queue && task !in StateAt(history, mid).queue
    ensures task !in StateAt(history, k).queue
  {
    if task in StateAt(history, k).queue {
      QueuedBefore(limits, history, at, k, task);
    }
  }
}
