/** The per-session SFTP task scheduler: records, admission, deadlines, cancellation and release. */
module TaskScheduler {
  import opened Wrappers
  import opened TaskClaims
  import opened SchedulerRules
  import opened SchedulerRuns
  import opened SchedulerFairness
  import opened SchedulerLiveness
  import opened SchedulerAdmission

  datatype TaskState = Queued | Running | Succeeded | Failed | Cancelled

  datatype Failure = Failure(code: string, outcomeUnknown: bool)

  const DEADLINE_EXCEEDED := "SFTP_TASK_DEADLINE_EXCEEDED"
  const TASK_FAILED := "SFTP_OPERATION_FAILED"

  /** The changing part of a public task snapshot. */
  datatype Snapshot = Snapshot(
    state: TaskState,
    startedAt: Option<int>,
    finishedAt: Option<int>,
    cancelRequested: bool,
    result: Option<string>,
    partialResult: Option<string>,
    failure: Option<Failure>)
  {
    predicate Terminal() { state.Succeeded? || state.Failed? || state.Cancelled? }

    predicate OutcomeUnknown() { failure.Some? && failure.value.outcomeUnknown }
  }

  const Fresh := Snapshot(Queued, None, None, false, None, None, None)

  datatype RunOutcome =
    | RunSucceeded(result: string)
    | RunFailed(failure: Failure, partOfResult: Option<string>)
    | RunCancelled(partOfResult: Option<string>)

  /** Where the runner's promise chain is. */
  datatype RunnerStage = NotStarted | Scheduled | Executing | Settled | Finished

  /** Where the scheduler holds a record. */
  datatype Holding = InQueue | InActive | Nowhere

  datatype ScheduleError = EmptyOperation | InvalidTimeout | DuplicateId

  datatype AbortReason = ByDeadline | ByCancellation

  datatype Ending = EndedByRunner(outcome: RunOutcome) | EndedByScheduler(reason: AbortReason)

  /** The terminal fields a settlement writes; absent fields keep their value. */
  datatype Patch = Patch(state: TaskState, cancelRequested: bool, result: Option<string>, failure: Option<Failure>)

  function Patched(s: Snapshot, patch: Patch, now: int): (after: Snapshot) {
    s.(state := patch.state,
       cancelRequested := s.cancelRequested || patch.cancelRequested,
       result := if patch.result.Some? then patch.result else s.result,
       failure := if patch.failure.Some? then patch.failure else s.failure,
       finishedAt := Some(now))
  }

  function OutcomePatch(outcome: RunOutcome): (patch: Patch) {
    match outcome
    case RunSucceeded(result) => Patch(Succeeded, false, Some(result), None)
    case RunFailed(failure, part) => Patch(Failed, false, part, Some(failure))
    case RunCancelled(part) => Patch(Cancelled, true, part, None)
  }

  /** What a public snapshot must say of the runner's outcome: that state, exactly its result and failure. */
  predicate Reports(s: Snapshot, outcome: RunOutcome) {
    match outcome
    case RunSucceeded(result) =>
      s.state == Succeeded && s.result == Some(result) && s.failure.None? && !s.cancelRequested
    case RunFailed(failure, part) =>
      s.state == Failed && s.result == part && s.failure == Some(failure) && !s.cancelRequested
    case RunCancelled(part) =>
      s.state == Cancelled && s.result == part && s.failure.None? && s.cancelRequested
  }

  /** What it must say of a deadline or cancellation; only the outcome of a started mutation is unknown. */
  predicate Explains(s: Snapshot, reason: AbortReason, unknown: bool) {
    && s.result.None?
    && match reason
       case ByDeadline =>
         s.state == Failed && s.failure == Some(Failure(DEADLINE_EXCEEDED, unknown)) && !s.cancelRequested
       case ByCancellation =>
         if unknown then s.state == Failed && s.failure == Some(Failure(TASK_FAILED, true)) && !s.cancelRequested
         else s.state == Cancelled && s.failure.None? && s.cancelRequested
  }

  /** The terminal snapshot keeps what was known before and is dated `now`. */
  predicate KeepsHistory(before: Snapshot, after: Snapshot, now: int) {
    after.startedAt == before.startedAt && after.partialResult == before.partialResult && after.finishedAt == Some(now)
  }

  function DeadlinePatch(outcomeUnknown: bool): (patch: Patch) {
    Patch(Failed, false, None, Some(Failure(DEADLINE_EXCEEDED, outcomeUnknown)))
  }

  function CancellationPatch(outcomeUnknown: bool): (patch: Patch) {
    if outcomeUnknown then Patch(Failed, false, None, Some(Failure(TASK_FAILED, true)))
    else Patch(Cancelled, true, None, None)
  }

  /** A live task's snapshot after a deadline or cancellation. */
  function EndedSnapshot(s: Snapshot, reason: AbortReason, mutation: bool, now: int): (after: Snapshot) {
    var unknown := s.state.Running? && mutation;
    Patched(s, if reason.ByDeadline? then DeadlinePatch(unknown) else CancellationPatch(unknown), now)
  }

  class TaskRecord {
    const task: Task
    const createdAt: int
    const deadlineAt: int
    const hasAbortHook: bool
    var snapshot: Snapshot
    var timerArmed: bool
    var listening: bool
    var abortHookInvoked: bool
    var abortReason: Option<AbortReason>
    var runner: RunnerStage
    var completionResolved: bool
    var releaseResolved: bool
    ghost var held: Holding
    ghost var invoked: bool              // the runner callback was called
    ghost var ending: Option<Ending>     // who selected the terminal state
    ghost var hookCalls: nat
    ghost var completions: seq<Snapshot> // every resolution of `completion`
    ghost var releases: nat              // every resolution of `released`

    constructor (task: Task, createdAt: int, timeout: int, hasAbortHook: bool, listening: bool)
      ensures this.task == task && this.createdAt == createdAt && this.deadlineAt == createdAt + timeout
      ensures this.hasAbortHook == hasAbortHook && this.listening == listening
      ensures snapshot == Fresh && Coherent() && held.InQueue?
    {
      this.task, this.createdAt, this.deadlineAt := task, createdAt, createdAt + timeout;
      this.hasAbortHook, this.listening := hasAbortHook, listening;
      snapshot, timerArmed, abortHookInvoked, abortReason := Fresh, true, false, None;
      runner, completionResolved, releaseResolved := NotStarted, false, false;
      held, invoked, ending, hookCalls, completions, releases := InQueue, false, None, 0, [], 0;
    }

    /** The lifecycle rules of one record. */
    ghost predicate Coherent()
      reads this
    {
      && (held.InQueue? <==> snapshot.state.Queued?)
      && (snapshot.state.Running? ==> held.InActive?)
      && (held.InActive? <==> runner.Scheduled? || runner.Executing? || runner.Settled?)
      && (snapshot.state.Queued? ==> runner.NotStarted?)
      && (runner.Settled? || runner.Finished? ==> snapshot.Terminal())
      && (snapshot.startedAt.Some? <==> !runner.NotStarted?)
      && (snapshot.finishedAt.Some? <==> snapshot.Terminal())
      && (invoked ==> snapshot.startedAt.Some?)
      && (runner.NotStarted? || runner.Scheduled? ==> !invoked)
      && (runner.Executing? ==> invoked)
      && timerArmed == !snapshot.Terminal()
      && (listening ==> !snapshot.Terminal())
      && completionResolved == snapshot.Terminal()
      && completions == (if snapshot.Terminal() then [snapshot] else [])
      && releaseResolved == (snapshot.Terminal() && !held.InActive?)
      && releases == (if releaseResolved then 1 else 0)
      && hookCalls == (if abortHookInvoked then 1 else 0)
      && (abortHookInvoked <==> abortReason.Some? && hasAbortHook)
      && EndingCoherent()
    }

    /** What the terminal snapshot says, by who selected it. */
    ghost predicate EndingCoherent()
      reads this
    {
      && (ending.Some? <==> snapshot.Terminal())
      && (abortReason.Some? <==> ending.Some? && ending.value.EndedByScheduler? && snapshot.startedAt.Some?)
      && (ending.Some? && ending.value.EndedByRunner? ==> invoked && Reports(snapshot, ending.value.outcome))
      && (ending.Some? && ending.value.EndedByScheduler? ==>
            && (abortReason.Some? ==> abortReason == Some(ending.value.reason))
            && Explains(snapshot, ending.value.reason, task.IsMutation() && snapshot.startedAt.Some?))
      && (!snapshot.Terminal() ==> snapshot.failure.None? && !snapshot.cancelRequested && snapshot.result.None?)
      && (snapshot.failure.Some? ==> snapshot.state.Failed?)
      && (snapshot.state.Failed? ==> snapshot.failure.Some?)
    }

    /** Admission: the slots and claims are owned from here on, the runner is called in a later turn. */
    method Start(now: int)
      requires Coherent() && held.InQueue?
      modifies this
      ensures Coherent() && held.InActive? && runner.Scheduled?
      ensures snapshot == old(snapshot).(state := Running, startedAt := Some(now))
      ensures invoked == old(invoked)
    {
      snapshot := snapshot.(state := Running, startedAt := Some(now));
      runner, held := Scheduled, InActive;
    }

    /** The runner's turn: the callback is skipped when the task has already ended. */
    method Begin() returns (run: bool)
      requires Coherent() && runner.Scheduled?
      modifies this
      ensures Coherent() && held == old(held) && run == old(snapshot.state.Running?)
      ensures runner == if run then Executing else Settled
      ensures invoked == (old(invoked) || run) && snapshot == old(snapshot) && ending == old(ending)
    {
      run := snapshot.state.Running?;
      if run {
        runner, invoked := Executing, true;
      } else {
        runner := Settled;
      }
    }

    /** Keeps the latest partial result; ignored once the task has ended. */
    method Report(partial: string)
      requires Coherent()
      modifies this
      ensures Coherent() && held == old(held)
      ensures snapshot == if old(snapshot.state.Running?)
                          then old(snapshot).(partialResult := Some(partial)) else old(snapshot)
      ensures runner == old(runner) && invoked == old(invoked) && ending == old(ending)
    {
      if snapshot.state.Running? {
        snapshot := snapshot.(partialResult := Some(partial));
      }
    }

    method ResolveReleased()
      modifies this`releaseResolved, this`releases
      ensures releaseResolved
      ensures releases == old(releases) + if old(releaseResolved) then 0 else 1
    {
      if !releaseResolved {
        releaseResolved := true;
        releases := releases + 1;
      }
    }

    /** The first terminal state: completion resolved with it, timer and listener gone, nothing else touched. */
    twostate predicate FinishedAs(patch: Patch, owned: bool, now: int, cause: Ending)
      reads this
    {
      && snapshot == Patched(old(snapshot), patch, now) && ending == Some(cause)
      && !timerArmed && !listening && completionResolved && completions == old(completions) + [snapshot]
      && releaseResolved == !owned && releases == old(releases) + (if owned then 0 else 1)
      && runner == old(runner) && held == old(held) && invoked == old(invoked) && hookCalls == old(hookCalls)
      && abortHookInvoked == old(abortHookInvoked) && abortReason == old(abortReason)
    }

    /**
     * Selects the terminal snapshot, unless there is one already; ownership ends here unless a runner
     * still holds it.
     */
    method Finish(patch: Patch, owned: bool, now: int, ghost cause: Ending)
      requires !snapshot.Terminal() ==> !completionResolved && !releaseResolved
      modifies this
      ensures if old(snapshot.Terminal()) then unchanged(this) else FinishedAs(patch, owned, now, cause)
    {
      if snapshot.Terminal() {
        return;
      }
      timerArmed, listening := false, false;
      snapshot := Patched(snapshot, patch, now);
      if !completionResolved {
        completionResolved := true;
        completions := completions + [snapshot];
      }
      ending := Some(cause);
      if !owned {
        ResolveReleased();
      }
    }

    /** Aborts the runner's signal and calls the abort hook unless it was called before. */
    method Abort(reason: AbortReason)
      modifies this`abortReason, this`abortHookInvoked, this`hookCalls
      ensures abortReason == Some(reason)
      ensures abortHookInvoked == (old(abortHookInvoked) || hasAbortHook)
      ensures hookCalls == old(hookCalls) + if !old(abortHookInvoked) && hasAbortHook then 1 else 0
    {
      abortReason := Some(reason);
      if !abortHookInvoked && hasAbortHook {
        abortHookInvoked := true;
        hookCalls := hookCalls + 1;
      }
    }

    /** Started at `now` from the given snapshot; the runner is due but has not been called. */
    ghost predicate StartedAt(before: Snapshot, now: int)
      reads this
    {
      runner.Scheduled? && !invoked && snapshot == before.(state := Running, startedAt := Some(now))
    }

    /** Ended by the scheduler: the snapshot says so, and whether the runner was called is as before. */
    twostate predicate EndedAs(reason: AbortReason, now: int)
      reads this
    {
      && snapshot == EndedSnapshot(old(snapshot), reason, task.IsMutation(), now)
      && KeepsHistory(old(snapshot), snapshot, now)
      && Explains(snapshot, reason, task.IsMutation() && snapshot.startedAt.Some?)
      && ending == Some(EndedByScheduler(reason))
      && runner == old(runner) && invoked == old(invoked)
    }

    /** Deadline or cancellation, without effect on an ended task; a started mutation ends with an unknown outcome. */
    method Terminate(reason: AbortReason, now: int)
      requires Coherent()
      modifies this
      ensures Coherent()
      ensures if old(snapshot.Terminal()) then unchanged(this)
              else EndedAs(reason, now) && held == if old(held.InQueue?) then Nowhere else old(held)
    {
      if snapshot.Terminal() {
        return;
      }
      var wasRunning := snapshot.state.Running?;
      if wasRunning {
        Abort(reason);
      }
      var unknown := wasRunning && task.IsMutation();
      var patch := if reason.ByDeadline? then DeadlinePatch(unknown) else CancellationPatch(unknown);
      Finish(patch, wasRunning, now, EndedByScheduler(reason));
      if !wasRunning {
        held := Nowhere;
      }
    }

    /** The runner's result: it decides only when no deadline or cancellation came first. */
    method Settle(outcome: RunOutcome, now: int)
      requires Coherent() && runner.Executing?
      modifies this
      ensures Coherent() && held == old(held) && runner.Settled? && invoked
      ensures if old(snapshot.state.Running?)
              then Reports(snapshot, outcome) && KeepsHistory(old(snapshot), snapshot, now)
                   && ending == Some(EndedByRunner(outcome))
              else snapshot == old(snapshot) && ending == old(ending)
    {
      if snapshot.state.Running? {
        Finish(OutcomePatch(outcome), true, now, EndedByRunner(outcome));
      }
      runner := Settled;
    }

    /** The runner no longer owns remote work. */
    method Release()
      requires Coherent() && runner.Settled?
      modifies this
      ensures Coherent() && held.Nowhere? && runner.Finished?
      ensures snapshot == old(snapshot) && ending == old(ending) && invoked == old(invoked)
    {
      ResolveReleased();
      runner, held := Finished, Nowhere;
    }
  }

  function Tasks(records: seq<TaskRecord>): (tasks: seq<Task>)
    ensures |tasks| == |records|
    ensures forall i :: 0 <= i < |records| ==> tasks[i] == records[i].task
  {
    seq(|records|, i requires 0 <= i < |records| => records[i].task)
  }

  predicate StartsOnly(events: seq<Event>) {
    forall k :: 0 <= k < |events| ==> events[k].Started?
  }

  /** The run is legal and eager, and ends with these records queued and active. */
  ghost predicate RunLeadsTo(limits: Limits, history: seq<Event>, sequence: nat, queue: seq<TaskRecord>,
                             active: seq<TaskRecord>)
  {
    && ValidLimits(limits) && Legal(limits, history) && Eager(limits, history)
    && Replay(history) == State(sequence, Tasks(queue), Tasks(active))
  }

  /** The waiters handed out so far. */
  ghost function Issued(count: nat): (waiters: set<nat>)
    ensures forall w: nat :: w in waiters <==> w < count
  {
    if count == 0 then {} else Issued(count - 1) + {count - 1}
  }

  class SftpTaskScheduler {
    const sessionId: string
    const limits: Limits
    var records: map<string, TaskRecord>
    var queue: seq<TaskRecord>
    var active: seq<TaskRecord>  // in insertion order
    var idleWaiters: set<nat>
    var sequence: nat
    var waiters: nat
    ghost var history: seq<Event>
    ghost var all: set<TaskRecord>       // every record ever registered
    ghost var woken: set<nat>            // every idle waiter resolved so far

    ghost function Abstract(): (s: State)
      reads this`sequence, this`queue, this`active
    {
      State(sequence, Tasks(queue), Tasks(active))
    }

    /** The records: coherent, held where they say, with distinct submission numbers. */
    ghost predicate RecordsOk()
      reads this`queue, this`active, this`sequence, this`all, all
    {
      && NoDuplicates(queue) && NoDuplicates(active)
      && (forall r <- queue :: r in all) && (forall r <- active :: r in all)
      && (forall r <- all :: r.Coherent())
      && (forall r <- all :: r in queue <==> r.held.InQueue?)
      && (forall r <- all :: r in active <==> r.held.InActive?)
      && (forall r <- all :: r.task.sequence < sequence)
    }

    /** The registry knows every task that is queued or still owns slots, under its own id. */
    ghost predicate Registered()
      reads this`records, this`all, all
    {
      && (forall id <- records :: records[id] in all && records[id].task.id == id)
      && (forall r <- all :: !r.held.Nowhere? ==> r.task.id in records && records[r.task.id] == r)
    }

    /** The queue and the active set are what a legal run of the admission rules leads to. */
    ghost predicate FollowsRules()
      reads this`sequence, this`queue, this`active, this`history
    {
      RunLeadsTo(limits, history, sequence, queue, active)
    }

    /** Every rule but the ones that hold only between public steps. */
    ghost predicate Consistent()
      reads this, all
    {
      FollowsRules() && RecordsOk() && Registered()
    }

    /** What holds between public steps: nothing could start, nobody waits on an idle scheduler, no waiter is lost. */
    ghost predicate Valid()
      reads this, all
    {
      && Consistent()
      && Quiescent(limits, Abstract())
      && (queue == [] && active == [] ==> idleWaiters == {})
      && woken + idleWaiters == Issued(waiters)
    }

    constructor (sessionId: string, limits: Limits)
      requires ValidLimits(limits) && TrimEnd(TrimStart(sessionId)) != ""
      ensures Valid() && this.limits == limits && this.sessionId == sessionId
      ensures records == map[] && queue == [] && active == [] && history == [] && all == {}
    {
      this.sessionId, this.limits := sessionId, limits;
      records, queue, active, idleWaiters, sequence, waiters := map[], [], [], {}, 0, 0;
      history, all, woken := [], {}, {};
    }

    /** Every state of every scheduler respects its limits, exclusivity and path claims. */
    lemma ActiveTasksAreSafe()
      requires FollowsRules()
      ensures Safe(limits, Abstract()) && WellFormed(Abstract())
    {
      EveryRunIsSafe(limits, history);
    }

    /** Between public steps a non-empty queue, and anyone waiting for idleness, waits for a live runner. */
    lemma WaitingMeansRunning()
      requires Valid()
      ensures queue != [] || idleWaiters != {} ==> active != []
    {
      if queue != [] {
        WorkIsConserved(limits, Abstract());
      }
    }

    /**
     * A task ended by its deadline or by cancellation reports an unknown outcome exactly when it is a
     * mutation that was admitted: always when its runner was called, never when it ended in the queue.
     */
    lemma UnknownOutcomes(record: TaskRecord)
      requires Consistent() && record in all && record.ending.Some? && record.ending.value.EndedByScheduler?
      ensures record.snapshot.OutcomeUnknown() <==> record.task.IsMutation() && record.snapshot.startedAt.Some?
      ensures record.invoked && record.task.IsMutation() ==> record.snapshot.OutcomeUnknown()
      ensures record.snapshot.startedAt.None? ==> !record.invoked && !record.snapshot.OutcomeUnknown()
    {
    }

    /** A task that its runner ended says what the runner said, whatever happened to it since. */
    lemma RunnersAreReported(record: TaskRecord)
      requires Consistent() && record in all && record.ending.Some? && record.ending.value.EndedByRunner?
      ensures Reports(record.snapshot, record.ending.value.outcome) && record.invoked
    {
    }

    /** A task that the scheduler ended says why, and reports no result. */
    lemma AbortsAreExplained(record: TaskRecord)
      requires Consistent() && record in all && record.ending.Some? && record.ending.value.EndedByScheduler?
      ensures Explains(record.snapshot, record.ending.value.reason,
                       record.task.IsMutation() && record.snapshot.startedAt.Some?)
    {
    }

    /**
     * Nothing that could start waits: between public steps each queued task has an exclusive task before
     * it or active, a full pool it needs, or a path tree that an older or active task owns or reserves; an
     * exclusive one has an older task before it or an active one.
     */
    lemma NothingStartableWaits(index: nat)
      requires Valid() && index < |queue|
      ensures KeptWaiting(limits, Abstract(), index)
    {
      hide KeptWaiting;
      RestMeansKeptWaiting(limits, Abstract());
    }

    /** Completion resolves once, with the terminal snapshot, and never after the release, which comes once. */
    lemma SettlesOnce(record: TaskRecord)
      requires Consistent() && record in all
      ensures record.completions == if record.snapshot.Terminal() then [record.snapshot] else []
      ensures record.releases == (if record.releaseResolved then 1 else 0) && record.hookCalls <= 1
      ensures record.releaseResolved <==> |record.completions| == 1 && record !in active
      ensures record.timerArmed <==> record.completions == []
    {
    }

    /** The only record there is cannot be queued at rest. */
    lemma StartedAlone(record: TaskRecord)
      requires Valid() && all == {record}
      ensures record !in queue
    {
      WaitingMeansRunning();
      assert active != [] ==> active[0] in active && active[0] == record;
    }

    /** Once nothing is queued and nothing owns a slot, every waiter there ever was has been woken. */
    lemma IdleWakesEveryone(waiter: nat)
      requires Valid() && waiter < waiters && queue == [] && active == []
      ensures waiter in woken
    {
      assert waiter in woken + idleWaiters;
    }

    /**
     * Every waiter wakes: when no task is submitted any more and the run has used up its work, which
     * it does after at most `Remaining` events, all waiters handed out so far have been woken.
     */
    lemma DrainedRunsWakeEveryone(from: nat, waiter: nat)
      requires Valid() && waiter < waiters && from <= |history|
      requires forall k :: from <= k < |history| ==> !history[k].Submitted?
      ensures |history| <= from + Remaining(StateAt(history, from))
      ensures |history| == from + Remaining(StateAt(history, from)) || active == [] ==> waiter in woken
    {
      assert history[..|history|] == history;
      DrainedOrWaiting(limits, history, from);
      assert |Tasks(queue)| == |queue| && |Tasks(active)| == |active|;
      if active == [] {
        WaitingMeansRunning();
      }
      if queue == [] && active == [] {
        IdleWakesEveryone(waiter);
      }
    }

    /** A head that cannot starve is gone once every task that was active with it has released. */
    lemma HeadsLeave(at: nat, head: Task)
      requires Valid() && at <= |history| && ClearHead(StateAt(history, at), head) && CannotStarve(limits, head)
      requires TurnedOver(history, at, |history|)
      ensures forall i :: 0 <= i < |queue| ==> queue[i].task != head
    {
      assert history[..|history|] == history;
      NoHeadOutwaitsATurnover(limits, history, at, |history|, head);
      assert forall i :: 0 <= i < |queue| ==> Tasks(queue)[i] in Tasks(queue);
    }

    /** No task waits for ever: with `n` tasks ahead it has left the queue after `2 * (n + 1)` turnovers. */
    lemma TasksLeave(marks: seq<nat>, task: Task)
      requires Valid() && Turnovers(limits, history, marks) && marks != [] && marks[|marks| - 1] == |history|
      requires task in StateAt(history, marks[0]).queue && NobodyStarves(limits, StateAt(history, marks[0]), task)
      requires |marks| > 2 * (|Ahead(StateAt(history, marks[0]), task)| + 1)
      ensures forall i :: 0 <= i < |queue| ==> queue[i].task != task
    {
      hide Turnovers, NobodyStarves;
      assert history[..|history|] == history;
      EveryTaskLeaves(limits, history, marks, task);
      assert forall i :: 0 <= i < |queue| ==> Tasks(queue)[i] in Tasks(queue);
    }

    lemma Members()
      requires FollowsRules()
      ensures forall i, j :: 0 <= i < j < |queue| ==> queue[i] != queue[j]
      ensures forall i, j :: 0 <= i < j < |active| ==> active[i] != active[j]
      ensures forall i, j :: 0 <= i < |queue| && 0 <= j < |active| ==> queue[i] != active[j]
      ensures Distinct(Tasks(queue)) && Distinct(Tasks(active))
    {
      ActiveTasksAreSafe();
      assert Tasks(queue) == Abstract().queue && Tasks(active) == Abstract().active;
    }

    // -------------------------------------------------------------------------------------------
    // Admission

    method HasCapacityFor(candidate: Task) returns (fits: bool)
      ensures fits == HasCapacity(limits, Tasks(active), candidate)
    {
      var heavy, mutations, exclusive := 0, 0, false;
      var tasks := Tasks(active);
      for k := 0 to |active|
        invariant exclusive == exists i :: 0 <= i < k && tasks[i].IsExclusive()
        invariant heavy == CountHeavy(tasks[..k]) && mutations == CountMutation(tasks[..k])
      {
        assert tasks[..k + 1][..k] == tasks[..k];
        exclusive := exclusive || active[k].task.IsExclusive();
        if active[k].task.IsHeavy() { heavy := heavy + 1; }
        if active[k].task.IsMutation() { mutations := mutations + 1; }
      }
      assert tasks[..|active|] == tasks;
      if exclusive || |active| >= limits.total {
        return false;
      }
      if candidate.IsHeavy() && heavy >= limits.heavy {
        return false;
      }
      fits := !candidate.IsMutation() || mutations < limits.mutation;
    }

    method ConflictsWithAny(candidate: Task, others: seq<TaskRecord>) returns (conflict: bool)
      ensures conflict == exists j :: 0 <= j < |others| && TasksConflict(candidate, others[j].task)
    {
      conflict := false;
      for k := 0 to |others|
        invariant !conflict && forall j :: 0 <= j < k ==> !TasksConflict(candidate, others[j].task)
      {
        if TasksConflict(candidate, others[k].task) {
          return true;
        }
      }
    }

    /** The first queue position the admission rules let start, or -1 when there is none. */
    method FindNextRunnableIndex() returns (index: int)
      ensures index == -1 ==>
                Quiescent(limits, Abstract()) && forall i :: 0 <= i < |queue| ==> KeptWaiting(limits, Abstract(), i)
      ensures index != -1 ==>
                && IsNext(limits, Abstract(), index) && !KeptWaiting(limits, Abstract(), index)
                && forall i :: 0 <= i < index ==> KeptWaiting(limits, Abstract(), i)
    {
      hide TasksConflict, TaskRecord.Coherent, KeptWaiting;
      var s := State(sequence, Tasks(queue), Tasks(active));
      for i := 0 to |queue|
        invariant forall j :: 0 <= j < i ==> !queue[j].task.IsExclusive() && !Runnable(limits, s, j)
      {
        var candidate := queue[i].task;
        if candidate.IsExclusive() {
          if i == 0 && active == [] {
            NextMeansFirstFree(limits, s, i);
            return i;
          }
          assert forall j :: i < j < |queue| ==> !Runnable(limits, s, j);
          RestMeansKeptWaiting(limits, s);
          return -1;
        }
        var fits := HasCapacityFor(candidate);
        if fits {
          var blocked := ConflictsWithAny(candidate, active);
          if !blocked {
            var reserved := ConflictsWithAny(candidate, queue[..i]);
            if !reserved {
              assert forall j :: 0 <= j < i ==> !TasksConflict(s.queue[i], queue[..i][j].task);
              NextMeansFirstFree(limits, s, i);
              return i;
            }
          }
        }
      }
      RestMeansKeptWaiting(limits, s);
      index := -1;
    }

    /** Changing one record and where it is held keeps the others in order. */
    twostate lemma OneRecordChanged(changed: TaskRecord)
      requires old(RecordsOk()) && all == old(all) && sequence == old(sequence) && changed in all
      requires forall r <- all :: r == changed || unchanged(r)
      requires changed.Coherent()
      requires NoDuplicates(queue) && NoDuplicates(active)
      requires (forall r <- queue :: r in all) && (forall r <- active :: r in all)
      requires forall r <- all :: r == changed || (r in queue <==> r in old(queue))
      requires forall r <- all :: r == changed || (r in active <==> r in old(active))
      requires (changed in queue <==> changed.held.InQueue?) && (changed in active <==> changed.held.InActive?)
      ensures RecordsOk()
    {
      forall r <- all
        ensures r.Coherent() && (r in queue <==> r.held.InQueue?) && (r in active <==> r.held.InActive?)
      {
        if r != changed {
          assert unchanged(r) && old(r.Coherent());
        }
      }
    }

    /** Starting the record at `index` extends the run legally, as this change of the two record lists. */
    ghost predicate Startable(index: nat)
      reads this
    {
      && index < |queue| && queue[index] !in active
      && RunLeadsTo(limits, history + [Started(queue[index].task)], sequence,
                    queue[..index] + queue[index + 1..], active + [queue[index]])
    }

    lemma NextIsStartable(index: nat)
      requires FollowsRules() && IsNext(limits, Abstract(), index)
      ensures Startable(index)
    {
      Members();
      RuleStep(Started(queue[index].task));
      RemovedAt(queue, index);
      assert Tasks(active + [queue[index]]) == Tasks(active) + [queue[index].task];
    }

    method SelectNext() returns (index: int)
      requires Consistent()
      ensures index < 0 ==> Quiescent(limits, Abstract())
      ensures index >= 0 ==> Startable(index) && index < |queue| && queue[index] in all
    {
      index := FindNextRunnableIndex();
      if index != -1 {
        NextIsStartable(index);
      }
    }

    method Activate(index: nat, now: int)
      requires RecordsOk() && Registered() && index < |queue| && queue[index] !in active
      modifies this`queue, this`active, queue[index]
      ensures RecordsOk() && Registered()
      ensures queue == old(queue[..index] + queue[index + 1..]) && active == old(active + [queue[index]])
      ensures forall r: TaskRecord :: r in queue <==> old(r in queue) && r != old(queue[index])
      ensures old(queue[index]).snapshot == old(queue[index].snapshot).(state := Running, startedAt := Some(now))
      ensures old(queue[index]).runner.Scheduled? && !old(queue[index]).invoked
    {
      var record := queue[index];
      RemovedMembers(queue, index);
      queue, active := queue[..index] + queue[index + 1..], active + [record];
      record.Start(now);
      OneRecordChanged(record);
    }

    /** Moves the record at `index` from the queue to the active set. */
    method StartAt(index: nat, now: int)
      requires Consistent() && Startable(index) && index < |queue|
      modifies this`queue, this`active, this`history, queue[index]
      ensures Consistent()
      ensures history == old(history) + [Started(old(queue[index]).task)]
      ensures queue == old(queue[..index] + queue[index + 1..]) && active == old(active + [queue[index]])
      ensures forall r: TaskRecord :: r in queue <==> old(r in queue) && r != old(queue[index])
      ensures old(queue[index]).snapshot == old(queue[index].snapshot).(state := Running, startedAt := Some(now))
      ensures old(queue[index]).runner.Scheduled? && !old(queue[index]).invoked
    {
      hide TaskRecord.Coherent;
      history := history + [Started(queue[index].task)];
      Activate(index, now);
    }

    /** Wakes every idle waiter once nothing is queued and nothing owns a slot. */
    method ResolveIdleWaiters()
      requires Consistent()
      modifies this`idleWaiters, this`woken
      ensures if queue == [] && active == []
              then idleWaiters == {} && woken == old(woken + idleWaiters)
              else idleWaiters == old(idleWaiters) && woken == old(woken)
      ensures Consistent()
    {
      if queue == [] && active == [] {
        woken := woken + idleWaiters;
        idleWaiters := {};
      }
    }

    /** Between two states the run grew by starts only, and only the started records changed. */
    twostate predicate OnlyStarts(now: int)
      reads this, all
    {
      && all == old(all) && records == old(records) && sequence == old(sequence)
      && old(history) <= history && StartsOnly(history[|old(history)|..])
      && (forall r <- queue :: r in old(queue))
      && (forall r <- active :: r in old(active) || r in old(queue))
      && forall r <- all ::
           if r in old(queue) && r !in queue
           then r.StartedAt(old(r.snapshot), now)
           else unchanged(r)
    }

    /** Starts eligible tasks until no further one can run. */
    method Dispatch(now: int)
      requires Consistent() && woken + idleWaiters == Issued(waiters)
      modifies this`queue, this`active, this`history, this`idleWaiters, this`woken, all
      ensures Valid()
      ensures OnlyStarts(now)
      ensures idleWaiters == (if queue == [] && active == [] then {} else old(idleWaiters))
      ensures woken + idleWaiters == old(woken + idleWaiters)
    {
      hide Consistent, Startable;
      while true
        invariant Consistent() && OnlyStarts(now)
        invariant idleWaiters == old(idleWaiters) && woken == old(woken)
        decreases |queue|
      {
        var index := SelectNext();
        if index < 0 {
          break;
        }
        StartAt(index, now);
      }
      ResolveIdleWaiters();
    }

    lemma RuleStep(event: Event)
      requires FollowsRules() && Enabled(limits, Abstract(), event)
      requires event.Submitted? || event.Released? ==> Quiescent(limits, Abstract())
      ensures Legal(limits, history + [event]) && Eager(limits, history + [event])
      ensures Replay(history + [event]) == Apply(Abstract(), event)
    {
      ExtendLegal(limits, history, event);
      ExtendEager(limits, history, event);
    }

    // -------------------------------------------------------------------------------------------
    // Deadlines and cancellation

    /** Dropping the record at `index` extends the run legally. */
    ghost predicate Droppable(index: nat)
      reads this
    {
      && index < |queue|
      && RunLeadsTo(limits, history + [Dropped(queue[index].task)], sequence,
                    queue[..index] + queue[index + 1..], active)
    }

    lemma QueuedIsDroppable(index: nat)
      requires FollowsRules() && index < |queue|
      ensures Droppable(index)
    {
      Members();
      assert queue[index].task in Tasks(queue) by { assert Tasks(queue)[index] == queue[index].task; }
      RuleStep(Dropped(queue[index].task));
      RemovedAt(queue, index);
    }

    /** Ends the queued record at `index` and closes the gap it leaves. */
    method EndQueued(index: nat, reason: AbortReason, now: int)
      requires RecordsOk() && Registered() && index < |queue|
      modifies this`queue, queue[index]
      ensures RecordsOk() && Registered()
      ensures queue == old(queue[..index] + queue[index + 1..])
      ensures forall r: TaskRecord :: r in queue <==> old(r in queue) && r != old(queue[index])
      ensures old(queue[index]).EndedAs(reason, now)
    {
      var record := queue[index];
      assert record.held.InQueue?;
      RemovedMembers(queue, index);
      queue := queue[..index] + queue[index + 1..];
      record.Terminate(reason, now);
      OneRecordChanged(record);
    }

    method IndexInQueue(record: TaskRecord) returns (index: nat)
      requires record in queue
      ensures index < |queue| && queue[index] == record
    {
      index := 0;
      while queue[index] != record
        invariant index < |queue| && record !in queue[..index]
        decreases |queue| - index
      {
        assert queue == queue[..index + 1] + queue[index + 1..];
        index := index + 1;
      }
    }

    /** The run after ending `record`: one more drop when it was still queued. */
    ghost function DropHistory(record: TaskRecord): (events: seq<Event>)
      reads this
    {
      if record in queue then history + [Dropped(record.task)] else history
    }

    method EndRunning(record: TaskRecord, reason: AbortReason, now: int)
      requires Consistent() && record in all && record.snapshot.state.Running?
      modifies record
      ensures Consistent() && record !in queue
      ensures record.EndedAs(reason, now)
    {
      hide FollowsRules;
      record.Terminate(reason, now);
      OneRecordChanged(record);
    }

    method EndWaiting(record: TaskRecord, reason: AbortReason, now: int)
      requires Consistent() && record in queue
      modifies this`queue, this`history, record
      ensures Consistent()
      ensures record.EndedAs(reason, now)
      ensures history == old(history) + [Dropped(record.task)]
      ensures forall r: TaskRecord :: r in queue <==> old(r in queue) && r != record
      ensures |queue| == |old(queue)| - 1
    {
      hide TaskRecord.Coherent;
      var index := IndexInQueue(record);
      QueuedIsDroppable(index);
      history := history + [Dropped(record.task)];
      EndQueued(index, reason, now);
    }

    /** Ends a live task: a queued one leaves the queue, a running one keeps its slots and claims. */
    method EndRecord(record: TaskRecord, reason: AbortReason, now: int)
      requires Consistent() && record in all && !record.snapshot.Terminal()
      modifies this`queue, this`history, record
      ensures Consistent()
      ensures record.EndedAs(reason, now)
      ensures history == old(DropHistory(record))
      ensures forall r: TaskRecord :: r in queue <==> old(r in queue) && r != record
      ensures old(record.snapshot.state.Running?) ==> queue == old(queue)
    {
      hide FollowsRules;
      if record.snapshot.state.Running? {
        assert record !in queue;
        EndRunning(record, reason, now);
      } else {
        assert record in queue;
        EndWaiting(record, reason, now);
      }
    }

    /** A record's public state says where the scheduler holds it. */
    lemma Place(record: TaskRecord)
      requires Consistent() && (record in all || record in queue || record in active)
      ensures record in all
      ensures record.snapshot.state.Queued? <==> record in queue
      ensures record.snapshot.state.Running? ==> record in active
      ensures !(record in queue && record in active)
    {
    }

    /** The run grew from `base` by starts only, and beside `record` only started records changed. */
    twostate predicate StartsBeside(base: seq<Event>, record: TaskRecord, now: int)
      reads this, all
    {
      && all == old(all) && records == old(records) && sequence == old(sequence)
      && base <= history && StartsOnly(history[|base|..])
      && (forall r <- queue :: r in old(queue))
      && forall r <- all ::
           if r == record then true
           else if r in old(queue) && r !in queue
           then r.StartedAt(old(r.snapshot), now)
           else unchanged(r)
    }

    /** A caller's cancellation signal: the task ends at once, and its place goes to whoever can start. */
    method HandleCancellation(record: TaskRecord, now: int)
      requires Valid() && record in all
      modifies this`queue, this`active, this`history, this`idleWaiters, this`woken, all
      ensures Valid() && woken + idleWaiters == old(woken + idleWaiters)
      ensures if old(record.snapshot.Terminal()) then unchanged(record) else record.EndedAs(ByCancellation, now)
      ensures StartsBeside(old(if record.snapshot.Terminal() then history else DropHistory(record)), record, now)
    {
      hide Consistent, Quiescent, TaskRecord.Coherent;
      Place(record);
      if !record.snapshot.Terminal() {
        EndRecord(record, ByCancellation, now);
      }
      Dispatch(now);
    }

    /** The one timer of a task fires: nothing after it ended; a late runner keeps its slots and claims. */
    method HandleDeadline(record: TaskRecord, now: int)
      requires Valid() && record in all
      modifies this`queue, this`active, this`history, this`idleWaiters, this`woken, all
      ensures Valid() && woken + idleWaiters == old(woken + idleWaiters)
      ensures if old(record.snapshot.Terminal()) then unchanged(record) else record.EndedAs(ByDeadline, now)
      ensures StartsBeside(old(if record.snapshot.Terminal() then history else DropHistory(record)), record, now)
      ensures old(record.snapshot.state.Running?) ==> queue == old(queue) && active == old(active)
    {
      hide Consistent, Quiescent, TaskRecord.Coherent;
      Place(record);
      if record.snapshot.Terminal() {
        return;
      }
      var wasRunning := record.snapshot.state.Running?;
      if wasRunning {
        EndRunning(record, ByDeadline, now);
      } else {
        EndWaiting(record, ByDeadline, now);
        Dispatch(now);
      }
    }

    // -------------------------------------------------------------------------------------------
    // Runners

    /** The turn in which the runner is called, unless the task ended between admission and that turn. */
    method BeginRunner(record: TaskRecord) returns (run: bool)
      requires Valid() && record in all && record.runner.Scheduled?
      modifies record
      ensures Valid()
      ensures run == old(record.snapshot.state.Running?) && record.snapshot == old(record.snapshot)
      ensures record.runner == (if run then Executing else Settled) && record.ending == old(record.ending)
      ensures record.invoked == (old(record.invoked) || run)
    {
      hide FollowsRules, Quiescent, TaskRecord.Coherent;
      run := record.Begin();
      OneRecordChanged(record);
    }

    method ReportPartial(record: TaskRecord, partial: string)
      requires Valid() && record in all
      modifies record
      ensures Valid()
      ensures record.snapshot == if old(record.snapshot.state.Running?)
                                 then old(record.snapshot).(partialResult := Some(partial)) else old(record.snapshot)
      ensures record.runner == old(record.runner) && record.ending == old(record.ending)
    {
      hide FollowsRules, Quiescent, TaskRecord.Coherent;
      record.Report(partial);
      OneRecordChanged(record);
    }

    /** The runner settles; its slots and claims stay owned until the release that follows. */
    method ApplyRunOutcome(record: TaskRecord, outcome: RunOutcome, now: int)
      requires Valid() && record in all && record.runner.Executing?
      modifies record
      ensures Valid() && record.runner.Settled? && record in active
      ensures if old(record.snapshot.state.Running?)
              then Reports(record.snapshot, outcome) && KeepsHistory(old(record.snapshot), record.snapshot, now)
                   && record.ending == Some(EndedByRunner(outcome))
              else record.snapshot == old(record.snapshot) && record.ending == old(record.ending)
    {
      hide FollowsRules, Quiescent, TaskRecord.Coherent, Reports;
      record.Settle(outcome, now);
      OneRecordChanged(record);
    }

    ghost predicate Releasable(index: nat)
      reads this
    {
      && index < |active|
      && RunLeadsTo(limits, history + [Released(active[index].task)], sequence,
                    queue, active[..index] + active[index + 1..])
    }

    lemma ActiveIsReleasable(index: nat)
      requires FollowsRules() && Quiescent(limits, Abstract()) && index < |active|
      ensures Releasable(index)
    {
      Members();
      assert active[index].task in Tasks(active) by { assert Tasks(active)[index] == active[index].task; }
      RuleStep(Released(active[index].task));
      RemovedAt(active, index);
    }

    method Deactivate(index: nat)
      requires RecordsOk() && Registered() && index < |active| && active[index].runner.Settled?
      modifies this`active, active[index]
      ensures RecordsOk() && Registered()
      ensures active == old(active[..index] + active[index + 1..])
      ensures forall r: TaskRecord :: r in active <==> old(r in active) && r != old(active[index])
      ensures old(active[index]).runner.Finished? && old(active[index]).releaseResolved
      ensures old(active[index]).snapshot == old(active[index].snapshot)
    {
      var record := active[index];
      RemovedMembers(active, index);
      active := active[..index] + active[index + 1..];
      record.Release();
      OneRecordChanged(record);
    }

    /** The runner's promise chain is over: its slots and claims are free, and waiting tasks may start. */
    method ReleaseRecord(record: TaskRecord, now: int)
      requires Valid() && record in active && record.runner.Settled?
      modifies this`queue, this`active, this`history, this`idleWaiters, this`woken, all
      ensures Valid() && woken + idleWaiters == old(woken + idleWaiters)
      ensures record !in active && record.releaseResolved && record.snapshot == old(record.snapshot)
      ensures StartsBeside(old(history) + [Released(record.task)], record, now)
    {
      hide Consistent, Quiescent, TaskRecord.Coherent;
      Place(record);
      var index := 0;
      while active[index] != record
        invariant index < |active| && record !in active[..index]
        decreases |active| - index
      {
        assert active == active[..index + 1] + active[index + 1..];
        index := index + 1;
      }
      FreeSlot(index);
      Dispatch(now);
    }

    method FreeSlot(index: nat)
      requires Consistent() && Quiescent(limits, Abstract()) && index < |active| && active[index].runner.Settled?
      modifies this`active, this`history, active[index]
      ensures Consistent()
      ensures history == old(history) + [Released(old(active[index]).task)]
      ensures forall r: TaskRecord :: r in active <==> old(r in active) && r != old(active[index])
      ensures old(active[index]).runner.Finished? && old(active[index]).releaseResolved
      ensures old(active[index]).snapshot == old(active[index].snapshot)
    {
      hide TaskRecord.Coherent;
      ActiveIsReleasable(index);
      history := history + [Released(active[index].task)];
      Deactivate(index);
    }

    method CancelQueued(now: int)
      requires Consistent()
      modifies this`queue, this`history, all
      ensures Consistent() && queue == []
      ensures forall r <- all :: if old(r in queue) then r.EndedAs(ByCancellation, now) else unchanged(r)
      ensures |history| == |old(history)| + |old(queue)|
      ensures forall k :: |old(history)| <= k < |history| ==> history[k].Dropped?
    {
      hide Consistent, TaskRecord.Coherent;
      while queue != []
        invariant Consistent()
        invariant forall r <- queue :: r in old(queue)
        invariant forall r <- all ::
                    if old(r in queue) && r !in queue then r.EndedAs(ByCancellation, now) else unchanged(r)
        invariant |history| + |queue| == |old(history)| + |old(queue)|
        invariant forall k :: |old(history)| <= k < |history| ==> history[k].Dropped?
        decreases |queue|
      {
        Place(queue[0]);
        EndWaiting(queue[0], ByCancellation, now);
      }
    }

    method CancelActive(now: int)
      requires Consistent()
      modifies all
      ensures Consistent()
      ensures forall r <- all ::
                if old(r in active && !r.snapshot.Terminal()) then r.EndedAs(ByCancellation, now) else unchanged(r)
    {
      hide Consistent, TaskRecord.Coherent;
      Places();
      for k := 0 to |active|
        invariant Consistent()
        invariant forall r <- all ::
                    if r in active[..k] && !old(r.snapshot.Terminal()) then r.EndedAs(ByCancellation,
                          now) else unchanged(r)
      {
        var record := active[k];
        Place(record);
        assert active[..k + 1] == active[..k] + [record];
        assert record !in active[..k];
        if !record.snapshot.Terminal() {
          EndRunning(record, ByCancellation, now);
        }
      }
      assert active[..|active|] == active;
    }

    lemma Places()
      requires Consistent()
      ensures forall r <- all :: r.snapshot.state.Queued? <==> r in queue
      ensures forall r <- all :: r.snapshot.state.Running? ==> r in active
      ensures forall r <- active :: r in all && r !in queue
      ensures forall k :: 0 <= k < |active| ==> active[k] !in active[..k]
    {
    }

    /** Session close: every queued task is cancelled unstarted, every live runner is told to stop. */
    method CancelAll(now: int)
      requires Valid()
      modifies this`queue, this`active, this`history, this`idleWaiters, this`woken, all
      ensures Valid() && woken + idleWaiters == old(woken + idleWaiters)
      ensures queue == [] && active == old(active) && records == old(records) && all == old(all)
      ensures forall r <- all :: if old(r.snapshot.Terminal()) then unchanged(r) else r.EndedAs(ByCancellation, now)
      ensures |history| == |old(history)| + |old(queue)|
      ensures forall k :: |old(history)| <= k < |history| ==> history[k].Dropped?
    {
      hide Consistent, TaskRecord.Coherent;
      Places();
      CancelQueued(now);
      Places();
      CancelActive(now);
      assert Quiescent(limits, Abstract());
      ResolveIdleWaiters();
    }

    // -------------------------------------------------------------------------------------------
    // Submission

    lemma SubmitStep(record: TaskRecord)
      requires FollowsRules() && Quiescent(limits, Abstract()) && record.task.sequence == sequence
      ensures RunLeadsTo(limits, history + [Submitted(record.task)], sequence + 1, queue + [record], active)
    {
      RuleStep(Submitted(record.task));
      assert Tasks(queue + [record]) == Tasks(queue) + [record.task];
    }

    /** Registers a new record at the end of the queue. */
    method Enqueue(record: TaskRecord)
      requires Consistent() && Quiescent(limits, Abstract())
      requires record !in all && record.Coherent() && record.held.InQueue?
      requires record.task.sequence == sequence && record.task.id !in records
      modifies this`sequence, this`records, this`queue, this`history, this`all
      ensures Consistent()
      ensures sequence == old(sequence) + 1 && records == old(records)[record.task.id := record]
      ensures queue == old(queue) + [record] && all == old(all) + {record}
      ensures history == old(history) + [Submitted(record.task)]
    {
      hide TaskRecord.Coherent, RunLeadsTo, NoDuplicates;
      assert record !in queue && record !in active;
      AppendedMembers(queue, record);
      SubmitStep(record);
      sequence, records, queue := sequence + 1, records[record.task.id := record], queue + [record];
      history, all := history + [Submitted(record.task)], all + {record};
    }

    /** Enqueues one task, lets an already aborted signal cancel it, and starts whatever can start. */
    method Schedule(id: string, operation: string, resources: Resources, claims: seq<string>, timeout: int,
                    hasAbortHook: bool, hasSignal: bool, aborted: bool, now: int)
      returns (submission: Result<TaskRecord, ScheduleError>)
      requires Valid() && (aborted ==> hasSignal)
      modifies this, all
      ensures Valid() && woken + idleWaiters == old(woken + idleWaiters)
      ensures submission.Err? <==> TrimEnd(TrimStart(operation)) == "" || timeout <= 0 || id in old(records)
      ensures submission.Err? ==> unchanged(this) && unchanged(old(all))
      ensures submission.Err? ==>
                submission.error == if TrimEnd(TrimStart(operation)) == "" then EmptyOperation
                                    else if timeout <= 0 then InvalidTimeout else DuplicateId
      ensures submission.Ok? ==> Accepted(submission.value, id, resources, claims, now + timeout)
      ensures submission.Ok? ==>
                var submitted := old(history) + [Submitted(submission.value.task)];
                var base := if aborted then submitted + [Dropped(submission.value.task)] else submitted;
                && base <= history && StartsOnly(history[|base|..])
      ensures submission.Ok? && aborted ==>
                submission.value.snapshot.state.Cancelled? && submission.value.runner.NotStarted?
      ensures submission.Ok? && !aborted ==>
                if submission.value in queue then
                  submission.value.snapshot == Fresh && submission.value.runner.NotStarted?
                else submission.value.StartedAt(Fresh, now)
      ensures submission.Ok? ==> !submission.value.invoked
      ensures submission.Ok? ==>
                forall r <- old(all) ::
                  if r in old(queue) && r !in queue
                  then r.StartedAt(old(r.snapshot), now)
                  else unchanged(r)
    {
      hide Consistent, Quiescent, TaskRecord.Coherent, Reserves;
      if TrimEnd(TrimStart(operation)) == "" {
        return Err(EmptyOperation);
      }
      if timeout <= 0 {
        return Err(InvalidTimeout);
      }
      if id in records {
        return Err(DuplicateId);
      }
      var reserved := NormalizeClaims(claims);
      var record := new TaskRecord(Task(sequence, id, resources, reserved), now, timeout, hasAbortHook, hasSignal);
      Enqueue(record);
      if aborted {
        EndWaiting(record, ByCancellation, now);
      }
      Dispatch(now);
      submission := Ok(record);
    }

    /** The registered record carries what was asked for, the next number and the reserved claims. */
    twostate predicate Accepted(new record: TaskRecord, id: string, resources: Resources, claims: seq<string>,
          deadline: int)
      reads this
    {
      && fresh(record) && all == old(all) + {record} && records == old(records)[id := record]
      && sequence == old(sequence) + 1
      && record.task == Task(old(sequence), id, resources, record.task.claims)
      && Reserves(record.task.claims, claims)
      && record.deadlineAt == deadline
    }

    // -------------------------------------------------------------------------------------------
    // The registry

    /** Forgets a finished task; a queued task and one that still owns slots are never forgotten. */
    method ForgetTask(id: string) returns (forgotten: bool)
      requires Valid()
      modifies this`records
      ensures Valid()
      ensures forgotten <==> id in old(records) && old(records)[id].snapshot.Terminal() && old(records)[id] !in active
      ensures records == if forgotten then old(records) - {id} else old(records)
    {
      hide FollowsRules, Quiescent, TaskRecord.Coherent;
      if id in records {
        Place(records[id]);
      }
      if id !in records || !records[id].snapshot.Terminal() || records[id] in active {
        return false;
      }
      records := records - {id};
      forgotten := true;
    }

    /** A waiter for the next idle moment; none is needed when the scheduler is idle already. */
    method WaitForIdle() returns (waiter: Option<nat>)
      requires Valid()
      modifies this`idleWaiters, this`waiters
      ensures Valid()
      ensures waiter.None? <==> queue == [] && active == []
      ensures waiter.None? ==> idleWaiters == old(idleWaiters) && waiters == old(waiters)
      ensures waiter.Some? ==>
                && waiter.value == old(waiters) && waiters == old(waiters) + 1
                && idleWaiters == old(idleWaiters) + {waiter.value}
    {
      hide FollowsRules, RecordsOk, Registered, Quiescent;
      if queue == [] && active == [] {
        return None;
      }
      waiter := Some(waiters);
      idleWaiters := idleWaiters + {waiters};
      waiters := waiters + 1;
    }
  }

  lemma RemovedAt(records: seq<TaskRecord>, i: nat)
    requires i < |records| && Distinct(Tasks(records))
    ensures Tasks(records[..i] + records[i + 1..]) == Without(Tasks(records), records[i].task)
  {
    WithoutAt(Tasks(records), i);
    assert Tasks(records[..i] + records[i + 1..]) == Tasks(records)[..i] + Tasks(records)[i + 1..];
  }

  ghost predicate NoDuplicates(records: seq<TaskRecord>) {
    forall i, j :: 0 <= i < j < |records| ==> records[i] != records[j]
  }

  lemma RemovedMembers(records: seq<TaskRecord>, i: nat)
    requires i < |records| && NoDuplicates(records)
    ensures var rest := records[..i] + records[i + 1..];
            NoDuplicates(rest) && forall r: TaskRecord :: r in rest <==> r in records && r != records[i]
  {
    var rest := records[..i] + records[i + 1..];
    assert forall k :: 0 <= k < |rest| ==> rest[k] == records[if k < i then k else k + 1];
    forall r: TaskRecord | r in records && r != records[i]
      ensures r in rest
    {
      var j :| 0 <= j < |records| && records[j] == r;
      assert rest[if j < i then j else j - 1] == r;
    }
  }

  lemma AppendedMembers(records: seq<TaskRecord>, extra: TaskRecord)
    requires NoDuplicates(records) && extra !in records
    ensures NoDuplicates(records + [extra])
    ensures forall r: TaskRecord :: r in records + [extra] <==> r in records || r == extra
  {
  }

  /**
   * A scheduler for a session with the given limits; refused for a blank session id, and unless every
   * limit is positive and none exceeds the total.
   */
  method CreateScheduler(sessionId: string, limits: Limits) returns (scheduler: Option<SftpTaskScheduler>)
    ensures scheduler.Some? <==>
              && TrimEnd(TrimStart(sessionId)) != ""
              && limits.total > 0 && 0 < limits.heavy <= limits.total && 0 < limits.mutation <= limits.total
    ensures scheduler.Some? ==>
              && fresh(scheduler.value) && scheduler.value.Valid() && scheduler.value.all == {}
              && scheduler.value.limits == limits && scheduler.value.sessionId == sessionId
  {
    if TrimEnd(TrimStart(sessionId)) == "" {
      return None;
    }
    if !(limits.total > 0 && limits.heavy > 0 && limits.mutation > 0) {
      return None;
    }
    if limits.heavy > limits.total || limits.mutation > limits.total {
      return None;
    }
    var created := new SftpTaskScheduler(sessionId, limits);
    scheduler := Some(created);
  }

  /**
   * A mutation on an idle scheduler is admitted at once; cancelled before the turn in which its runner
   * would be called, it reports an unknown outcome although no remote work can have begun.
   */
  method CancelBeforeTheRunnersTurn(scheduler: SftpTaskScheduler, id: string, resources: Resources, now: int)
    returns (record: TaskRecord)
    requires scheduler.Valid() && scheduler.all == {} && id !in scheduler.records && resources.impact.Mutation?
    modifies scheduler, scheduler.all
    ensures fresh(record) && scheduler.Valid()
    ensures record.runner.Scheduled? && !record.invoked && record.snapshot.OutcomeUnknown()
  {
    var submission := scheduler.Schedule(id, "rename", resources, [], 1, false, true, false, now);
    record := submission.value;
    scheduler.StartedAlone(record);
    scheduler.HandleCancellation(record, now);
    scheduler.UnknownOutcomes(record);
  }
}
