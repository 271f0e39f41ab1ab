/** How long the head of the queue can be kept waiting: which release lets it start. */
module SchedulerFairness {
  import opened TaskClaims
  import opened SchedulerRules
  import opened SchedulerRuns

  /** `head` is first in the queue, may share the session with others, and overlaps no active claim. */
  ghost predicate ClearHead(s: State, head: Task) {
    && s.queue != [] && s.queue[0] == head
    && !head.IsExclusive()
    && forall j :: 0 <= j < |s.active| ==> !TasksConflict(head, s.active[j])
  }

  predicate UsesBothPools(task: Task) {
    task.IsHeavy() && task.IsMutation()
  }

  datatype Pool = AnySlot | HeavySlot | MutationSlot

  predicate Uses(task: Task, pool: Pool) {
    match pool case AnySlot => true case HeavySlot => task.IsHeavy() case MutationSlot => task.IsMutation()
  }

  function Size(limits: Limits, pool: Pool): (size: int) {
    match pool case AnySlot => limits.total case HeavySlot => limits.heavy case MutationSlot => limits.mutation
  }

  function Taken(active: seq<Task>, pool: Pool): (n: nat) {
    match pool
    case AnySlot => |active|
    case HeavySlot => CountHeavy(active)
    case MutationSlot => CountMutation(active)
  }

  predicate Full(limits: Limits, active: seq<Task>, pool: Pool) {
    Taken(active, pool) >= Size(limits, pool)
  }

  // ---------------------------------------------------------------------------------------------
  // One step

  /** The holder has a slot in every full pool that the head needs. */
  predicate Decisive(limits: Limits, active: seq<Task>, head: Task, holder: Task) {
    forall pool :: Uses(head, pool) && Full(limits, active, pool) ==> Uses(holder, pool)
  }

  /** A younger task that overtakes a clear head frees no pool, and leaves the head clear. */
  lemma OvertakingSparesThePools(limits: Limits, s: State, head: Task, task: Task)
    requires ValidLimits(limits) && WellFormed(s) && Safe(limits, s) && ClearHead(s, head)
    requires Enabled(limits, s, Started(task)) && task != head
    ensures ClearHead(Apply(s, Started(task)), head)
    ensures forall pool :: Full(limits, s.active, pool) ==>
              !Uses(task, pool) && Taken(Apply(s, Started(task)).active, pool) == Taken(s.active, pool)
    ensures exists pool :: Uses(head, pool) && !Uses(task, pool) && Full(limits, s.active, pool)
  {
    var i :| IsNext(limits, s, i) && s.queue[i] == task;
    assert i > 0 && !Runnable(limits, s, 0);
    WithoutAt(s.queue, i);
    ClaimSetsConflictSymmetric(head.claims, task.claims);
    assert !TasksConflict(task, head);
    assert (s.active + [task])[..|s.active|] == s.active;
    if !Full(limits, s.active, HeavySlot) || !Uses(head, HeavySlot) {
      assert Full(limits, s.active, MutationSlot) && Uses(head, MutationSlot);
    }
  }

  /** Once a decisive holder releases, the clear head is the next task to start. */
  lemma ReleaseLetsHeadStart(limits: Limits, s: State, head: Task, holder: Task)
    requires ValidLimits(limits) && WellFormed(s) && Safe(limits, s) && ClearHead(s, head)
    requires holder in s.active && Decisive(limits, s.active, head, holder)
    ensures var after := Apply(s, Released(holder)); ClearHead(after, head) && IsNext(limits, after, 0)
  {
    hide TasksConflict, HasCapacity, Decisive;
    var i :| 0 <= i < |s.active| && s.active[i] == holder;
    WithoutAt(s.active, i);
    var after := Apply(s, Released(holder));
    assert after.queue == s.queue && after.active == s.active[..i] + s.active[i + 1..];
    ReleaseMakesRoom(limits, s.active, head, i);
    forall j | 0 <= j < |after.active|
      ensures !TasksConflict(head, after.active[j])
    {
      assert after.active[j] == s.active[if j < i then j else j + 1];
    }
  }

  lemma ReleaseMakesRoom(limits: Limits, active: seq<Task>, head: Task, i: nat)
    requires i < |active| && WithinLimits(limits, active) && ExclusiveAlone(active)
    requires Decisive(limits, active, head, active[i])
    ensures HasCapacity(limits, active[..i] + active[i + 1..], head)
  {
    var rest := active[..i] + active[i + 1..];
    CountsWithout(active, i);
    forall j | 0 <= j < |rest|
      ensures !rest[j].IsExclusive()
    {
      assert rest[j] == active[if j < i then j else j + 1];
    }
    assert Uses(head, HeavySlot) && Full(limits, active, HeavySlot) ==> Uses(active[i], HeavySlot);
    assert Uses(head, MutationSlot) && Full(limits, active, MutationSlot) ==> Uses(active[i], MutationSlot);
  }

  // ---------------------------------------------------------------------------------------------
  // Runs

  /** While it is queued, a clear head stays the head and stays clear. */
  lemma StaysClear(limits: Limits, s: State, event: Event, head: Task)
    requires ValidLimits(limits) && WellFormed(s) && Safe(limits, s) && ClearHead(s, head) && Enabled(limits, s, event)
    requires head in Apply(s, event).queue
    ensures ClearHead(Apply(s, event), head)
  {
    WithoutHead(s.queue);
    match event
    case Submitted(task) =>
    case Started(task) => OvertakingSparesThePools(limits, s, head, task);
    case Dropped(task) =>
    case Released(task) => StaysClearOfFewer(s, head, task);
  }

  lemma StaysClearOfFewer(s: State, head: Task, task: Task)
    requires WellFormed(s) && ClearHead(s, head)
    ensures ClearHead(Apply(s, Released(task)), head)
  {
    WithoutMembers(s.active, task);
    var after := Apply(s, Released(task)).active;
    forall j | 0 <= j < |after|
      ensures !TasksConflict(head, after[j])
    {
      assert after[j] in s.active;
      var i :| 0 <= i < |s.active| && s.active[i] == after[j];
    }
  }

  lemma WithoutHead(queue: seq<Task>)
    requires queue != [] && Ordered(queue)
    ensures queue[0] !in Without(queue, queue[0])
  {
  }

  /** A task that left the queue is not queued again. */
  lemma NeverRequeued(limits: Limits, s: State, event: Event, task: Task)
    requires WellFormed(s) && Enabled(limits, s, event) && task.sequence < s.submitted && task !in s.queue
    ensures task !in Apply(s, event).queue && task.sequence < Apply(s, event).submitted
  {
    OrderedIsDistinct(s.queue);
    WithoutMembers(s.queue, event.task);
  }

  lemma OrderedIsDistinct(tasks: seq<Task>)
    requires Ordered(tasks)
    ensures Distinct(tasks)
  {
  }

  lemma {:induction false} QueuedBefore(limits: Limits, history: seq<Event>, at: nat, k: nat, task: Task)
    requires ValidLimits(limits) && Legal(limits, history) && at <= k <= |history|
    requires task in StateAt(history, at).queue && task in StateAt(history, k).queue
    ensures forall j :: at <= j <= k ==> task in StateAt(history, j).queue
    decreases k
  {
    if at < k {
      if task !in StateAt(history, k - 1).queue {
        KnownFrom(limits, history, at, k - 1, task);
        SafeAt(limits, history, k - 1);
        StateAfter(history, k - 1);
        NeverRequeued(limits, StateAt(history, k - 1), history[k - 1], task);
      }
      QueuedBefore(limits, history, at, k - 1, task);
    }
  }

  lemma KnownFrom(limits: Limits, history: seq<Event>, at: nat, k: nat, task: Task)
    requires ValidLimits(limits) && Legal(limits, history) && at <= k <= |history|
    requires task in StateAt(history, at).queue
    ensures task.sequence < StateAt(history, k).submitted
  {
    SafeAt(limits, history, at);
    SubmissionsGrow(history, at, k);
  }

  /** A run in which `head` is clear at `at` and still queued at `k`. */
  ghost predicate Waits(limits: Limits, history: seq<Event>, at: nat, k: nat, head: Task) {
    && ValidLimits(limits) && Legal(limits, history) && at <= k <= |history|
    && ClearHead(StateAt(history, at), head) && head in StateAt(history, k).queue
  }

  /** What holds of the state at `j` while the head waits. */
  ghost predicate Waiting(limits: Limits, s: State, head: Task) {
    ClearHead(s, head) && WellFormed(s) && Safe(limits, s) && head in s.queue
  }

  lemma {:induction false} WaitsThroughout(limits: Limits, history: seq<Event>, at: nat, k: nat, head: Task, j: nat)
    requires Waits(limits, history, at, k, head) && at <= j <= k
    ensures Waiting(limits, StateAt(history, j), head)
    decreases j
  {
    hide WellFormed, Safe, Legal, ClearHead;
    SafeAt(limits, history, at);
    SafeAt(limits, history, j);
    ClearIsQueued(StateAt(history, at), head);
    if at < j {
      QueuedBefore(limits, history, at, k, head);
      WaitsThroughout(limits, history, at, k, head, j - 1);
      SafeAt(limits, history, j - 1);
      StateAfter(history, j - 1);
      StaysClear(limits, StateAt(history, j - 1), history[j - 1], head);
    }
  }

  lemma ClearIsQueued(s: State, head: Task)
    requires ClearHead(s, head)
    ensures head in s.queue && s.queue[0] == head
  {
  }

  /** One event of a waiting run, with what is known before and after it. */
  lemma WaitingStep(limits: Limits, history: seq<Event>, at: nat, k: nat, head: Task, j: nat)
    requires Waits(limits, history, at, k, head) && at <= j < k
    ensures Waiting(limits, StateAt(history, j), head) && Waiting(limits, StateAt(history, j + 1), head)
    ensures StateAt(history, j + 1) == Apply(StateAt(history, j), history[j])
    ensures Enabled(limits, StateAt(history, j), history[j])
  {
    hide WellFormed, Safe, Legal, ClearHead;
    WaitsThroughout(limits, history, at, k, head, j);
    WaitsThroughout(limits, history, at, k, head, j + 1);
    StateAfter(history, j);
    SafeAt(limits, history, j);
  }

  /** Once the head can start, an eager run only drops queued tasks until it does start. */
  lemma {:induction false} NextStaysNext(limits: Limits, history: seq<Event>, at: nat, k: nat, head: Task)
    requires Waits(limits, history, at, k, head) && Eager(limits, history)
    requires at <= k <= |history| && IsNext(limits, StateAt(history, at), 0)
    ensures IsNext(limits, StateAt(history, k), 0)
    decreases k
  {
    hide Waits, Waiting, Eager, IsNext;
    if at < k {
      WaitingStep(limits, history, at, k, head, k - 1);
      WaitsLess(limits, history, at, k, head);
      NextStaysNext(limits, history, at, k - 1, head);
      PrefixIsEager(limits, history, k - 1);
      StillNext(limits, StateAt(history, k - 1), history[k - 1], head);
    }
  }

  lemma WaitsLess(limits: Limits, history: seq<Event>, at: nat, k: nat, head: Task)
    requires Waits(limits, history, at, k, head) && at < k
    ensures Waits(limits, history, at, k - 1, head) && k <= |history|
  {
    QueuedBefore(limits, history, at, k, head);
  }

  lemma StillNext(limits: Limits, s: State, event: Event, head: Task)
    requires Waiting(limits, s, head) && Enabled(limits, s, event) && IsNext(limits, s, 0)
    requires event.Submitted? || event.Released? ==> Quiescent(limits, s)
    requires Waiting(limits, Apply(s, event), head)
    ensures IsNext(limits, Apply(s, event), 0)
  {
    forall task | Enabled(limits, s, Started(task))
      ensures head !in Apply(s, Started(task)).queue
    {
      WithoutHead(s.queue);
    }
  }

  // ---------------------------------------------------------------------------------------------
  // Pools over a run

  predicate ReleaseIn(event: Event, pool: Pool) {
    event.Released? && Uses(event.task, pool)
  }

  lemma TakenAfter(limits: Limits, s: State, event: Event, pool: Pool)
    requires WellFormed(s) && Enabled(limits, s, event) && !ReleaseIn(event, pool)
    ensures Taken(Apply(s, event).active, pool) >= Taken(s.active, pool)
  {
    match event
    case Started(task) => assert (s.active + [task])[..|s.active|] == s.active;
    case Released(task) =>
      var i :| 0 <= i < |s.active| && s.active[i] == task;
      WithoutAt(s.active, i);
      CountsWithout(s.active, i);
    case _ =>
  }

  /** A full pool stays full until the first release in it, whoever overtakes. */
  lemma {:induction false} PoolStaysFull(limits: Limits, history: seq<Event>, at: nat, k: nat, pool: Pool)
    requires ValidLimits(limits) && Legal(limits, history) && at <= k <= |history|
    requires Full(limits, StateAt(history, at).active, pool)
    requires forall j :: at <= j < k ==> !ReleaseIn(history[j], pool)
    ensures Full(limits, StateAt(history, k).active, pool)
    decreases k
  {
    if at < k {
      PoolStaysFull(limits, history, at, k - 1, pool);
      SafeAt(limits, history, k - 1);
      StateAfter(history, k - 1);
      TakenAfter(limits, StateAt(history, k - 1), history[k - 1], pool);
    }
  }

  /** With every slot taken nothing joins until the first release. */
  lemma {:induction false} NobodyJoins(limits: Limits, history: seq<Event>, at: nat, k: nat)
    requires ValidLimits(limits) && Legal(limits, history) && at <= k <= |history|
    requires Full(limits, StateAt(history, at).active, AnySlot)
    requires forall j :: at <= j < k ==> !history[j].Released?
    ensures StateAt(history, k).active == StateAt(history, at).active
    decreases k
  {
    if at < k {
      NobodyJoins(limits, history, at, k - 1);
      SafeAt(limits, history, k - 1);
      StateAfter(history, k - 1);
    }
  }

  predicate NoBothHolder(active: seq<Task>) {
    forall i :: 0 <= i < |active| ==> !UsesBothPools(active[i])
  }

  /** Behind a clear head that uses both pools no other such task starts. */
  lemma NoBothHolderJoins(limits: Limits, s: State, event: Event, head: Task)
    requires ValidLimits(limits) && Waiting(limits, s, head) && Enabled(limits, s, event)
    requires UsesBothPools(head) && NoBothHolder(s.active) && head in Apply(s, event).queue
    ensures NoBothHolder(Apply(s, event).active)
  {
    WithoutHead(s.queue);
    match event
    case Started(task) => OvertakingSparesThePools(limits, s, head, task);
    case Released(task) =>
      WithoutMembers(s.active, task);
      var after := Apply(s, event).active;
      assert forall i :: 0 <= i < |after| ==> after[i] in s.active;
    case _ =>
  }

  lemma {:induction false} NoBothHolderThroughout(limits: Limits, history: seq<Event>, at: nat, k: nat, head: Task)
    requires Waits(limits, history, at, k, head)
    requires UsesBothPools(head) && NoBothHolder(StateAt(history, at).active)
    ensures NoBothHolder(StateAt(history, k).active)
    decreases k
  {
    if at < k {
      WaitsLess(limits, history, at, k, head);
      WaitingStep(limits, history, at, k, head, k - 1);
      hide Waits, Waiting, NoBothHolder, UsesBothPools;
      NoBothHolderThroughout(limits, history, at, k - 1, head);
      StillQueued(limits, history, at, k, head);
      ValidHere(limits, history, at, k, head);
      NoBothHolderJoins(limits, StateAt(history, k - 1), history[k - 1], head);
    }
  }

  lemma StillQueued(limits: Limits, history: seq<Event>, at: nat, k: nat, head: Task)
    requires Waits(limits, history, at, k, head)
    ensures head in StateAt(history, k).queue
  {
  }

  lemma ValidHere(limits: Limits, history: seq<Event>, at: nat, k: nat, head: Task)
    requires Waits(limits, history, at, k, head)
    ensures ValidLimits(limits) && Legal(limits, history)
  {
  }

  lemma {:induction false} PoolsAreShared(active: seq<Task>)
    requires NoBothHolder(active)
    ensures CountHeavy(active) + CountMutation(active) <= |active|
  {
    if active != [] {
      var init := active[..|active| - 1];
      PoolsAreShared(init);
    }
  }

  // ---------------------------------------------------------------------------------------------
  // The release that lets the head start

  /** The pools are too large to be full side by side without a task in both. */
  predicate PoolsOverlap(limits: Limits) {
    limits.heavy + limits.mutation > limits.total
  }

  /** The pool whose release the head waits for. */
  predicate WaitsForPool(limits: Limits, active: seq<Task>, head: Task, pool: Pool) {
    && Uses(head, pool) && Full(limits, active, pool)
    && (UsesBothPools(head) ==> PoolsOverlap(limits) && NoBothHolder(active))
    && (pool.AnySlot? ==>
          && (Uses(head, HeavySlot) ==> !Full(limits, active, HeavySlot))
          && (Uses(head, MutationSlot) ==> !Full(limits, active, MutationSlot)))
  }

  /**
   * The first release in the pool it waits for lets a clear head start, however many younger tasks
   * overtook it before: any head in at most one pool, and also one in both when the pools overlap.
   */
  lemma FirstReleaseStartsHead(limits: Limits, history: seq<Event>, at: nat, k: nat, head: Task, pool: Pool)
    requires Waits(limits, history, at, k, head) && WaitsForPool(limits, StateAt(history, at).active, head, pool)
    requires k < |history| && ReleaseIn(history[k], pool) && forall j :: at <= j < k ==> !ReleaseIn(history[j], pool)
    ensures ClearHead(StateAt(history, k + 1), head) && IsNext(limits, StateAt(history, k + 1), 0)
  {
    DecisiveAtFirst(limits, history, at, k, head, pool);
    hide Waits, WaitsForPool, ClearHead, IsNext, Decisive;
    ReleaseInRun(limits, history, at, k, head);
  }

  lemma ReleaseInRun(limits: Limits, history: seq<Event>, at: nat, k: nat, head: Task)
    requires Waits(limits, history, at, k, head) && k < |history| && history[k].Released?
    requires Decisive(limits, StateAt(history, k).active, head, history[k].task)
    ensures ClearHead(StateAt(history, k + 1), head) && IsNext(limits, StateAt(history, k + 1), 0)
  {
    WaitsThroughout(limits, history, at, k, head, k);
    hide WellFormed, Safe, ClearHead, Legal, IsNext, Decisive;
    SafeAt(limits, history, k);
    StateAfter(history, k);
    ReleaseLetsHeadStart(limits, StateAt(history, k), head, history[k].task);
  }

  lemma DecisiveAtFirst(limits: Limits, history: seq<Event>, at: nat, k: nat, head: Task, pool: Pool)
    requires Waits(limits, history, at, k, head) && WaitsForPool(limits, StateAt(history, at).active, head, pool)
    requires k < |history| && ReleaseIn(history[k], pool) && forall j :: at <= j < k ==> !ReleaseIn(history[j], pool)
    ensures Decisive(limits, StateAt(history, k).active, head, history[k].task)
  {
    hide ClearHead, Legal;
    var active := StateAt(history, k).active;
    PoolStaysFull(limits, history, at, k, pool);
    if pool.AnySlot? {
      NobodyJoins(limits, history, at, k);
    } else if UsesBothPools(head) {
      NoBothHolderThroughout(limits, history, at, k, head);
      PoolsAreShared(active);
      WaitsThroughout(limits, history, at, k, head, k);
    }
  }

  // ---------------------------------------------------------------------------------------------
  // Turnover

  /** Every task active at `at` has released by `k`. */
  ghost predicate TurnedOver(history: seq<Event>, at: nat, k: nat)
    requires at <= k <= |history|
  {
    forall t :: t in StateAt(history, at).active ==> t !in StateAt(history, k).active
  }

  lemma {:induction false} LeftByRelease(limits: Limits, history: seq<Event>, at: nat, k: nat, task: Task)
    returns (m: nat)
    requires ValidLimits(limits) && Legal(limits, history) && at <= k <= |history|
    requires task in StateAt(history, at).active && task !in StateAt(history, k).active
    ensures at <= m < k && history[m] == Released(task)
    decreases k
  {
    if task !in StateAt(history, k - 1).active {
      m := LeftByRelease(limits, history, at, k - 1, task);
    } else {
      m := k - 1;
      SafeAt(limits, history, m);
      StateAfter(history, m);
      WithoutMembers(StateAt(history, m).active, history[m].task);
    }
  }

  lemma FirstIn(history: seq<Event>, at: nat, m: nat, pool: Pool) returns (k: nat)
    requires at <= m < |history| && ReleaseIn(history[m], pool)
    ensures at <= k <= m && ReleaseIn(history[k], pool) && forall j :: at <= j < k ==> !ReleaseIn(history[j], pool)
  {
    k := at;
    while !ReleaseIn(history[k], pool)
      invariant at <= k <= m && forall j :: at <= j < k ==> !ReleaseIn(history[j], pool)
      decreases m - k
    {
      k := k + 1;
    }
  }

  /** Some active task has a slot in a pool that is not empty. */
  lemma {:induction false} PoolHasHolder(active: seq<Task>, pool: Pool) returns (holder: Task)
    requires Taken(active, pool) > 0
    ensures holder in active && Uses(holder, pool)
  {
    if Uses(active[|active| - 1], pool) {
      holder := active[|active| - 1];
    } else {
      holder := PoolHasHolder(active[..|active| - 1], pool);
    }
  }

  /** An exclusive head cannot starve, nor one in at most one pool, nor one in both when the pools overlap. */
  predicate CannotStarve(limits: Limits, task: Task) {
    UsesBothPools(task) && !task.IsExclusive() ==> PoolsOverlap(limits)
  }

  /** An active task without which the head always has room. */
  predicate HoldsEverything(holder: Task, head: Task) {
    holder.IsExclusive() || (UsesBothPools(holder) && UsesBothPools(head))
  }

  /** Within one turnover of the active tasks there is a release after which the head is next. */
  lemma DecisiveRelease(limits: Limits, history: seq<Event>, at: nat, k: nat, head: Task) returns (m: nat)
    requires Waits(limits, history, at, k, head) && TurnedOver(history, at, k)
    requires CannotStarve(limits, head) && !Runnable(limits, StateAt(history, at), 0)
    ensures at <= m < k && ClearHead(StateAt(history, m + 1), head) && IsNext(limits, StateAt(history, m + 1), 0)
  {
    var active := StateAt(history, at).active;
    if i :| 0 <= i < |active| && HoldsEverything(active[i], head) {
      hide Waits, HoldsEverything, ClearHead, IsNext, CannotStarve;
      m := HolderReleases(limits, history, at, k, head, active[i]);
    } else {
      WaitsThroughout(limits, history, at, k, head, at);
      var pool := BlockingPool(limits, StateAt(history, at), head);
      hide HoldsEverything, ClearHead, IsNext, CannotStarve, Waiting, WaitsForPool;
      var holder := PoolHasHolder(active, pool);
      m := LeftByRelease(limits, history, at, k, holder);
      m := FirstIn(history, at, m, pool);
      WaitsUntil(limits, history, at, m, k, head);
      FirstReleaseStartsHead(limits, history, at, m, head, pool);
    }
  }

  lemma WaitsUntil(limits: Limits, history: seq<Event>, at: nat, m: nat, k: nat, head: Task)
    requires Waits(limits, history, at, k, head) && at <= m <= k
    ensures Waits(limits, history, at, m, head)
  {
    QueuedBefore(limits, history, at, k, head);
  }

  lemma BlockingPool(limits: Limits, s: State, head: Task) returns (pool: Pool)
    requires ValidLimits(limits) && Waiting(limits, s, head) && !Runnable(limits, s, 0) && CannotStarve(limits, head)
    requires forall i :: 0 <= i < |s.active| ==> !HoldsEverything(s.active[i], head)
    ensures WaitsForPool(limits, s.active, head, pool) && Taken(s.active, pool) > 0
  {
    assert !HasCapacity(limits, s.active, head);
    pool := if Uses(head, HeavySlot) && Full(limits, s.active, HeavySlot) then HeavySlot
            else if Uses(head, MutationSlot) && Full(limits, s.active, MutationSlot) then MutationSlot
            else AnySlot;
  }

  /** An exclusive task, or one in both pools before a head in both, is decisive whenever it releases. */
  lemma HolderReleases(limits: Limits, history: seq<Event>, at: nat, k: nat, head: Task, holder: Task) returns (m: nat)
    requires Waits(limits, history, at, k, head) && TurnedOver(history, at, k)
    requires holder in StateAt(history, at).active && HoldsEverything(holder, head)
    ensures at <= m < k && ClearHead(StateAt(history, m + 1), head) && IsNext(limits, StateAt(history, m + 1), 0)
  {
    hide ClearHead, IsNext, Decisive, HoldsEverything;
    m := LeftByRelease(limits, history, at, k, holder);
    WaitsUntil(limits, history, at, m, k, head);
    SafeAt(limits, history, m);
    HolderIsDecisive(limits, StateAt(history, m).active, head, holder);
    ReleaseInRun(limits, history, at, m, head);
  }

  lemma HolderIsDecisive(limits: Limits, active: seq<Task>, head: Task, holder: Task)
    requires ValidLimits(limits) && ExclusiveAlone(active) && holder in active && HoldsEverything(holder, head)
    ensures Decisive(limits, active, head, holder)
  {
    if holder.IsExclusive() {
      assert active == [holder];
      Counts(holder, []);
    }
  }

  lemma Counts(x: Task, tasks: seq<Task>)
    ensures CountHeavy([x]) == if x.IsHeavy() then 1 else 0
    ensures CountMutation([x]) == if x.IsMutation() then 1 else 0
    ensures CountHeavy(tasks + [x]) == CountHeavy(tasks) + CountHeavy([x])
    ensures CountMutation(tasks + [x]) == CountMutation(tasks) + CountMutation([x])
  {
    assert [x][..0] == [];
    CountsAppend(tasks, [x]);
  }

  /**
   * Fairness: a clear head in at most one pool, or in both when the pools overlap, never outwaits one
   * turnover. Once every task that was active with it has released, it is gone from the queue at the
   * next moment of rest.
   */
  lemma NoHeadOutwaitsATurnover(limits: Limits, history: seq<Event>, at: nat, k: nat, head: Task)
    requires ValidLimits(limits) && Legal(limits, history) && Eager(limits, history) && at <= k <= |history|
    requires ClearHead(StateAt(history, at), head) && CannotStarve(limits, head)
    requires TurnedOver(history, at, k) && Quiescent(limits, StateAt(history, k))
    ensures head !in StateAt(history, k).queue
  {
    if head in StateAt(history, k).queue {
      NextAfterTurnover(limits, history, at, k, head);
    }
  }

  /** While it is still queued after a turnover, the head is the next to start: the scheduler is not at rest. */
  lemma NextAfterTurnover(limits: Limits, history: seq<Event>, at: nat, k: nat, head: Task)
    requires Waits(limits, history, at, k, head) && Eager(limits, history)
    requires CannotStarve(limits, head) && TurnedOver(history, at, k)
    ensures IsNext(limits, StateAt(history, k), 0) && !Quiescent(limits, StateAt(history, k))
  {
    if Runnable(limits, StateAt(history, at), 0) {
      NextStaysNext(limits, history, at, k, head);
    } else {
      var m := DecisiveRelease(limits, history, at, k, head);
      NextStaysNext(limits, history, m + 1, k, head);
    }
  }
}
