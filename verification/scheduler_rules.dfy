/** The admission rules of the SFTP task scheduler, and every run they allow. */
module SchedulerRules {
  import opened TaskClaims

  datatype Impact = Read | Mutation | Lifecycle

  datatype Workload = Light | Heavy

  datatype Resources = Resources(impact: Impact, workload: Workload, exclusive: bool)

  /** What the scheduler reads when it decides about a task; `sequence` is its submission number. */
  datatype Task = Task(sequence: nat, id: string, resources: Resources, claims: seq<string>)
  {
    predicate IsHeavy() { resources.workload == Heavy }
    predicate IsMutation() { resources.impact == Mutation }
    predicate IsExclusive() { resources.exclusive }
  }

  datatype Limits = Limits(total: int, heavy: int, mutation: int)

  predicate ValidLimits(limits: Limits) {
    0 < limits.total && 0 < limits.heavy <= limits.total && 0 < limits.mutation <= limits.total
  }

  /** `submitted` counts submissions; `active` are the tasks that still own slots and claims. */
  datatype State = State(submitted: nat, queue: seq<Task>, active: seq<Task>)

  const Idle := State(0, [], [])

  function CountHeavy(tasks: seq<Task>): (n: nat) {
    if tasks == [] then 0 else CountHeavy(tasks[..|tasks| - 1]) + if tasks[|tasks| - 1].IsHeavy() then 1 else 0
  }

  function CountMutation(tasks: seq<Task>): (n: nat) {
    if tasks == [] then 0 else CountMutation(tasks[..|tasks| - 1]) + if tasks[|tasks| - 1].IsMutation() then 1 else 0
  }

  predicate TasksConflict(a: Task, b: Task) {
    ClaimSetsConflict(a.claims, b.claims)
  }

  predicate HasCapacity(limits: Limits, active: seq<Task>, task: Task) {
    && (forall i :: 0 <= i < |active| ==> !active[i].IsExclusive())
    && |active| < limits.total
    && (task.IsHeavy() ==> CountHeavy(active) < limits.heavy)
    && (task.IsMutation() ==> CountMutation(active) < limits.mutation)
  }

  /** The queued task at `i` may start now. */
  predicate Runnable(limits: Limits, s: State, i: nat)
    requires i < |s.queue|
  {
    if s.queue[i].IsExclusive() then
      i == 0 && s.active == []
    else
      && (forall j :: 0 <= j < i ==> !s.queue[j].IsExclusive())
      && HasCapacity(limits, s.active, s.queue[i])
      && (forall j :: 0 <= j < |s.active| ==> !TasksConflict(s.queue[i], s.active[j]))
      && (forall j :: 0 <= j < i ==> !TasksConflict(s.queue[i], s.queue[j]))
  }

  /** `i` is the first runnable queue position. */
  predicate IsNext(limits: Limits, s: State, i: int) {
    && 0 <= i < |s.queue|
    && Runnable(limits, s, i)
    && forall j :: 0 <= j < i ==> !Runnable(limits, s, j)
  }

  predicate Quiescent(limits: Limits, s: State) {
    forall i :: 0 <= i < |s.queue| ==> !Runnable(limits, s, i)
  }

  datatype Event =
    | Submitted(task: Task)
    | Started(task: Task)
    | Dropped(task: Task)   // left the queue without starting
    | Released(task: Task)  // gave its slots and claims back

  /** `tasks` without its entry at the position of `task`. */
  function Without(tasks: seq<Task>, task: Task): (rest: seq<Task>) {
    if tasks == [] then []
    else if tasks[0] == task then tasks[1..]
    else [tasks[0]] + Without(tasks[1..], task)
  }

  function Apply(s: State, event: Event): (after: State) {
    match event
    case Submitted(task) => s.(submitted := s.submitted + 1, queue := s.queue + [task])
    case Started(task) => s.(queue := Without(s.queue, task), active := s.active + [task])
    case Dropped(task) => s.(queue := Without(s.queue, task))
    case Released(task) => s.(active := Without(s.active, task))
  }

  ghost predicate Enabled(limits: Limits, s: State, event: Event) {
    match event
    case Submitted(task) => task.sequence == s.submitted
    case Started(task) => exists i :: IsNext(limits, s, i) && s.queue[i] == task
    case Dropped(task) => task in s.queue
    case Released(task) => task in s.active
  }

  function Replay(history: seq<Event>): (s: State) {
    if history == [] then Idle else Apply(Replay(history[..|history| - 1]), history[|history| - 1])
  }

  /** Every event was enabled in the state the events before it lead to. */
  ghost predicate Legal(limits: Limits, history: seq<Event>) {
    history != [] ==>
      && Legal(limits, history[..|history| - 1])
      && Enabled(limits, Replay(history[..|history| - 1]), history[|history| - 1])
  }

  /** Nothing is submitted or released while a queued task could start: dispatching comes first. */
  ghost predicate Eager(limits: Limits, history: seq<Event>) {
    history != [] ==>
      var before, last := history[..|history| - 1], history[|history| - 1];
      Eager(limits, before) && (last.Submitted? || last.Released? ==> Quiescent(limits, Replay(before)))
  }

  // ---------------------------------------------------------------------------------------------
  // What every reachable state satisfies

  ghost predicate Ordered(tasks: seq<Task>) {
    forall i, j :: 0 <= i < j < |tasks| ==> tasks[i].sequence < tasks[j].sequence
  }

  ghost predicate Distinct(tasks: seq<Task>) {
    forall i, j :: 0 <= i < j < |tasks| ==> tasks[i].sequence != tasks[j].sequence
  }

  ghost predicate WithinLimits(limits: Limits, active: seq<Task>) {
    && |active| <= limits.total
    && CountHeavy(active) <= limits.heavy
    && CountMutation(active) <= limits.mutation
  }

  ghost predicate ExclusiveAlone(active: seq<Task>) {
    forall i :: 0 <= i < |active| && active[i].IsExclusive() ==> |active| == 1
  }

  ghost predicate ConflictFree(active: seq<Task>) {
    forall i, j :: 0 <= i < |active| && 0 <= j < |active| && i != j ==> !TasksConflict(active[i], active[j])
  }

  ghost predicate Safe(limits: Limits, s: State) {
    && WithinLimits(limits, s.active)
    && ExclusiveAlone(s.active)
    && ConflictFree(s.active)
  }

  /** Queue order is submission order, and nothing is in two places. */
  ghost predicate WellFormed(s: State) {
    && Ordered(s.queue) && Distinct(s.active)
    && (forall i :: 0 <= i < |s.queue| ==> s.queue[i].sequence < s.submitted)
    && (forall i :: 0 <= i < |s.active| ==> s.active[i].sequence < s.submitted)
    && (forall i, j :: 0 <= i < |s.queue| && 0 <= j < |s.active| ==> s.queue[i].sequence != s.active[j].sequence)
  }

  /** `Without` in terms of positions: one entry goes, the others keep their order. */
  lemma {:induction false} WithoutAt(tasks: seq<Task>, i: nat)
    requires i < |tasks| && Distinct(tasks)
    ensures Without(tasks, tasks[i]) == tasks[..i] + tasks[i + 1..]
  {
    if i > 0 {
      assert tasks[0] != tasks[i];
      WithoutAt(tasks[1..], i - 1);
      assert tasks[1..][i - 1] == tasks[i];
      assert [tasks[0]] + (tasks[1..][..i - 1] + tasks[1..][i..]) == tasks[..i] + tasks[i + 1..];
    }
  }

  lemma {:induction false} CountsAppend(a: seq<Task>, b: seq<Task>)
    ensures CountHeavy(a + b) == CountHeavy(a) + CountHeavy(b)
    ensures CountMutation(a + b) == CountMutation(a) + CountMutation(b)
    decreases |b|
  {
    if b == [] {
      assert a + b == a;
    } else {
      CountsAppend(a, b[..|b| - 1]);
      assert (a + b)[..|a + b| - 1] == a + b[..|b| - 1];
    }
  }

  lemma CountsWithout(tasks: seq<Task>, i: nat)
    requires i < |tasks|
    ensures CountHeavy(tasks[..i] + tasks[i + 1..]) == CountHeavy(tasks) - if tasks[i].IsHeavy() then 1 else 0
    ensures CountMutation(tasks[..i] + tasks[i + 1..]) == CountMutation(tasks) - if tasks[i].IsMutation() then 1 else 0
  {
    CountsAppend(tasks[..i], tasks[i + 1..]);
    CountsAppend(tasks[..i + 1], tasks[i + 1..]);
    assert tasks[..i + 1] + tasks[i + 1..] == tasks;
    assert tasks[..i + 1][..i] == tasks[..i];
  }

  /** One enabled event keeps the state well formed and safe. */
  lemma StepKeepsSafety(limits: Limits, s: State, event: Event)
    requires ValidLimits(limits) && WellFormed(s) && Safe(limits, s)
    requires Enabled(limits, s, event)
    ensures WellFormed(Apply(s, event)) && Safe(limits, Apply(s, event))
  {
    hide WellFormed, Safe, Apply, Runnable;
    match event
    case Submitted(task) => SubmitKeepsSafety(limits, s, task);
    case Started(task) =>
      var i :| IsNext(limits, s, i) && s.queue[i] == task;
      StartKeepsSafety(limits, s, i);
    case Dropped(task) =>
      var i :| 0 <= i < |s.queue| && s.queue[i] == task;
      DropKeepsSafety(limits, s, i);
    case Released(task) =>
      var i :| 0 <= i < |s.active| && s.active[i] == task;
      ReleaseKeepsSafety(limits, s, i);
  }

  lemma SubmitKeepsSafety(limits: Limits, s: State, task: Task)
    requires WellFormed(s) && Safe(limits, s) && task.sequence == s.submitted
    ensures WellFormed(Apply(s, Submitted(task))) && Safe(limits, Apply(s, Submitted(task)))
  {
    hide Safe;
    SameActiveIsSafe(limits, s, Apply(s, Submitted(task)));
  }

  lemma SameActiveIsSafe(limits: Limits, s: State, after: State)
    requires Safe(limits, s) && after.active == s.active
    ensures Safe(limits, after)
  {
  }

  lemma DropKeepsSafety(limits: Limits, s: State, i: nat)
    requires WellFormed(s) && Safe(limits, s) && i < |s.queue|
    ensures WellFormed(Apply(s, Dropped(s.queue[i]))) && Safe(limits, Apply(s, Dropped(s.queue[i])))
  {
    hide Safe;
    WithoutAt(s.queue, i);
    SameActiveIsSafe(limits, s, Apply(s, Dropped(s.queue[i])));
  }

  lemma StartKeepsSafety(limits: Limits, s: State, i: nat)
    requires ValidLimits(limits) && WellFormed(s) && Safe(limits, s)
    requires IsNext(limits, s, i)
    ensures WellFormed(Apply(s, Started(s.queue[i]))) && Safe(limits, Apply(s, Started(s.queue[i])))
  {
    hide WellFormed, Safe;
    StartKeepsWellFormed(s, i);
    StartedFits(limits, s, i);
  }

  lemma StartKeepsWellFormed(s: State, i: nat)
    requires WellFormed(s) && i < |s.queue|
    ensures WellFormed(Apply(s, Started(s.queue[i])))
  {
    WithoutAt(s.queue, i);
  }

  lemma StartedFits(limits: Limits, s: State, i: nat)
    requires ValidLimits(limits) && Safe(limits, s) && i < |s.queue| && Runnable(limits, s, i)
    ensures Safe(limits, Apply(s, Started(s.queue[i])))
  {
    hide TasksConflict;
    var task := s.queue[i];
    var active := s.active + [task];
    assert active[..|s.active|] == s.active;
    assert WithinLimits(limits, active);
    assert ExclusiveAlone(active);
    StartKeepsConflictFree(s.active, task);
  }

  lemma StartKeepsConflictFree(active: seq<Task>, task: Task)
    requires ConflictFree(active)
    requires forall j :: 0 <= j < |active| ==> !TasksConflict(task, active[j])
    ensures ConflictFree(active + [task])
  {
    forall j | 0 <= j < |active|
      ensures !TasksConflict(active[j], task)
    {
      ClaimSetsConflictSymmetric(task.claims, active[j].claims);
    }
  }

  lemma ReleaseKeepsSafety(limits: Limits, s: State, i: nat)
    requires WellFormed(s) && Safe(limits, s) && i < |s.active|
    ensures WellFormed(Apply(s, Released(s.active[i]))) && Safe(limits, Apply(s, Released(s.active[i])))
  {
    WithoutAt(s.active, i);
    CountsWithout(s.active, i);
    RemovalKeeps(s.active, i);
  }

  lemma RemovalKeeps(active: seq<Task>, i: nat)
    requires i < |active| && Distinct(active) && ConflictFree(active) && ExclusiveAlone(active)
    ensures var rest := active[..i] + active[i + 1..];
            Distinct(rest) && ConflictFree(rest) && ExclusiveAlone(rest)
            && forall j :: 0 <= j < |rest| ==> rest[j] in active
  {
    var rest := active[..i] + active[i + 1..];
    forall j, k | 0 <= j < |rest| && 0 <= k < |rest| && j != k
      ensures !TasksConflict(rest[j], rest[k]) && rest[j].sequence != rest[k].sequence
    {
      assert rest[j] == active[if j < i then j else j + 1];
      assert rest[k] == active[if k < i then k else k + 1];
    }
  }

  lemma {:induction false} PrefixIsLegal(limits: Limits, history: seq<Event>, k: nat)
    requires Legal(limits, history) && k <= |history|
    ensures Legal(limits, history[..k])
    ensures k < |history| ==> Enabled(limits, Replay(history[..k]), history[k])
  {
    if k < |history| - 1 {
      PrefixIsLegal(limits, history[..|history| - 1], k);
      assert history[..|history| - 1][..k] == history[..k];
    } else if k == |history| {
      assert history[..k] == history;
    }
  }

  lemma ExtendLegal(limits: Limits, history: seq<Event>, event: Event)
    requires Legal(limits, history) && Enabled(limits, Replay(history), event)
    ensures Legal(limits, history + [event])
    ensures Replay(history + [event]) == Apply(Replay(history), event)
  {
    assert (history + [event])[..|history|] == history;
  }

  lemma {:induction false} PrefixIsEager(limits: Limits, history: seq<Event>, k: nat)
    requires Eager(limits, history) && k <= |history|
    ensures Eager(limits, history[..k])
    ensures k < |history| && (history[k].Submitted? || history[k].Released?) ==> Quiescent(limits, Replay(history[..k]))
  {
    if k < |history| - 1 {
      PrefixIsEager(limits, history[..|history| - 1], k);
      assert history[..|history| - 1][..k] == history[..k];
    } else if k == |history| {
      assert history[..k] == history;
    }
  }

  lemma ExtendEager(limits: Limits, history: seq<Event>, event: Event)
    requires Eager(limits, history)
    requires event.Submitted? || event.Released? ==> Quiescent(limits, Replay(history))
    ensures Eager(limits, history + [event])
  {
    assert (history + [event])[..|history|] == history;
  }

  /** In every state of every run the limits hold, an exclusive task is alone and no claims overlap. */
  lemma {:induction false} EveryRunIsSafe(limits: Limits, history: seq<Event>)
    requires ValidLimits(limits) && Legal(limits, history)
    ensures WellFormed(Replay(history)) && Safe(limits, Replay(history))
  {
    if history != [] {
      var before := history[..|history| - 1];
      EveryRunIsSafe(limits, before);
      StepKeepsSafety(limits, Replay(before), history[|history| - 1]);
    }
  }
}
