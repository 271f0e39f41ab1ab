/** What keeps a queued task waiting, in terms of the tasks before it, the slots and the paths. */
module SchedulerAdmission {
  import opened TaskClaims
  import opened SchedulerRules
  import opened SchedulerRuns

  /** The places in the active set of the tasks that hold a heavy slot. */
  function HeavyPlaces(active: seq<Task>): (places: set<nat>) {
    set i | 0 <= i < |active| && active[i].resources.workload.Heavy?
  }

  /** The places in the active set of the tasks that hold a mutation slot. */
  function MutationPlaces(active: seq<Task>): (places: set<nat>) {
    set i | 0 <= i < |active| && active[i].resources.impact.Mutation?
  }

  predicate ShareATree(a: Task, b: Task) {
    exists i, j :: 0 <= i < |a.claims| && 0 <= j < |b.claims| && ClaimsConflict(a.claims[i], b.claims[j])
  }

  /** A pool in which the task needs a slot has none left. */
  predicate PoolIsFull(limits: Limits, active: seq<Task>, task: Task) {
    || |active| >= limits.total
    || (task.resources.workload.Heavy? && |HeavyPlaces(active)| >= limits.heavy)
    || (task.resources.impact.Mutation? && |MutationPlaces(active)| >= limits.mutation)
  }

  /** Some task has the session to itself: an active one, or one that is queued before. */
  predicate ExclusiveFirst(s: State, i: nat)
    requires i < |s.queue|
  {
    || (exists j :: 0 <= j < i && s.queue[j].resources.exclusive)
    || (exists j :: 0 <= j < |s.active| && s.active[j].resources.exclusive)
  }

  /** An active task, or one that is queued before, owns or reserves a path tree the task needs. */
  predicate TreeIsTaken(s: State, i: nat)
    requires i < |s.queue|
  {
    || (exists j :: 0 <= j < |s.active| && ShareATree(s.queue[i], s.active[j]))
    || (exists j :: 0 <= j < i && ShareATree(s.queue[i], s.queue[j]))
  }

  /** Why the queued task at `i` has to wait. */
  predicate KeptWaiting(limits: Limits, s: State, i: nat)
    requires i < |s.queue|
  {
    if s.queue[i].resources.exclusive then i > 0 || s.active != []
    else ExclusiveFirst(s, i) || PoolIsFull(limits, s.active, s.queue[i]) || TreeIsTaken(s, i)
  }

  lemma PlacesGrow(init: seq<Task>, last: Task)
    ensures HeavyPlaces(init + [last]) == HeavyPlaces(init) + if last.resources.workload.Heavy? then {|init|} else {}
    ensures MutationPlaces(init + [last])
            == MutationPlaces(init) + if last.resources.impact.Mutation? then {|init|} else {}
    ensures |init| !in HeavyPlaces(init) && |init| !in MutationPlaces(init)
  {
  }

  lemma {:induction false} CountsAreSizes(active: seq<Task>)
    ensures CountHeavy(active) == |HeavyPlaces(active)|
    ensures CountMutation(active) == |MutationPlaces(active)|
  {
    if active != [] {
      var init, last := active[..|active| - 1], active[|active| - 1];
      CountsAreSizes(init);
      PlacesGrow(init, last);
      hide HeavyPlaces, MutationPlaces;
      assert active == init + [last];
    }
  }

  lemma CapacityMeans(limits: Limits, active: seq<Task>, task: Task)
    ensures HasCapacity(limits, active, task) <==>
              && !PoolIsFull(limits, active, task)
              && forall j :: 0 <= j < |active| ==> !active[j].resources.exclusive
  {
    CountsAreSizes(active);
    hide CountHeavy, CountMutation;
  }

  lemma ConflictMeans(a: Task, b: Task)
    ensures TasksConflict(a, b) <==> ShareATree(a, b)
  {
    if TasksConflict(a, b) {
      var x, y :| x in a.claims && y in b.claims && ClaimsConflict(x, y);
      var i :| 0 <= i < |a.claims| && a.claims[i] == x;
      var j :| 0 <= j < |b.claims| && b.claims[j] == y;
      assert ClaimsConflict(a.claims[i], b.claims[j]);
    }
    if ShareATree(a, b) {
      var i, j :| 0 <= i < |a.claims| && 0 <= j < |b.claims| && ClaimsConflict(a.claims[i], b.claims[j]);
      assert a.claims[i] in a.claims && b.claims[j] in b.claims;
    }
  }

  /** A queued task may start exactly when nothing keeps it waiting. */
  lemma RunnableIff(limits: Limits, s: State, i: nat)
    requires i < |s.queue|
    ensures Runnable(limits, s, i) <==> !KeptWaiting(limits, s, i)
  {
    var task := s.queue[i];
    CapacityMeans(limits, s.active, task);
    forall j | 0 <= j < |s.active|
      ensures TasksConflict(task, s.active[j]) <==> ShareATree(task, s.active[j])
    {
      ConflictMeans(task, s.active[j]);
    }
    forall j | 0 <= j < |s.queue|
      ensures TasksConflict(task, s.queue[j]) <==> ShareATree(task, s.queue[j])
    {
      ConflictMeans(task, s.queue[j]);
    }
    hide HasCapacity, PoolIsFull, TasksConflict, ShareATree;
  }

  /** At rest every queued task is kept waiting, and only then is the scheduler at rest. */
  lemma RestMeansKeptWaiting(limits: Limits, s: State)
    ensures Quiescent(limits, s) <==> forall i :: 0 <= i < |s.queue| ==> KeptWaiting(limits, s, i)
  {
    hide Runnable, KeptWaiting;
    forall i | 0 <= i < |s.queue|
      ensures Runnable(limits, s, i) <==> !KeptWaiting(limits, s, i)
    {
      RunnableIff(limits, s, i);
    }
  }

  /** The next task to start is the first that nothing keeps waiting. */
  lemma NextMeansFirstFree(limits: Limits, s: State, i: nat)
    requires i < |s.queue|
    ensures IsNext(limits, s, i) <==>
              !KeptWaiting(limits, s, i) && forall j :: 0 <= j < i ==> KeptWaiting(limits, s, j)
  {
    hide Runnable, KeptWaiting;
    forall j | 0 <= j < |s.queue|
      ensures Runnable(limits, s, j) <==> !KeptWaiting(limits, s, j)
    {
      RunnableIff(limits, s, j);
    }
  }

  /**
   * Nothing that could start waits: whenever a run of a dispatching scheduler submits or releases, each
   * queued task has an older or active task in its way, or a full pool.
   */
  lemma NothingWaitsForNothing(limits: Limits, history: seq<Event>, k: nat, i: nat)
    requires Eager(limits, history) && k < |history| && (history[k].Submitted? || history[k].Released?)
    requires i < |StateAt(history, k).queue|
    ensures KeptWaiting(limits, StateAt(history, k), i)
  {
    hide Quiescent, KeptWaiting;
    PrefixIsEager(limits, history, k);
    RestMeansKeptWaiting(limits, StateAt(history, k));
  }

  /** A task that starts was kept waiting by nothing, and every task queued before it by something. */
  lemma StartsAreFirstFree(limits: Limits, history: seq<Event>, k: nat) returns (i: nat)
    requires Legal(limits, history) && k < |history| && history[k].Started?
    ensures i < |StateAt(history, k).queue| && StateAt(history, k).queue[i] == history[k].task
    ensures !KeptWaiting(limits, StateAt(history, k), i)
    ensures forall j :: 0 <= j < i ==> KeptWaiting(limits, StateAt(history, k), j)
  {
    hide Runnable, KeptWaiting;
    PrefixIsLegal(limits, history, k);
    var s := StateAt(history, k);
    var at :| IsNext(limits, s, at) && s.queue[at] == history[k].task;
    i := at;
    NextMeansFirstFree(limits, s, i);
  }

  /** Safety in the same terms: no pool holds more than its limit, in every state of every run. */
  lemma PoolsAreNeverOverfull(limits: Limits, history: seq<Event>)
    requires ValidLimits(limits) && Legal(limits, history)
    ensures var active := Replay(history).active;
            && |active| <= limits.total && |HeavyPlaces(active)| <= limits.heavy
            && |MutationPlaces(active)| <= limits.mutation
            && (forall i :: 0 <= i < |active| && active[i].resources.exclusive ==> |active| == 1)
            && forall i, j :: 0 <= i < j < |active| ==> !ShareATree(active[i], active[j])
  {
    EveryRunIsSafe(limits, history);
    var active := Replay(history).active;
    CountsAreSizes(active);
    hide Legal, WellFormed, HeavyPlaces, MutationPlaces, ShareATree, TasksConflict;
    forall i, j | 0 <= i < j < |active|
      ensures !ShareATree(active[i], active[j])
    {
      ConflictMeans(active[i], active[j]);
    }
  }
}
