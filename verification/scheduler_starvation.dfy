/** Exactly which tasks can be overtaken for ever at the head of the queue. */
module SchedulerStarvation {
  import opened TaskClaims
  import opened SchedulerRules
  import opened SchedulerRuns
  import opened SchedulerFairness
  import opened SchedulerLiveness
  import NumberText

  /** No id is registered twice. */
  ghost predicate DistinctIds(history: seq<Event>) {
    forall i, j :: 0 <= i < j < |history| && history[i].Submitted? && history[j].Submitted? ==>
      history[i].task.id != history[j].task.id
  }

  /** The marks are moments of rest with `head` at the head of the queue. */
  ghost predicate RestsAt(limits: Limits, history: seq<Event>, marks: seq<nat>, head: Task) {
    forall i :: 0 <= i < |marks| ==>
      && marks[i] <= |history|
      && StateAt(history, marks[i]).queue != [] && StateAt(history, marks[i]).queue[0] == head
      && Quiescent(limits, StateAt(history, marks[i]))
  }

  /**
   * A run the scheduler can take in which `head` waits at every mark although between any two marks
   * every task that was active has released.
   */
  ghost predicate Outwaits(limits: Limits, history: seq<Event>, marks: seq<nat>, head: Task) {
    && Legal(limits, history) && Eager(limits, history) && DistinctIds(history)
    && marks != [] && RestsAt(limits, history, marks, head)
    && (forall i :: 0 < i < |marks| ==> marks[i - 1] <= marks[i])
    && (forall i :: 0 < i < |marks| ==> TurnedOver(history, marks[i - 1], marks[i]))
  }

  /** Some task of this kind waits through `n` turnovers. */
  ghost predicate CanOutwait(limits: Limits, resources: Resources, n: nat) {
    exists history: seq<Event>, marks: seq<nat>, head: Task ::
      Outwaits(limits, history, marks, head) && |marks| == n + 1 && head.resources == resources
  }

  /** Tasks of this kind can be kept waiting for ever although every runner releases. */
  ghost predicate CanStarve(limits: Limits, resources: Resources) {
    forall n: nat :: CanOutwait(limits, resources, n)
  }

  // ---------------------------------------------------------------------------------------------
  // A run that keeps a task waiting

  /** The `n`-th submission, with an id of its own. */
  function Numbered(n: nat, resources: Resources): (task: Task) {
    Task(n, NumberText.Print(n, NumberText.Decimal), resources, [])
  }

  const Reader := Resources(Read, Heavy, false)
  const Writer := Resources(Mutation, Light, false)

  /** `count` tasks of one kind, numbered from `n`. */
  function Batch(n: nat, resources: Resources, count: nat): (tasks: seq<Task>)
    ensures |tasks| == count
    decreases count
  {
    if count == 0 then [] else Batch(n, resources, count - 1) + [Numbered(n + count - 1, resources)]
  }

  lemma {:induction false} BatchAt(n: nat, resources: Resources, count: nat)
    ensures forall i :: 0 <= i < count ==> Batch(n, resources, count)[i] == Numbered(n + i, resources)
    decreases count
  {
    if count > 0 {
      BatchAt(n, resources, count - 1);
    }
  }

  lemma {:induction false} BatchCounts(n: nat, resources: Resources, count: nat)
    ensures CountHeavy(Batch(n, resources, count)) == if resources.workload.Heavy? then count else 0
    ensures CountMutation(Batch(n, resources, count)) == if resources.impact.Mutation? then count else 0
    decreases count
  {
    if count > 0 {
      BatchCounts(n, resources, count - 1);
      hide CountHeavy, CountMutation;
      Counts(Numbered(n + count - 1, resources), Batch(n, resources, count - 1));
    }
  }

  /** The ids submitted so far are the printed submission numbers. */
  ghost predicate NumberedIds(history: seq<Event>) {
    forall k :: 0 <= k < |history| && history[k].Submitted? ==>
      history[k].task.id == NumberText.Print(history[k].task.sequence, NumberText.Decimal)
  }

  lemma NumberedIdsAreDistinct(limits: Limits, history: seq<Event>)
    requires ValidLimits(limits) && Legal(limits, history) && NumberedIds(history)
    ensures DistinctIds(history)
  {
    forall i, j | 0 <= i < j < |history| && history[i].Submitted? && history[j].Submitted?
      ensures history[i].task.id != history[j].task.id
    {
      PrefixIsLegal(limits, history, i);
      PrefixIsLegal(limits, history, j);
      StateAfter(history, i);
      SubmissionsGrow(history, i + 1, j);
      if history[i].task.id == history[j].task.id {
        NumberText.PrintInjective(history[i].task.sequence, history[j].task.sequence, NumberText.Decimal);
      }
    }
  }

  /** One of the two pools is full. */
  predicate PoolFull(limits: Limits, active: seq<Task>) {
    CountMutation(active) == limits.mutation || CountHeavy(active) == limits.heavy
  }

  /** The victim alone in the queue, kept there by a full mutation or heavy pool. */
  ghost predicate Stuck(limits: Limits, history: seq<Event>, n: nat, victim: Task, active: seq<Task>) {
    && ValidLimits(limits) && Legal(limits, history) && Eager(limits, history) && NumberedIds(history)
    && Replay(history) == State(n, [victim], active)
    && victim.sequence < n && UsesBothPools(victim) && !victim.IsExclusive() && victim.claims == []
    && PoolFull(limits, active)
    && forall i :: 0 <= i < |active| ==> !active[i].IsExclusive() && active[i].claims == []
  }

  /** The victim has no capacity; alone in the queue it keeps the scheduler at rest. */
  lemma VictimWaits(limits: Limits, n: nat, victim: Task, active: seq<Task>)
    requires UsesBothPools(victim) && !victim.IsExclusive() && PoolFull(limits, active)
    ensures !HasCapacity(limits, active, victim) && Quiescent(limits, State(n, [victim], active))
  {
  }

  lemma Extend(limits: Limits, history: seq<Event>, event: Event)
    requires Legal(limits, history) && Eager(limits, history) && NumberedIds(history)
    requires Enabled(limits, Replay(history), event)
    requires event.Submitted? || event.Released? ==> Quiescent(limits, Replay(history))
    requires event.Submitted? ==> event.task.id == NumberText.Print(event.task.sequence, NumberText.Decimal)
    ensures var longer := history + [event];
            && Legal(limits, longer) && Eager(limits, longer) && NumberedIds(longer)
            && Replay(longer) == Apply(Replay(history), event)
  {
    ExtendLegal(limits, history, event);
    ExtendEager(limits, history, event);
  }

  /** A younger task that fits joins the queue behind the victim and starts ahead of it. */
  lemma PassesVictim(limits: Limits, n: nat, victim: Task, active: seq<Task>, task: Task)
    requires victim.sequence < n == task.sequence && task.claims == [] && !task.IsExclusive() && !victim.IsExclusive()
    requires HasCapacity(limits, active, task) && !HasCapacity(limits, active, victim)
    ensures var s := State(n + 1, [victim, task], active);
            IsNext(limits, s, 1) && Apply(s, Started(task)) == State(n + 1, [victim], active + [task])
  {
    var queue := [victim, task];
    assert queue[1..] == [task] && [task][1..] == [];
    assert Without(queue, task) == [victim] + Without([task], task) == [victim];
    var s := State(n + 1, queue, active);
    assert !Runnable(limits, s, 0);
    assert Runnable(limits, s, 1);
  }

  /** A task of this kind overtakes the victim. */
  lemma Overtake(limits: Limits, history: seq<Event>, n: nat, victim: Task, active: seq<Task>, resources: Resources)
    returns (longer: seq<Event>)
    requires Stuck(limits, history, n, victim, active) && !resources.exclusive
    requires HasCapacity(limits, active, Numbered(n, resources))
    ensures history <= longer && Stuck(limits, longer, n + 1, victim, active + [Numbered(n, resources)])
  {
    var task := Numbered(n, resources);
    VictimWaits(limits, n, victim, active);
    StillFull(limits, active, task);
    hide Legal, Eager, HasCapacity, IsNext, Quiescent, CountHeavy, CountMutation, PoolFull;
    Extend(limits, history, Submitted(task));
    assert [victim] + [task] == [victim, task];
    var mid := history + [Submitted(task)];
    PassesVictim(limits, n, victim, active, task);
    assert Replay(mid).queue[1] == task;
    Extend(limits, mid, Started(task));
    longer := mid + [Started(task)];
  }

  lemma StillFull(limits: Limits, active: seq<Task>, task: Task)
    requires PoolFull(limits, active) && HasCapacity(limits, active, task)
    ensures PoolFull(limits, active + [task])
  {
    Counts(task, active);
  }

  /** The first active task releases, while the others keep a pool full. */
  lemma Leave(limits: Limits, history: seq<Event>, n: nat, victim: Task, first: Task, rest: seq<Task>)
    requires Stuck(limits, history, n, victim, [first] + rest) && PoolFull(limits, rest)
    ensures Stuck(limits, history + [Released(first)], n, victim, rest)
  {
    VictimWaits(limits, n, victim, [first] + rest);
    FirstReleased(n, victim, first, rest);
    hide Legal, Eager, HasCapacity, Quiescent, CountHeavy, CountMutation, PoolFull, NumberedIds, Apply;
    Extend(limits, history, Released(first));
    forall i | 0 <= i < |rest|
      ensures !rest[i].IsExclusive() && rest[i].claims == []
    {
      assert rest[i] == ([first] + rest)[i + 1];
    }
  }

  lemma FirstReleased(n: nat, victim: Task, first: Task, rest: seq<Task>)
    ensures var s := State(n, [victim], [first] + rest);
            first in s.active && Apply(s, Released(first)) == State(n, [victim], rest)
  {
    assert ([first] + rest)[0] == first && ([first] + rest)[1..] == rest;
  }

  /** A batch of one kind overtakes the victim, one task after the other. */
  lemma {:induction false} BatchJoins(limits: Limits, history: seq<Event>, n: nat, victim: Task, active: seq<Task>,
                                      resources: Resources, count: nat)
    returns (longer: seq<Event>)
    requires Stuck(limits, history, n, victim, active) && !resources.exclusive
    requires |active| + count <= limits.total
    requires resources.workload.Heavy? ==> CountHeavy(active) + count <= limits.heavy
    requires resources.impact.Mutation? ==> CountMutation(active) + count <= limits.mutation
    ensures history <= longer && Stuck(limits, longer, n + count, victim, active + Batch(n, resources, count))
    decreases count
  {
    assert forall i :: 0 <= i < |active| ==> !active[i].IsExclusive();
    hide Stuck, CountHeavy, CountMutation, HasCapacity, Batch;
    BatchJoined(active, n, resources, count);
    if count == 0 {
      longer := history;
    } else {
      longer := BatchJoins(limits, history, n, victim, active, resources, count - 1);
      NextFits(limits, active, n, resources, count);
      longer := Overtake(limits, longer, n + count - 1, victim, active + Batch(n, resources, count - 1), resources);
    }
  }

  lemma BatchJoined(active: seq<Task>, n: nat, resources: Resources, count: nat)
    ensures count == 0 ==> active + Batch(n, resources, count) == active
    ensures count > 0 ==> active + Batch(n, resources, count - 1) + [Numbered(n + count - 1, resources)]
                          == active + Batch(n, resources, count)
  {
  }

  lemma NextFits(limits: Limits, active: seq<Task>, n: nat, resources: Resources, count: nat)
    requires count > 0 && !resources.exclusive && |active| + count <= limits.total
    requires resources.workload.Heavy? ==> CountHeavy(active) + count <= limits.heavy
    requires resources.impact.Mutation? ==> CountMutation(active) + count <= limits.mutation
    requires forall i :: 0 <= i < |active| ==> !active[i].IsExclusive()
    ensures HasCapacity(limits, active + Batch(n, resources, count - 1), Numbered(n + count - 1, resources))
  {
    var joined := Batch(n, resources, count - 1);
    BatchAt(n, resources, count - 1);
    BatchCounts(n, resources, count - 1);
    hide CountHeavy, CountMutation, Batch;
    CountsAppend(active, joined);
    forall i | 0 <= i < |active + joined|
      ensures !(active + joined)[i].IsExclusive()
    {
      assert (active + joined)[i] == if i < |active| then active[i] else joined[i - |active|];
    }
  }

  /** A batch releases, one task after the other, while the others keep a pool full. */
  lemma {:induction false} BatchLeaves(limits: Limits, history: seq<Event>, n: nat, victim: Task, leaving: seq<Task>,
                                       rest: seq<Task>)
    returns (longer: seq<Event>)
    requires Stuck(limits, history, n, victim, leaving + rest) && PoolFull(limits, rest)
    ensures history <= longer && Stuck(limits, longer, n, victim, rest)
    decreases |leaving|
  {
    if leaving == [] {
      longer := history;
      assert [] + rest == rest;
    } else {
      var first, others := leaving[0], leaving[1..] + rest;
      assert leaving + rest == [first] + others;
      EveryRunIsSafe(limits, history);
      FullWithMore(limits, first, leaving[1..], rest);
      Leave(limits, history, n, victim, first, others);
      longer := BatchLeaves(limits, history + [Released(first)], n, victim, leaving[1..], rest);
    }
  }

  lemma FullWithMore(limits: Limits, first: Task, more: seq<Task>, rest: seq<Task>)
    requires PoolFull(limits, rest) && WithinLimits(limits, [first] + (more + rest))
    ensures PoolFull(limits, more + rest)
  {
    CountsAppend([first], more + rest);
    CountsAppend(more, rest);
  }

  /** One batch fills its pool beside the other, which then leaves. */
  lemma TakeOver(limits: Limits, history: seq<Event>, n: nat, victim: Task, holders: seq<Task>, resources: Resources,
                 count: nat)
    returns (longer: seq<Event>)
    requires Stuck(limits, history, n, victim, holders) && !resources.exclusive
    requires |holders| + count <= limits.total
    requires resources.workload.Heavy? ==> CountHeavy(holders) + count <= limits.heavy
    requires resources.impact.Mutation? ==> CountMutation(holders) + count <= limits.mutation
    requires PoolFull(limits, Batch(n, resources, count))
    ensures history <= longer && Stuck(limits, longer, n + count, victim, Batch(n, resources, count))
  {
    hide Stuck, PoolFull, Batch, CountHeavy, CountMutation;
    longer := BatchJoins(limits, history, n, victim, holders, resources, count);
    longer := BatchLeaves(limits, longer, n + count, victim, holders, Batch(n, resources, count));
  }

  /** Readers fill the heavy pool, the writers leave, new writers fill the mutation pool, the readers leave. */
  lemma Round(limits: Limits, history: seq<Event>, n: nat, victim: Task, u: nat) returns (longer: seq<Event>, w: nat)
    requires ValidLimits(limits) && !PoolsOverlap(limits)
    requires Stuck(limits, history, n, victim, Batch(u, Writer, limits.mutation)) && u + limits.mutation <= n
    ensures history <= longer && n <= w
    ensures Stuck(limits, longer, w + limits.mutation, victim, Batch(w, Writer, limits.mutation))
  {
    w := n + limits.heavy;
    BatchCounts(u, Writer, limits.mutation);
    BatchCounts(n, Reader, limits.heavy);
    BatchCounts(w, Writer, limits.mutation);
    hide Stuck, Batch, CountHeavy, CountMutation;
    longer := TakeOver(limits, history, n, victim, Batch(u, Writer, limits.mutation), Reader, limits.heavy);
    longer := TakeOver(limits, longer, w, victim, Batch(n, Reader, limits.heavy), Writer, limits.mutation);
  }

  // ---------------------------------------------------------------------------------------------
  // Starting the run

  /** Tasks that fit start at once while the queue is empty. */
  lemma {:induction false} BatchStarts(limits: Limits, count: nat) returns (history: seq<Event>)
    requires ValidLimits(limits) && count <= limits.mutation
    ensures Legal(limits, history) && Eager(limits, history) && NumberedIds(history)
    ensures Replay(history) == State(count, [], Batch(0, Writer, count))
    decreases count
  {
    if count == 0 {
      history := [];
    } else {
      var before := BatchStarts(limits, count - 1);
      var active, task := Batch(0, Writer, count - 1), Numbered(count - 1, Writer);
      BatchAt(0, Writer, count - 1);
      NothingCounted();
      NextFits(limits, [], 0, Writer, count);
      assert [] + active == active;
      history := StartsNow(limits, before, count - 1, active, task);
    }
  }

  lemma StartsNow(limits: Limits, before: seq<Event>, n: nat, active: seq<Task>, task: Task)
    returns (history: seq<Event>)
    requires Legal(limits, before) && Eager(limits, before) && NumberedIds(before)
    requires Replay(before) == State(n, [], active) && HasCapacity(limits, active, task)
    requires !task.IsExclusive() && task.claims == [] && task.sequence == n
    requires task.id == NumberText.Print(n, NumberText.Decimal)
    ensures Legal(limits, history) && Eager(limits, history) && NumberedIds(history)
    ensures Replay(history) == State(n + 1, [], active + [task])
  {
    StartsAlone(limits, n, active, task);
    hide Legal, Eager, HasCapacity, IsNext, NumberedIds, Runnable;
    Extend(limits, before, Submitted(task));
    var mid := before + [Submitted(task)];
    assert [] + [task] == [task];
    assert Replay(mid).queue[0] == task;
    Extend(limits, mid, Started(task));
    history := mid + [Started(task)];
  }

  lemma StartsAlone(limits: Limits, n: nat, active: seq<Task>, task: Task)
    requires HasCapacity(limits, active, task) && !task.IsExclusive() && task.claims == []
    ensures var s := State(n + 1, [task], active);
            IsNext(limits, s, 0) && Apply(s, Started(task)) == State(n + 1, [], active + [task])
  {
    assert [task][1..] == [];
  }

  lemma NothingCounted()
    ensures CountHeavy([]) == 0 && CountMutation([]) == 0
  {
  }

  function Victim(limits: Limits, resources: Resources): (task: Task)
    requires ValidLimits(limits)
  {
    Numbered(limits.mutation, resources)
  }

  lemma VictimArrives(limits: Limits, resources: Resources) returns (history: seq<Event>)
    requires ValidLimits(limits) && resources == Resources(Mutation, Heavy, false)
    ensures Stuck(limits, history, limits.mutation + 1, Victim(limits, resources), Batch(0, Writer, limits.mutation))
  {
    var before := BatchStarts(limits, limits.mutation);
    BatchAt(0, Writer, limits.mutation);
    BatchCounts(0, Writer, limits.mutation);
    hide CountHeavy, CountMutation, Batch;
    var victim := Victim(limits, resources);
    Extend(limits, before, Submitted(victim));
    history := before + [Submitted(victim)];
    assert [] + [victim] == [victim];
  }

  // ---------------------------------------------------------------------------------------------
  // Any number of rounds

  lemma StuckRests(limits: Limits, history: seq<Event>, n: nat, victim: Task, active: seq<Task>)
    requires Stuck(limits, history, n, victim, active)
    ensures ClearHead(StateAt(history, |history|), victim) && Quiescent(limits, StateAt(history, |history|))
    ensures StateAt(history, |history|) == State(n, [victim], active)
  {
    VictimWaits(limits, n, victim, active);
    assert history[..|history|] == history;
  }

  /** Marks of a run are marks of every longer run. */
  lemma MarksKept(limits: Limits, history: seq<Event>, longer: seq<Event>, marks: seq<nat>, head: Task)
    requires history <= longer && RestsAt(limits, history, marks, head)
    requires forall i :: 0 < i < |marks| ==> marks[i - 1] <= marks[i] && TurnedOver(history, marks[i - 1], marks[i])
    ensures RestsAt(limits, longer, marks, head)
    ensures forall i :: 0 < i < |marks| ==> TurnedOver(longer, marks[i - 1], marks[i])
  {
    forall i | 0 <= i < |marks|
      ensures marks[i] <= |longer| && StateAt(longer, marks[i]) == StateAt(history, marks[i])
    {
      assert longer[..marks[i]] == history[..marks[i]];
    }
  }

  /** Runs of any number of rounds, with a mark after each. */
  ghost predicate Marked(limits: Limits, history: seq<Event>, marks: seq<nat>, victim: Task) {
    && marks != [] && marks[|marks| - 1] == |history| && RestsAt(limits, history, marks, victim)
    && forall i :: 0 < i < |marks| ==> marks[i - 1] <= marks[i] && TurnedOver(history, marks[i - 1], marks[i])
  }

  lemma {:induction false} Rounds(limits: Limits, resources: Resources, rounds: nat)
    returns (history: seq<Event>, marks: seq<nat>, w: nat)
    requires ValidLimits(limits) && !PoolsOverlap(limits) && resources == Resources(Mutation, Heavy, false)
    ensures |marks| == rounds + 1 && Marked(limits, history, marks, Victim(limits, resources))
    ensures Stuck(limits, history, if rounds == 0 then limits.mutation + 1 else w + limits.mutation,
                  Victim(limits, resources), Batch(w, Writer, limits.mutation))
    ensures rounds == 0 ==> w == 0
  {
    var victim := Victim(limits, resources);
    if rounds == 0 {
      history := VictimArrives(limits, resources);
      w := 0;
      marks := [|history|];
      StuckRests(limits, history, limits.mutation + 1, victim, Batch(0, Writer, limits.mutation));
    } else {
      var before, earlier, u := Rounds(limits, resources, rounds - 1);
      var n := if rounds == 1 then limits.mutation + 1 else u + limits.mutation;
      history, w := Round(limits, before, n, victim, u);
      marks := earlier + [|history|];
      RoundTurnsOver(limits, before, n, u, history, w, victim);
      StuckRests(limits, history, w + limits.mutation, victim, Batch(w, Writer, limits.mutation));
      MarksKept(limits, before, history, earlier, victim);
      OneMoreMark(limits, history, earlier, victim);
    }
  }

  lemma OneMoreMark(limits: Limits, history: seq<Event>, earlier: seq<nat>, victim: Task)
    requires earlier != [] && RestsAt(limits, history, earlier, victim)
    requires forall i :: 0 < i < |earlier| ==>
               earlier[i - 1] <= earlier[i] && TurnedOver(history, earlier[i - 1], earlier[i])
    requires ClearHead(StateAt(history, |history|), victim) && Quiescent(limits, StateAt(history, |history|))
    requires TurnedOver(history, earlier[|earlier| - 1], |history|)
    ensures Marked(limits, history, earlier + [|history|], victim)
  {
    hide Quiescent, TurnedOver, TasksConflict;
  }

  lemma BatchesApart(u: nat, w: nat, count: nat)
    requires u + count <= w
    ensures forall t :: t in Batch(u, Writer, count) ==> t !in Batch(w, Writer, count)
  {
    BatchAt(u, Writer, count);
    BatchAt(w, Writer, count);
  }

  lemma RoundTurnsOver(limits: Limits, before: seq<Event>, n: nat, u: nat, history: seq<Event>, w: nat, victim: Task)
    requires ValidLimits(limits) && before <= history && u + limits.mutation <= n <= w
    requires Stuck(limits, before, n, victim, Batch(u, Writer, limits.mutation))
    requires Stuck(limits, history, w + limits.mutation, victim, Batch(w, Writer, limits.mutation))
    ensures TurnedOver(history, |before|, |history|)
  {
    StuckRests(limits, before, n, victim, Batch(u, Writer, limits.mutation));
    StuckRests(limits, history, w + limits.mutation, victim, Batch(w, Writer, limits.mutation));
    hide Stuck, CountHeavy, CountMutation, Batch;
    BatchCounts(u, Writer, limits.mutation);
    BatchCounts(w, Writer, limits.mutation);
    assert history[..|before|] == before == before[..|before|];
    BatchesApart(u, w, limits.mutation);
  }

  /**
   * When the heavy and the mutation pool fit side by side, a task that uses both can be kept waiting
   * through any number of turnovers: readers fill the heavy pool while writers come and go, and the
   * other way round.
   */
  lemma BothPoolsCanStarve(limits: Limits)
    requires ValidLimits(limits) && limits.heavy + limits.mutation <= limits.total
    ensures CanStarve(limits, Resources(Mutation, Heavy, false))
  {
    var resources := Resources(Mutation, Heavy, false);
    forall n: nat
      ensures CanOutwait(limits, resources, n)
    {
      var history, marks, w := Rounds(limits, resources, n);
      NumberedIdsAreDistinct(limits, history);
      assert Outwaits(limits, history, marks, Victim(limits, resources));
    }
  }

  /** In every other case no two turnovers are outwaited. */
  lemma OthersCannotStarve(limits: Limits, resources: Resources)
    requires ValidLimits(limits)
    requires resources.workload.Heavy? && resources.impact.Mutation? && !resources.exclusive ==>
               limits.heavy + limits.mutation > limits.total
    ensures !CanOutwait(limits, resources, 2)
  {
    forall history: seq<Event>, marks: seq<nat>, head: Task | |marks| == 3 && head.resources == resources
      ensures !Outwaits(limits, history, marks, head)
    {
      if Outwaits(limits, history, marks, head) {
        CannotRestThrice(limits, history, marks, head);
      }
    }
  }

  lemma CannotRestThrice(limits: Limits, history: seq<Event>, marks: seq<nat>, head: Task)
    requires ValidLimits(limits) && Outwaits(limits, history, marks, head) && CannotStarve(limits, head)
    ensures |marks| <= 2
  {
    hide TurnedOver, Quiescent, Legal, Eager, DistinctIds, CannotStarve;
    if |marks| > 2 {
      assert TurnedOver(history, marks[1 - 1], marks[1]) && TurnedOver(history, marks[2 - 1], marks[2]);
      TwoTurnoversStartHead(limits, history, marks[0], marks[1], marks[2], head);
    }
  }

  /**
   * The exact condition: a task at the head of the queue can be overtaken for ever if and only if it
   * may share the session, is both heavy and a mutation, and the two pools fit side by side.
   */
  lemma StarvesExactlyWhen(limits: Limits, resources: Resources)
    requires ValidLimits(limits)
    ensures CanStarve(limits, resources) <==>
              && resources.workload.Heavy? && resources.impact.Mutation? && !resources.exclusive
              && limits.heavy + limits.mutation <= limits.total
  {
    if resources == Resources(Mutation, Heavy, false) && limits.heavy + limits.mutation <= limits.total {
      BothPoolsCanStarve(limits);
    } else {
      OthersCannotStarve(limits, resources);
    }
  }

  /** Some kind of task can starve if and only if the two pools fit side by side. */
  lemma SomeKindStarvesIff(limits: Limits)
    requires ValidLimits(limits)
    ensures (exists resources :: CanStarve(limits, resources)) <==> limits.heavy + limits.mutation <= limits.total
  {
    if limits.heavy + limits.mutation <= limits.total {
      BothPoolsCanStarve(limits);
    } else {
      forall resources
        ensures !CanStarve(limits, resources)
      {
        OthersCannotStarve(limits, resources);
      }
    }
  }

  /** Under the default limits of three, two and one a heavy mutation can starve. */
  lemma DefaultLimitsStarve()
    ensures CanStarve(Limits(3, 2, 1), Resources(Mutation, Heavy, false))
  {
    BothPoolsCanStarve(Limits(3, 2, 1));
  }
}
