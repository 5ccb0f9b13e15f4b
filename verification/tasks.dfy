/** The startup task scheduler (`tasks/TasksRunner`, `tasks/TasksAggregator`,
    `api/BrixStartupTask`). The tasks are partitioned by their order, the
    groups are chained in ascending order, and only the lowest group is run
    directly; a group whose tasks have all completed completes itself and
    runs the next group, and the completion handler waits for every group.

    The waits of the external aggregation library are modelled as pending
    sets: a group's wait fires when the last of its tasks completes, and the
    wait over all groups fires when the last group completes. */
module Tasks {
  import opened Base

  /** A `BrixStartupTask`, known by its identity, with its `order()`. */
  datatype StartupTask = StartupTask(id: nat, order: int)

  /** What `order()` answers when a task does not override it. */
  const DefaultOrder: int := 0

  /** One group of tasks sharing an order, as `groupingBy` collects them. */
  datatype Group = Group(order: int, members: seq<StartupTask>)

  predicate Increasing(s: seq<int>) {
    forall i, j :: 0 <= i < j < |s| ==> s[i] < s[j]
  }

  /** Adds an order to an ascending list of distinct orders. */
  function Insert(x: int, s: seq<int>): (r: seq<int>)
    requires Increasing(s)
    ensures Increasing(r)
    ensures forall y :: y in r <==> y == x || y in s
  {
    if s == [] then [x]
    else if x < s[0] then
      LeastFirst(s);
      ConsIncreasing(x, s);
      [x] + s
    else if x == s[0] then s
    else
      var rest := Insert(x, s[1..]);
      assert forall y :: y in rest ==> s[0] < y by {
        LeastFirst(s);
      }
      ConsIncreasing(s[0], rest);
      [s[0]] + rest
  }

  /** In an ascending list, everything after the head is above it. */
  lemma LeastFirst(s: seq<int>)
    requires Increasing(s) && s != []
    ensures forall y :: y in s[1..] ==> s[0] < y
    ensures forall y :: y in s ==> s[0] <= y
  {
    forall y | y in s[1..]
      ensures s[0] < y
    {
      var i :| 0 <= i < |s[1..]| && s[1..][i] == y;
      assert s[i + 1] == y;
    }
  }

  lemma ConsIncreasing(a: int, r: seq<int>)
    requires Increasing(r) && forall y :: y in r ==> a < y
    ensures Increasing([a] + r)
  {
    var ar := [a] + r;
    forall i, j | 0 <= i < j < |ar|
      ensures ar[i] < ar[j]
    {
      assert ar[j] == r[j - 1] && r[j - 1] in r;
      if i > 0 {
        assert ar[i] == r[i - 1];
      }
    }
  }

  /** The distinct orders of the tasks, ascending: the keys of the grouping
      as the `TreeSet` of aggregators holds them. */
  function SortedOrders(tasks: seq<StartupTask>): (os: seq<int>)
    ensures Increasing(os)
    ensures forall t :: t in tasks ==> t.order in os
    ensures forall o :: o in os ==> exists t :: t in tasks && t.order == o
  {
    if tasks == [] then []
    else
      var rest := SortedOrders(tasks[1..]);
      assert forall o :: o in rest ==> exists t :: t in tasks && t.order == o by {
        forall o | o in rest
          ensures exists t :: t in tasks && t.order == o
        {
          var t :| t in tasks[1..] && t.order == o;
          assert t in tasks;
        }
      }
      Insert(tasks[0].order, rest)
  }

  /** The tasks of one order, in iteration order. */
  function Filter(tasks: seq<StartupTask>, o: int): (g: seq<StartupTask>)
    ensures forall t :: t in g <==> t in tasks && t.order == o
    ensures Distinct(tasks) ==> Distinct(g)
  {
    if tasks == [] then []
    else if tasks[0].order == o then
      var rest := Filter(tasks[1..], o);
      assert Distinct(tasks) ==> tasks[0] !in tasks[1..];
      [tasks[0]] + rest
    else Filter(tasks[1..], o)
  }

  /** `groupingBy(order)` followed by the sort into a `TreeSet`. */
  function Groups(tasks: seq<StartupTask>): (gs: seq<Group>)
    ensures |gs| == |SortedOrders(tasks)|
    ensures forall k :: 0 <= k < |gs| ==>
              gs[k] == Group(SortedOrders(tasks)[k], Filter(tasks, SortedOrders(tasks)[k]))
  {
    var os := SortedOrders(tasks);
    seq(|os|, k requires 0 <= k < |os| => Group(os[k], Filter(tasks, os[k])))
  }

  /** Groups in ascending order of distinct orders, none empty, every task
      carrying its group's order. */
  predicate WellFormed(groups: seq<Group>) {
    (forall i, j :: 0 <= i < j < |groups| ==> groups[i].order < groups[j].order) &&
    (forall k :: 0 <= k < |groups| ==> groups[k].members != [] && Distinct(groups[k].members)) &&
    (forall k, u :: 0 <= k < |groups| && u in groups[k].members ==> u.order == groups[k].order)
  }

  /** The position of the first group of order `o`, or `|groups|`. */
  function GroupIndex(groups: seq<Group>, o: int): (k: nat)
    ensures k <= |groups|
    ensures k < |groups| ==> groups[k].order == o
    ensures forall j :: 0 <= j < k ==> groups[j].order != o
  {
    if groups == [] then 0
    else if groups[0].order == o then 0
    else 1 + GroupIndex(groups[1..], o)
  }

  /** `u` belongs to the group of its order. */
  predicate InGroups(groups: seq<Group>, u: StartupTask) {
    GroupIndex(groups, u.order) < |groups| && u in groups[GroupIndex(groups, u.order)].members
  }

  /** The grouping is a partition of the task set: exactly one group per
      distinct order, in ascending order, each holding exactly the tasks of
      its order and nothing else. */
  lemma GroupsPartition(tasks: seq<StartupTask>)
    requires Distinct(tasks)
    ensures WellFormed(Groups(tasks))
    ensures forall t :: t in tasks <==> InGroups(Groups(tasks), t)
    ensures forall t, k :: 0 <= k < |Groups(tasks)| ==>
              (t in Groups(tasks)[k].members <==> t in tasks && t.order == Groups(tasks)[k].order)
    ensures forall t :: t in tasks ==> exists k :: 0 <= k < |Groups(tasks)| && Groups(tasks)[k].order == t.order
    ensures tasks == [] <==> Groups(tasks) == []
  {
    GroupsWellFormed(tasks);
    var gs := Groups(tasks);
    var os := SortedOrders(tasks);
    forall t | t in tasks
      ensures InGroups(gs, t)
    {
      var k :| 0 <= k < |os| && os[k] == t.order;
      assert GroupIndex(gs, t.order) == k;
    }
    forall t | t in tasks
      ensures exists k :: 0 <= k < |gs| && gs[k].order == t.order
    {
      var k :| 0 <= k < |os| && os[k] == t.order;
      assert gs[k].order == t.order;
    }
    if tasks != [] {
      assert tasks[0].order in os;
    }
  }

  /** Each group holds exactly the tasks of its order, none is empty, and
      the groups are well formed. */
  lemma GroupsWellFormed(tasks: seq<StartupTask>)
    requires Distinct(tasks)
    ensures WellFormed(Groups(tasks))
    ensures forall t, k :: 0 <= k < |Groups(tasks)| ==>
              (t in Groups(tasks)[k].members <==> t in tasks && t.order == Groups(tasks)[k].order)
  {
    var gs := Groups(tasks);
    var os := SortedOrders(tasks);
    forall k | 0 <= k < |gs|
      ensures gs[k].members != []
    {
      assert os[k] in os;
      var t :| t in tasks && t.order == os[k];
      assert t in gs[k].members;
    }
  }

  /** `Integer.compareTo` on the orders of two aggregators. */
  function CompareOrders(a: int, b: int): (c: int)
    ensures c == -1 || c == 0 || c == 1
    ensures c < 0 <==> a < b
    ensures c == 0 <==> a == b
  {
    if a < b then -1 else if a == b then 0 else 1
  }

  /** The `TreeSet` keeps one aggregator per group: no two groups compare
      equal, and the groups appear in `compareTo` order, which is also
      antisymmetric. */
  lemma GroupsSortedByCompareTo(tasks: seq<StartupTask>)
    requires Distinct(tasks)
    ensures forall i, j :: 0 <= i < j < |Groups(tasks)| ==>
              CompareOrders(Groups(tasks)[i].order, Groups(tasks)[j].order) < 0 &&
              CompareOrders(Groups(tasks)[j].order, Groups(tasks)[i].order) > 0
  {
    GroupsPartition(tasks);
  }

  /** What happens during a run, in order. */
  datatype Step =
    | Ran(task: StartupTask)          // `run()` was called on the task
    | Completed(task: StartupTask)    // the task called `complete()`
    | GroupCompleted(order: int)      // the group's own wait completed
    | HandlerRan                      // `completeHandler.run()`

  function RanSteps(ms: seq<StartupTask>): (r: seq<Step>)
    ensures |r| == |ms|
    ensures forall i :: 0 <= i < |ms| ==> r[i] == Ran(ms[i])
  {
    if ms == [] then [] else [Ran(ms[0])] + RanSteps(ms[1..])
  }

  /** The waits of the group's tasks that have not completed. */
  function Pending(g: Group, done: set<StartupTask>): set<StartupTask> {
    set u | u in g.members && u !in done
  }

  /** Every task of the group has completed. */
  predicate GroupDone(g: Group, done: set<StartupTask>) {
    forall u :: u in g.members ==> u in done
  }

  /** Every group of an order below `o` has completed. */
  predicate Released(groups: seq<Group>, done: set<StartupTask>, o: int) {
    forall k :: 0 <= k < |groups| && groups[k].order < o ==> GroupDone(groups[k], done)
  }

  predicate AllDone(groups: seq<Group>, done: set<StartupTask>) {
    forall k :: 0 <= k < |groups| ==> GroupDone(groups[k], done)
  }

  /** `runTasks`: only the lowest group runs; with no task at all the
      handler runs at once. */
  function InitialSteps(groups: seq<Group>): (r: seq<Step>)
    ensures groups == [] ==> r == [HandlerRan]
    ensures groups != [] ==> r == RanSteps(groups[0].members)
  {
    if groups == [] then [HandlerRan] else RanSteps(groups[0].members)
  }

  /** What one `complete()` of task `t` sets off, given the tasks `done`
      before it: its wait completes; if that was the group's last wait, the
      group completes, and then either the handler runs (last group) or the
      next group is executed. */
  function CompletionSteps(groups: seq<Group>, done: set<StartupTask>, t: StartupTask): seq<Step> {
    var k := GroupIndex(groups, t.order);
    if k < |groups| then GroupSteps(groups, done, t, k) else [Completed(t)]
  }

  /** The same, for the task's group `k`. */
  function GroupSteps(groups: seq<Group>, done: set<StartupTask>, t: StartupTask, k: int): seq<Step>
    requires 0 <= k < |groups|
  {
    [Completed(t)] +
    if GroupDone(groups[k], done + {t}) then
      [GroupCompleted(groups[k].order)] +
      (if k + 1 < |groups| then RanSteps(groups[k + 1].members) else [HandlerRan])
    else []
  }


  /** No task runs before every task of every lower order has completed. */
  ghost predicate RunsInOrder(groups: seq<Group>, log: seq<Step>) {
    forall j, u :: 0 <= j < |log| && log[j].Ran? && InGroups(groups, u) && u.order < log[j].task.order ==>
      Completed(u) in log[..j]
  }

  /** The state of a run after the tasks in `done` have completed, and the
      steps taken so far: a task has run exactly when every lower group has
      completed; a group has completed exactly when all its tasks have; the
      handler has run exactly when every group has; nothing happened twice;
      and no task ran before the lower groups were finished. */
  ghost predicate RunOk(groups: seq<Group>, done: set<StartupTask>, log: seq<Step>) {
    WellFormed(groups) && Distinct(log) && DoneOk(groups, done) && CompletedOk(done, log) &&
    RunsOk(groups, done, log) && GroupsOk(groups, done, log) && HandlerOk(groups, done, log) &&
    RunsInOrder(groups, log)
  }

  /** Only a task that has run completes. */
  ghost predicate DoneOk(groups: seq<Group>, done: set<StartupTask>) {
    forall u :: u in done ==> InGroups(groups, u) && Released(groups, done, u.order)
  }

  ghost predicate CompletedOk(done: set<StartupTask>, log: seq<Step>) {
    forall u :: Completed(u) in log <==> u in done
  }

  /** A task has run exactly when every lower group has completed. */
  ghost predicate RunsOk(groups: seq<Group>, done: set<StartupTask>, log: seq<Step>) {
    forall u :: Ran(u) in log <==> InGroups(groups, u) && Released(groups, done, u.order)
  }

  /** A group has completed exactly when all its tasks have. */
  ghost predicate GroupsOk(groups: seq<Group>, done: set<StartupTask>, log: seq<Step>) {
    forall k :: 0 <= k < |groups| ==> (GroupCompleted(groups[k].order) in log <==> GroupDone(groups[k], done))
  }

  /** The handler has run exactly when every group has completed. */
  ghost predicate HandlerOk(groups: seq<Group>, done: set<StartupTask>, log: seq<Step>) {
    HandlerRan in log <==> AllDone(groups, done)
  }


  /** The position of a task's group. */
  lemma GroupOf(groups: seq<Group>, u: StartupTask, k: int)
    requires WellFormed(groups) && 0 <= k < |groups| && u in groups[k].members
    ensures GroupIndex(groups, u.order) == k && InGroups(groups, u)
  {
  }

  /** Right after `runTasks`, the run is in order, and it is exactly the
      lowest group that has run (or the handler, with no task). */
  lemma StartOk(tasks: seq<StartupTask>)
    requires Distinct(tasks)
    ensures RunOk(Groups(tasks), {}, InitialSteps(Groups(tasks)))
  {
    GroupsPartition(tasks);
    var gs := Groups(tasks);
    if gs != [] {
      FirstGroupRuns(gs);
      NothingCompletedAtStart(gs);
    }
  }

  /** At the start exactly the tasks of the lowest group have run, each once. */
  lemma FirstGroupRuns(gs: seq<Group>)
    requires WellFormed(gs) && gs != []
    ensures var log := RanSteps(gs[0].members);
            Distinct(log) && RunsInOrder(gs, log) &&
            forall u :: Ran(u) in log <==> InGroups(gs, u) && Released(gs, {}, u.order)
  {
    var ms := gs[0].members;
    var log := RanSteps(ms);
    forall i, j | 0 <= i < j < |log|
      ensures log[i] != log[j]
    {
      assert log[i] == Ran(ms[i]) && log[j] == Ran(ms[j]);
    }
    forall u
      ensures Ran(u) in log <==> InGroups(gs, u) && Released(gs, {}, u.order)
    {
      if Ran(u) in log {
        var i :| 0 <= i < |log| && log[i] == Ran(u);
        assert log[i] == Ran(ms[i]);
        GroupOf(gs, u, 0);
      }
      if InGroups(gs, u) && Released(gs, {}, u.order) {
        assert !GroupDone(gs[0], {}) by {
          assert gs[0].members[0] in gs[0].members;
        }
        var k := GroupIndex(gs, u.order);
        assert k == 0;
        var i :| 0 <= i < |ms| && ms[i] == u;
        assert log[i] == Ran(u);
      }
    }
    forall j, u | 0 <= j < |log| && InGroups(gs, u)
      ensures log[j].Ran? && log[j].task.order <= u.order
    {
      assert log[j] == Ran(ms[j]);
      assert ms[j].order == gs[0].order;
      var ku := GroupIndex(gs, u.order);
      assert ku == 0 || gs[0].order < gs[ku].order;
    }
  }

  /** At the start no task, no group and not the handler has completed. */
  lemma NothingCompletedAtStart(gs: seq<Group>)
    requires WellFormed(gs) && gs != []
    ensures var log := RanSteps(gs[0].members);
            (forall u :: Completed(u) !in log) &&
            (forall k :: 0 <= k < |gs| ==> GroupCompleted(gs[k].order) !in log && !GroupDone(gs[k], {})) &&
            HandlerRan !in log && !AllDone(gs, {})
  {
    var log := RanSteps(gs[0].members);
    forall s | s in log
      ensures s.Ran?
    {
      var i :| 0 <= i < |log| && log[i] == s;
    }
    forall k | 0 <= k < |gs|
      ensures !GroupDone(gs[k], {})
    {
      assert gs[k].members[0] in gs[k].members;
    }
    assert !GroupDone(gs[0], {});
  }


  /** Completing `t` changes whether a group is done only for `t`'s own group. */
  lemma OtherGroupsUnchanged(groups: seq<Group>, done: set<StartupTask>, t: StartupTask, k: int, j: int)
    requires WellFormed(groups) && 0 <= k < |groups| && 0 <= j < |groups| && j != k
    requires t in groups[k].members
    ensures t !in groups[j].members
    ensures GroupDone(groups[j], done + {t}) == GroupDone(groups[j], done)
    ensures Pending(groups[j], done + {t}) == Pending(groups[j], done)
  {
    assert groups[j].order != groups[k].order;
  }


  /** While a group is unfinished, no group above it has completed a single
      task. */
  lemma NothingDoneAbove(groups: seq<Group>, done: set<StartupTask>, k: int, j: int, u: StartupTask)
    requires WellFormed(groups)
    requires DoneOk(groups, done)
    requires 0 <= k < j < |groups| && !GroupDone(groups[k], done)
    requires u in groups[j].members
    ensures u !in done
  {
    assert groups[k].order < groups[j].order == u.order;
  }

  /** The tasks released by completing `t` are exactly those of the group
      right above `t`'s, and only when `t` finishes its group. */
  lemma ReleasedAfter(groups: seq<Group>, done: set<StartupTask>, t: StartupTask, k: int, u: StartupTask, ku: int)
    requires WellFormed(groups)
    requires DoneOk(groups, done)
    requires 0 <= k < |groups| && t in groups[k].members && t !in done && Released(groups, done, t.order)
    requires 0 <= ku < |groups| && u in groups[ku].members
    ensures Released(groups, done + {t}, u.order) <==>
            Released(groups, done, u.order) ||
            (GroupDone(groups[k], done + {t}) && ku == k + 1)
  {
    var d' := done + {t};
    assert !GroupDone(groups[k], done);
    forall j | 0 <= j < |groups| && j != k
      ensures GroupDone(groups[j], d') == GroupDone(groups[j], done)
    {
      OtherGroupsUnchanged(groups, done, t, k, j);
    }
    if ku <= k {
      // only groups below `t`'s own matter, and none of them changes
      assert Released(groups, d', u.order) == Released(groups, done, u.order);
    } else {
      assert groups[k].order < u.order;
      assert !Released(groups, done, u.order);
      if GroupDone(groups[k], d') && ku == k + 1 {
        forall j | 0 <= j < |groups| && groups[j].order < u.order
          ensures GroupDone(groups[j], d')
        {
          if j < k {
            assert groups[j].order < t.order;
          }
        }
      } else if ku > k + 1 {
        var w := groups[k + 1].members[0];
        NothingDoneAbove(groups, done, k, k + 1, w);
        assert !GroupDone(groups[k + 1], d');
        assert groups[k + 1].order < u.order;
      }
    }
  }


  /** When `t` finishes its group, every group has completed exactly when
      that group is the last one. */
  lemma AllDoneAfter(groups: seq<Group>, done: set<StartupTask>, t: StartupTask, k: int)
    requires WellFormed(groups)
    requires DoneOk(groups, done)
    requires 0 <= k < |groups| && t in groups[k].members && t !in done && Released(groups, done, t.order)
    ensures !AllDone(groups, done)
    ensures AllDone(groups, done + {t}) <==> GroupDone(groups[k], done + {t}) && k + 1 == |groups|
  {
    var d' := done + {t};
    assert !GroupDone(groups[k], done);
    forall j | 0 <= j < |groups| && j != k
      ensures GroupDone(groups[j], d') == GroupDone(groups[j], done)
    {
      OtherGroupsUnchanged(groups, done, t, k, j);
    }
    if GroupDone(groups[k], d') && k + 1 == |groups| {
      forall j | 0 <= j < |groups|
        ensures GroupDone(groups[j], d')
      {
        if j < k {
          assert groups[j].order < groups[k].order;
        }
      }
    }
    if k + 1 < |groups| {
      var w := groups[k + 1].members[0];
      NothingDoneAbove(groups, done, k, k + 1, w);
      assert !GroupDone(groups[k + 1], d');
    }
  }


  /** The situation in which a task `t` of group `k` may complete: it has
      run and has not completed yet. */
  ghost predicate MayComplete(groups: seq<Group>, done: set<StartupTask>, log: seq<Step>, t: StartupTask, k: int) {
    RunOk(groups, done, log) && 0 <= k < |groups| && t in groups[k].members && Ran(t) in log && t !in done
  }

  /** A list of runs holds runs only, one for each task of the list. */
  lemma RanStepsOnlyRuns(ms: seq<StartupTask>)
    ensures forall s :: s in RanSteps(ms) ==> s.Ran? && s.task in ms
    ensures forall u :: u in ms ==> Ran(u) in RanSteps(ms)
  {
    forall s | s in RanSteps(ms)
      ensures s.Ran? && s.task in ms
    {
      var i :| 0 <= i < |ms| && RanSteps(ms)[i] == s;
    }
    forall u | u in ms
      ensures Ran(u) in RanSteps(ms)
    {
      var i :| 0 <= i < |ms| && ms[i] == u;
      assert RanSteps(ms)[i] == Ran(u);
    }
  }

  /** The steps set off by a completion: the task's own completion first,
      its group's completion exactly when it was the group's last task, the
      handler exactly when that group was the last one. */
  lemma GroupStepsMarks(groups: seq<Group>, done: set<StartupTask>, t: StartupTask, k: int)
    requires 0 <= k < |groups|
    ensures var fired := GroupDone(groups[k], done + {t});
            var tail := GroupSteps(groups, done, t, k);
            tail[0] == Completed(t) &&
            (forall u :: Completed(u) in tail <==> u == t) &&
            (forall o :: GroupCompleted(o) in tail <==> fired && o == groups[k].order) &&
            (HandlerRan in tail <==> fired && k + 1 == |groups|)
  {
    var fired := GroupDone(groups[k], done + {t});
    if fired && k + 1 < |groups| {
      RanStepsOnlyRuns(groups[k + 1].members);
      assert GroupSteps(groups, done, t, k) ==
        [Completed(t), GroupCompleted(groups[k].order)] + RanSteps(groups[k + 1].members);
    }
  }

  /** The runs among those steps are exactly the next group's tasks, and
      only when the completion finished its group. */
  lemma GroupStepsRuns(groups: seq<Group>, done: set<StartupTask>, t: StartupTask, k: int)
    requires 0 <= k < |groups|
    ensures forall u :: Ran(u) in GroupSteps(groups, done, t, k) <==>
              GroupDone(groups[k], done + {t}) && k + 1 < |groups| && u in groups[k + 1].members
  {
    var tail := GroupSteps(groups, done, t, k);
    var fired := GroupDone(groups[k], done + {t});
    if fired && k + 1 < |groups| {
      var ran := groups[k + 1].members;
      var head := [Completed(t), GroupCompleted(groups[k].order)];
      assert tail == head + RanSteps(ran);
      RanStepsOnlyRuns(ran);
      forall u
        ensures Ran(u) in tail <==> u in ran
      {
        if Ran(u) in tail {
          assert Ran(u) !in head;
        }
      }
    } else if fired {
      assert tail == [Completed(t), GroupCompleted(groups[k].order), HandlerRan];
    } else {
      assert tail == [Completed(t)];
    }
  }

  /** No step is set off twice by one completion. */
  lemma GroupStepsDistinct(groups: seq<Group>, done: set<StartupTask>, t: StartupTask, k: int)
    requires 0 <= k < |groups| && (k + 1 < |groups| ==> Distinct(groups[k + 1].members))
    ensures Distinct(GroupSteps(groups, done, t, k))
  {
    var tail := GroupSteps(groups, done, t, k);
    if GroupDone(groups[k], done + {t}) && k + 1 < |groups| {
      var ran := groups[k + 1].members;
      assert tail == [Completed(t), GroupCompleted(groups[k].order)] + RanSteps(ran);
      forall i, j | 0 <= i < j < |tail|
        ensures tail[i] != tail[j]
      {
        if j >= 2 {
          assert tail[j] == Ran(ran[j - 2]);
        }
        if i >= 2 {
          assert tail[i] == Ran(ran[i - 2]);
        }
      }
    }
  }

  /** None of the steps set off by a completion has happened before. */
  lemma GroupStepsFacts(groups: seq<Group>, done: set<StartupTask>, log: seq<Step>, t: StartupTask, k: int)
    requires MayComplete(groups, done, log, t, k)
    ensures forall s :: s in GroupSteps(groups, done, t, k) ==> s !in log
  {
    var tail := GroupSteps(groups, done, t, k);
    forall s | s in tail
      ensures s !in log
    {
      var i :| 0 <= i < |tail| && tail[i] == s;
      TailStepIsNew(groups, done, log, t, k, i);
    }
  }

  lemma TailStepIsNew(groups: seq<Group>, done: set<StartupTask>, log: seq<Step>, t: StartupTask, k: int, i: int)
    requires MayComplete(groups, done, log, t, k)
    requires 0 <= i < |GroupSteps(groups, done, t, k)|
    ensures GroupSteps(groups, done, t, k)[i] !in log
  {
    var tail := GroupSteps(groups, done, t, k);
    NotCompletedYet(groups, done, log, t, k);
    if tail[i].Ran? {
      TailRanAbove(groups, done, t, k, i);
      NextGroupNotRun(groups, done, log, t, k);
      assert tail[i].task in groups[k + 1].members;
    }
  }

  /** Before `t` completes, no task of the group above has run. */
  lemma NextGroupNotRun(groups: seq<Group>, done: set<StartupTask>, log: seq<Step>, t: StartupTask, k: int)
    requires MayComplete(groups, done, log, t, k)
    ensures forall u :: k + 1 < |groups| && u in groups[k + 1].members ==> Ran(u) !in log
  {
    assert !GroupDone(groups[k], done);
    forall u | k + 1 < |groups| && u in groups[k + 1].members
      ensures Ran(u) !in log
    {
      GroupOf(groups, u, k + 1);
      NothingDoneAbove(groups, done, k, k + 1, u);
      assert groups[k].order < u.order;
    }
  }

  /** Before `t` completes, neither `t`, nor its group, nor the run as a
      whole has completed. */
  lemma NotCompletedYet(groups: seq<Group>, done: set<StartupTask>, log: seq<Step>, t: StartupTask, k: int)
    requires MayComplete(groups, done, log, t, k)
    ensures Completed(t) !in log && GroupCompleted(groups[k].order) !in log && HandlerRan !in log
  {
    assert !GroupDone(groups[k], done);
  }


  /** Appending steps that are new and distinct keeps a log free of repeats. */
  lemma AppendDistinct(log: seq<Step>, tail: seq<Step>)
    requires Distinct(log) && Distinct(tail)
    requires forall s :: s in tail ==> s !in log
    ensures Distinct(log + tail)
  {
    var l' := log + tail;
    forall i, j | 0 <= i < j < |l'|
      ensures l'[i] != l'[j]
    {
      if i < |log| <= j {
        assert l'[j] == tail[j - |log|];
        assert l'[j] in tail;
      }
    }
  }

  /** After a completion, every completed task has still run. */
  lemma CompleteKeepsDone(groups: seq<Group>, done: set<StartupTask>, log: seq<Step>, t: StartupTask, k: int)
    requires MayComplete(groups, done, log, t, k)
    ensures DoneOk(groups, done + {t})
  {
    var d' := done + {t};
    GroupOf(groups, t, k);
    forall u | u in d'
      ensures InGroups(groups, u) && Released(groups, d', u.order)
    {
      var ku := GroupIndex(groups, u.order);
      ReleasedAfter(groups, done, t, k, u, ku);
    }
  }

  /** After a completion, the tasks that have run are still exactly those
      whose lower groups have all completed. */
  lemma CompleteKeepsRuns(groups: seq<Group>, done: set<StartupTask>, log: seq<Step>, t: StartupTask, k: int)
    requires MayComplete(groups, done, log, t, k)
    ensures RunsOk(groups, done + {t}, log + GroupSteps(groups, done, t, k))
  {
    var d' := done + {t};
    var tail := GroupSteps(groups, done, t, k);
    var log' := log + tail;
    GroupStepsRuns(groups, done, t, k);
    GroupOf(groups, t, k);
    forall u
      ensures Ran(u) in log' <==> InGroups(groups, u) && Released(groups, d', u.order)
    {
      if InGroups(groups, u) {
        var ku := GroupIndex(groups, u.order);
        ReleasedAfter(groups, done, t, k, u, ku);
      }
      if Ran(u) in tail {
        assert k + 1 < |groups| && u in groups[k + 1].members;
        GroupOf(groups, u, k + 1);
      }
    }
  }

  /** After a completion, the completed tasks, the completed groups and the
      handler still agree with the log. */
  lemma CompleteKeepsCompletions(groups: seq<Group>, done: set<StartupTask>, log: seq<Step>, t: StartupTask, k: int)
    requires MayComplete(groups, done, log, t, k)
    ensures CompletedOk(done + {t}, log + GroupSteps(groups, done, t, k))
    ensures GroupsOk(groups, done + {t}, log + GroupSteps(groups, done, t, k))
    ensures HandlerOk(groups, done + {t}, log + GroupSteps(groups, done, t, k))
  {
    var d' := done + {t};
    var log' := log + GroupSteps(groups, done, t, k);
    GroupStepsMarks(groups, done, t, k);
    AllDoneAfter(groups, done, t, k);
    forall j | 0 <= j < |groups|
      ensures GroupCompleted(groups[j].order) in log' <==> GroupDone(groups[j], d')
    {
      if j != k {
        OtherGroupsUnchanged(groups, done, t, k, j);
      }
    }
  }

  /** Steps appended to a log keep it in order when each new run comes
      after the completion of every task of a lower order. */
  lemma AppendInOrder(groups: seq<Group>, log: seq<Step>, tail: seq<Step>)
    requires RunsInOrder(groups, log)
    requires forall i, u :: 0 <= i < |tail| && tail[i].Ran? && InGroups(groups, u) && u.order < tail[i].task.order ==>
               Completed(u) in log + tail[..i]
    ensures RunsInOrder(groups, log + tail)
  {
    var log' := log + tail;
    forall j, u | 0 <= j < |log'| && log'[j].Ran? && InGroups(groups, u) && u.order < log'[j].task.order
      ensures Completed(u) in log'[..j]
    {
      if j < |log| {
        assert log'[..j] == log[..j];
      } else {
        assert log'[..j] == log + tail[..j - |log|];
        assert log'[j] == tail[j - |log|];
      }
    }
  }

  /** Once `t` finishes its group, every task of that group or a lower one
      has completed. */
  lemma LowerAllDone(groups: seq<Group>, done: set<StartupTask>, t: StartupTask, k: int, u: StartupTask)
    requires WellFormed(groups)
    requires 0 <= k < |groups| && t in groups[k].members && Released(groups, done, t.order)
    requires GroupDone(groups[k], done + {t})
    requires InGroups(groups, u) && u.order <= groups[k].order
    ensures u in done + {t}
  {
    var ku := GroupIndex(groups, u.order);
    if ku != k {
      assert groups[ku].order < t.order;
    }
  }

  /** After a completion, still no task has run before every task of a
      lower order completed. */
  lemma CompleteKeepsOrder(groups: seq<Group>, done: set<StartupTask>, log: seq<Step>, t: StartupTask, k: int)
    requires MayComplete(groups, done, log, t, k)
    ensures RunsInOrder(groups, log + GroupSteps(groups, done, t, k))
  {
    var tail := GroupSteps(groups, done, t, k);
    forall i, u | 0 <= i < |tail| && tail[i].Ran? && InGroups(groups, u) && u.order < tail[i].task.order
      ensures Completed(u) in log + tail[..i]
    {
      TailRunAfterLower(groups, done, log, t, k, i, u);
    }
    AppendInOrder(groups, log, tail);
  }

  /** A run among the steps set off by a completion is a run of a task of
      the group above, which comes after the completion itself. */
  lemma TailRanAbove(groups: seq<Group>, done: set<StartupTask>, t: StartupTask, k: int, i: int)
    requires 0 <= k < |groups| && 0 <= i < |GroupSteps(groups, done, t, k)|
    requires GroupSteps(groups, done, t, k)[i].Ran?
    ensures i >= 2 && k + 1 < |groups| && GroupDone(groups[k], done + {t})
    ensures GroupSteps(groups, done, t, k)[i].task == groups[k + 1].members[i - 2]
  {
  }

  /** Every task of a lower order than a run among those steps has completed
      by then. */
  lemma TailRunAfterLower(groups: seq<Group>, done: set<StartupTask>, log: seq<Step>, t: StartupTask,
                          k: int, i: int, u: StartupTask)
    requires MayComplete(groups, done, log, t, k)
    requires 0 <= i < |GroupSteps(groups, done, t, k)| && GroupSteps(groups, done, t, k)[i].Ran?
    requires InGroups(groups, u) && u.order < GroupSteps(groups, done, t, k)[i].task.order
    ensures Completed(u) in log + GroupSteps(groups, done, t, k)[..i]
  {
    var tail := GroupSteps(groups, done, t, k);
    TailRanAbove(groups, done, t, k, i);
    var v := tail[i].task;
    GroupOf(groups, v, k + 1);
    assert u.order <= groups[k].order by {
      var ku := GroupIndex(groups, u.order);
      assert ku <= k;
    }
    LowerAllDone(groups, done, t, k, u);
    assert tail[..i][0] == Completed(t);
    assert CompletedOk(done, log);
  }

  /** Completing a task that has run and not yet completed keeps the run in
      order: afterwards, too, no task has run before the lower groups were
      finished, a group has completed exactly when all its tasks have, the
      handler has run exactly when every group has, and nothing has
      happened twice. */
  lemma CompleteStep(groups: seq<Group>, done: set<StartupTask>, log: seq<Step>, t: StartupTask)
    requires RunOk(groups, done, log)
    requires Ran(t) in log && t !in done
    ensures RunOk(groups, done + {t}, log + CompletionSteps(groups, done, t))
  {
    var k := GroupIndex(groups, t.order);
    assert InGroups(groups, t);
    assert CompletionSteps(groups, done, t) == GroupSteps(groups, done, t, k);
    GroupStepsDistinct(groups, done, t, k);
    GroupStepsFacts(groups, done, log, t, k);
    AppendDistinct(log, GroupSteps(groups, done, t, k));
    CompleteKeepsDone(groups, done, log, t, k);
    CompleteKeepsRuns(groups, done, log, t, k);
    CompleteKeepsCompletions(groups, done, log, t, k);
    CompleteKeepsOrder(groups, done, log, t, k);
  }


  /** The handler has run exactly when every task has completed, and with
      no task at all it has run from the start. */
  lemma HandlerWaitsForAll(groups: seq<Group>, done: set<StartupTask>, log: seq<Step>)
    requires RunOk(groups, done, log)
    ensures HandlerRan in log <==> forall u :: InGroups(groups, u) ==> Completed(u) in log
    ensures groups == [] ==> HandlerRan in log
  {
    if HandlerRan in log {
      forall u | InGroups(groups, u)
        ensures Completed(u) in log
      {
        assert GroupDone(groups[GroupIndex(groups, u.order)], done);
      }
    }
    if forall u :: InGroups(groups, u) ==> Completed(u) in log {
      forall k | 0 <= k < |groups|
        ensures GroupDone(groups[k], done)
      {
        forall u | u in groups[k].members
          ensures u in done
        {
          GroupOf(groups, u, k);
        }
      }
    }
  }

  /** The steps of one `complete()` as the aggregators take them: the task's
      own completion, its group's completion when it was the last task, then
      the handler or the next group's runs. */
  function SignalSteps(groups: seq<Group>, t: StartupTask, k: int, fired: bool, handler: bool,
                       ran: seq<Step>): seq<Step>
    requires 0 <= k < |groups|
  {
    [Completed(t)] + (if fired then [GroupCompleted(groups[k].order)] else []) +
    (if handler then [HandlerRan] else []) + ran
  }

  /** The aggregators take exactly the steps `CompletionSteps` describes. */
  lemma SignalStepsAre(groups: seq<Group>, done: set<StartupTask>, t: StartupTask, k: int,
                       fired: bool, handler: bool, ran: seq<Step>)
    requires WellFormed(groups) && 0 <= k < |groups| && t in groups[k].members
    requires fired == GroupDone(groups[k], done + {t})
    requires handler == (fired && k + 1 == |groups|)
    requires ran == if fired && k + 1 < |groups| then RanSteps(groups[k + 1].members) else []
    ensures SignalSteps(groups, t, k, fired, handler, ran) == CompletionSteps(groups, done, t)
  {
    GroupOf(groups, t, k);
    assert CompletionSteps(groups, done, t) == GroupSteps(groups, done, t, k);
    assert RanSteps([]) == [];
    if !fired {
      assert SignalSteps(groups, t, k, fired, handler, ran) == [Completed(t)];
    } else if handler {
      assert SignalSteps(groups, t, k, fired, handler, ran) ==
             [Completed(t)] + [GroupCompleted(groups[k].order)] + [HandlerRan];
    } else {
      assert SignalSteps(groups, t, k, fired, handler, ran) ==
             [Completed(t)] + ([GroupCompleted(groups[k].order)] + RanSteps(groups[k + 1].members));
    }
  }

  /** Before any task completes, a group waits for all of its tasks. */
  lemma NothingDoneYet(g: Group)
    requires g.members != []
    ensures Pending(g, {}) == Elements(g.members) && !GroupDone(g, {})
  {
    assert g.members[0] in g.members;
  }

  /** `TasksAggregator`: one group, linked to the next one, with the wait
      over its tasks and a wait of its own. */
  class TasksAggregator {
    const order: int
    const tasks: seq<StartupTask>
    var next: TasksAggregator?
    /** The tasks whose wait has not completed. */
    var pending: set<StartupTask>
    /** Whether the aggregator's own wait has completed. */
    var completed: bool

    /** The group waits for the tasks' waits and has no successor yet. */
    constructor (order: int, tasks: seq<StartupTask>)
      ensures this.order == order && this.tasks == tasks
      ensures next == null && pending == Elements(tasks) && !completed
    {
      this.order := order;
      this.tasks := tasks;
      next := null;
      pending := Elements(tasks);
      completed := false;
    }

    /** `compareTo`: by order alone. */
    function CompareTo(o: TasksAggregator): (c: int)
      ensures c < 0 <==> order < o.order
      ensures c == 0 <==> order == o.order
      ensures c > 0 <==> order > o.order
    {
      CompareOrders(order, o.order)
    }

    /** `setNextAggregator`: stores the successor, returns the receiver. */
    method SetNextAggregator(n: TasksAggregator?) returns (self: TasksAggregator)
      modifies this
      ensures next == n && self == this
      ensures pending == old(pending) && completed == old(completed)
    {
      next := n;
      self := this;
    }

    /** `execute()`: `run()` on every task of the group, in list order;
        `steps` logs each call. */
    method Execute() returns (steps: seq<Step>)
      ensures steps == RanSteps(tasks)
    {
      steps := [];
      var i := 0;
      while i < |tasks|
        invariant 0 <= i <= |tasks| && |steps| == i
        invariant forall j :: 0 <= j < i ==> steps[j] == Ran(tasks[j])
      {
        steps := steps + [Ran(tasks[i])];
        i := i + 1;
      }
    }

    /** The wait of task `t` completes. When it was the last one, the
        group's callback completes the aggregator's own wait (`fired`); the
        caller then runs the next group. */
    method TaskCompleted(t: StartupTask) returns (fired: bool)
      requires t in pending
      modifies this
      ensures pending == old(pending) - {t}
      ensures fired <==> pending == {}
      ensures completed == (old(completed) || fired)
      ensures next == old(next)
    {
      pending := pending - {t};
      fired := pending == {};
      if fired {
        completed := true;
      }
    }
  }

  /** The aggregators of `runTasks`, one per group in ascending order, each
      linked to its successor by `setNextAggregator`. */
  method LinkAggregators(gs: seq<Group>) returns (aggs: seq<TasksAggregator>)
    ensures |aggs| == |gs|
    ensures forall j :: 0 <= j < |aggs| ==> fresh(aggs[j])
    ensures forall j, l :: 0 <= j < l < |aggs| ==> aggs[j] != aggs[l]
    ensures forall j :: 0 <= j < |aggs| ==>
              aggs[j].order == gs[j].order && aggs[j].tasks == gs[j].members &&
              aggs[j].pending == Elements(gs[j].members) && !aggs[j].completed
    ensures forall j {:trigger aggs[j].next} :: 0 <= j < |aggs| ==>
              aggs[j].next == (if j + 1 < |aggs| then aggs[j + 1] else null)
  {
    aggs := [];
    var i := 0;
    while i < |gs|
      invariant 0 <= i <= |gs| && |aggs| == i
      invariant forall j :: 0 <= j < i ==> fresh(aggs[j])
      invariant forall j :: 0 <= j < i ==>
                  aggs[j].order == gs[j].order && aggs[j].tasks == gs[j].members &&
                  aggs[j].next == null && aggs[j].pending == Elements(gs[j].members) && !aggs[j].completed
      invariant forall j, l :: 0 <= j < l < i ==> aggs[j] != aggs[l]
    {
      var a := new TasksAggregator(gs[i].order, gs[i].members);
      aggs := aggs + [a];
      i := i + 1;
    }
    // Each aggregator's successor is the next one in the sorted set.
    i := 0;
    while i + 1 < |aggs|
      invariant i == 0 || i < |aggs|
      invariant forall j :: 0 <= j < |aggs| ==> fresh(aggs[j])
      invariant forall j :: 0 <= j < |aggs| ==>
                  aggs[j].order == gs[j].order && aggs[j].tasks == gs[j].members &&
                  aggs[j].pending == Elements(gs[j].members) && !aggs[j].completed
      invariant forall j, l :: 0 <= j < l < |aggs| ==> aggs[j] != aggs[l]
      invariant forall j {:trigger aggs[j].next} :: 0 <= j < |aggs| ==>
                  aggs[j].next == (if j < i then aggs[j + 1] else null)
    {
      var _ := aggs[i].SetNextAggregator(aggs[i + 1]);
      i := i + 1;
    }
    assert |aggs| == 0 || i + 1 == |aggs|;
  }

  /** One call of `runTasks(tasks, completeHandler)` and the aggregators it
      leaves behind. `tasks` is the task set in its iteration order. */
  class StartupRun {
    ghost const groups: seq<Group>
    /** The aggregators, in ascending order (the `TreeSet`). */
    const sorted: seq<TasksAggregator>
    ghost const Repr: set<TasksAggregator>
    /** The wait over all groups that runs the completion handler. */
    var pendingGroups: set<TasksAggregator>
    /** The tasks that have called `complete()`. */
    ghost var done: set<StartupTask>
    ghost var log: seq<Step>

    /** Aggregator `i` stands for group `i` and links to aggregator `i + 1`. */
    ghost predicate LinkOk(i: int)
      requires 0 <= i < |sorted| == |groups|
      reads sorted[i]
    {
      sorted[i].order == groups[i].order && sorted[i].tasks == groups[i].members &&
      sorted[i].next == (if i + 1 < |sorted| then sorted[i + 1] else null)
    }

    /** Aggregator `i` waits for exactly the tasks of its group not in `d`,
        and the wait over all groups still waits for it until it completes. */
    ghost predicate WaitOk(i: int, d: set<StartupTask>)
      requires 0 <= i < |sorted| == |groups|
      reads this`pendingGroups, sorted[i]
    {
      sorted[i].pending == Pending(groups[i], d) &&
      sorted[i].completed == GroupDone(groups[i], d) &&
      (sorted[i] in pendingGroups <==> !GroupDone(groups[i], d))
    }

    ghost predicate Linked()
      reads Repr
    {
      Repr == Elements(sorted) && |sorted| == |groups| && WellFormed(groups) &&
      (forall i, j :: 0 <= i < j < |sorted| ==> sorted[i] != sorted[j]) &&
      (forall i :: 0 <= i < |sorted| ==> LinkOk(i))
    }

    ghost predicate Waiting(d: set<StartupTask>)
      requires Linked()
      reads this`pendingGroups, Repr
    {
      pendingGroups <= Repr && forall i :: 0 <= i < |sorted| ==> WaitOk(i, d)
    }

    ghost predicate Valid()
      reads this, Repr
    {
      Linked() && Waiting(done) && RunOk(groups, done, log)
    }

    /** `runTasks`: one aggregator per order, ascending, each linked to the
        next; then the lowest group runs, or the handler when there is no
        task. */
    constructor (tasks: seq<StartupTask>)
      requires Distinct(tasks)
      ensures Valid() && fresh(Repr)
      ensures groups == Groups(tasks) && done == {}
      ensures log == InitialSteps(groups)
    {
      var gs := Groups(tasks);
      var aggs := LinkAggregators(gs);
      groups := gs;
      sorted := aggs;
      Repr := Elements(aggs);
      pendingGroups := Elements(aggs);
      done := {};
      if |aggs| > 0 {
        var steps := aggs[0].Execute();
        log := steps;
      } else {
        log := [HandlerRan];
      }
      new;
      StartValid(tasks);
    }

    /** The state `runTasks` leaves before any task completes is valid. */
    lemma StartValid(tasks: seq<StartupTask>)
      requires Distinct(tasks) && groups == Groups(tasks)
      requires |sorted| == |groups| && Repr == Elements(sorted) && pendingGroups == Repr
      requires done == {} && log == InitialSteps(groups)
      requires forall j, l :: 0 <= j < l < |sorted| ==> sorted[j] != sorted[l]
      requires forall j :: 0 <= j < |sorted| ==>
                 sorted[j].order == groups[j].order && sorted[j].tasks == groups[j].members &&
                 sorted[j].pending == Elements(groups[j].members) && !sorted[j].completed
      requires forall j {:trigger sorted[j].next} :: 0 <= j < |sorted| ==>
                 sorted[j].next == (if j + 1 < |sorted| then sorted[j + 1] else null)
      ensures Valid()
    {
      GroupsPartition(tasks);
      StartOk(tasks);
      forall j | 0 <= j < |sorted|
        ensures LinkOk(j)
      {
        assert sorted[j].next == (if j + 1 < |sorted| then sorted[j + 1] else null);
      }
      forall j | 0 <= j < |sorted|
        ensures WaitOk(j, {})
      {
        NothingDoneYet(groups[j]);
      }
    }

    /** The wait of task `t` of group `k` completes. The group's aggregator
        drops it; when it was the group's last task, the aggregator completes
        its own wait (the wait over all groups then runs the handler if no
        group is left) and runs the next group. */
    method Signal(ghost d: set<StartupTask>, t: StartupTask, ghost k: int)
        returns (fired: bool, handler: bool, ran: seq<Step>)
      requires Linked() && Waiting(d) && DoneOk(groups, d)
      requires 0 <= k < |groups| && t in groups[k].members && t !in d
      requires Released(groups, d, t.order)
      modifies this`pendingGroups, Repr
      ensures Linked() && Waiting(d + {t})
      ensures fired == GroupDone(groups[k], d + {t})
      ensures handler == (fired && k + 1 == |groups|)
      ensures ran == if fired && k + 1 < |groups| then RanSteps(groups[k + 1].members) else []
    {
      assert LinkOk(k) && WaitOk(k, d);
      var j :| 0 <= j < |sorted| && sorted[j].order == t.order;
      assert LinkOk(j);
      var agg := sorted[j];
      assert j == k;
      fired := agg.TaskCompleted(t);
      assert agg.pending == Pending(groups[k], d + {t});
      handler, ran := false, [];
      if fired {
        pendingGroups := pendingGroups - {agg};
        if k + 1 == |sorted| {
          forall a | a in old(pendingGroups)
            ensures a == agg
          {
            var i :| 0 <= i < |sorted| && sorted[i] == a;
            assert old(WaitOk(i, d));
          }
          assert pendingGroups == {};
        } else {
          NothingDoneAbove(groups, d, k, k + 1, groups[k + 1].members[0]);
          assert old(WaitOk(k + 1, d));
          assert sorted[k + 1] in pendingGroups;
        }
        handler := pendingGroups == {};
        if agg.next != null {
          assert old(LinkOk(k) && LinkOk(k + 1));
          ran := agg.next.Execute();
        }
      }
      forall i | 0 <= i < |sorted|
        ensures LinkOk(i) && WaitOk(i, d + {t})
      {
        assert old(LinkOk(i) && WaitOk(i, d));
        if i != k {
          OtherGroupsUnchanged(groups, d, t, k, i);
        }
      }
    }

    /** Task `t` calls `complete()`. A task completes only after it has run,
        and only once. */
    method Complete(t: StartupTask)
      requires Valid()
      requires Ran(t) in log && t !in done
      modifies this, Repr
      ensures Valid()
      ensures done == old(done) + {t}
      ensures log == old(log) + CompletionSteps(groups, old(done), t)
    {
      ghost var D, L := done, log;
      ghost var k := GroupIndex(groups, t.order);
      assert RunsOk(groups, D, L);
      assert InGroups(groups, t) && Released(groups, D, t.order);
      CompleteStep(groups, D, L, t);
      var fired, handler, ran := Signal(D, t, k);
      ghost var steps := SignalSteps(groups, t, k, fired, handler, ran);
      SignalStepsAre(groups, D, t, k, fired, handler, ran);
      done := D + {t};
      log := L + steps;
    }
  }
}
