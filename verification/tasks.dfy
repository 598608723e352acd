/** The task decomposer: an insertion-ordered table of tasks with
    dependencies, readiness, status updates, a depth-first topological sort
    that reports dependency cycles, dependency validation, and the two
    ready-made decompositions. */
module Tasks {
  import opened Text
  import opened Wrappers
  import opened OrderedMap
  import opened Numeric
  import opened Selection

  datatype Status = Pending | InProgress | Completed | Blocked | Failed

  datatype Task = Task(id: string, title: string, description: string, dependencies: seq<string>,
                       status: Status, result: Option<string>, error: Option<string>)

  /** A `TaskDecomposer`: the tasks by id, in insertion order, and the last
      execution order computed. */
  datatype Decomposer = Decomposer(tasks: OMap<string, Task>, executionOrder: seq<string>) {
    predicate Valid() {
      tasks.Valid()
    }
  }

  function NewDecomposer(): (d: Decomposer)
    ensures d.Valid() && d.tasks.keys == []
  {
    Decomposer(Empty(), [])
  }

  /** `add_task`: a new pending task stored under its id, replacing any task
      with that id in place. */
  function AddTask(d: Decomposer, id: string, title: string, description: string, dependencies: seq<string>): (d': Decomposer)
    requires d.Valid()
    ensures d'.Valid()
    ensures id in d'.tasks.values && d'.tasks.values[id] == Task(id, title, description, dependencies, Pending, None, None)
    ensures forall k :: k != id ==> d'.tasks.Get(k) == d.tasks.Get(k)
    ensures id in d.tasks.keys ==> d'.tasks.keys == d.tasks.keys
    ensures id !in d.tasks.keys ==> d'.tasks.keys == d.tasks.keys + [id]
    ensures d'.executionOrder == d.executionOrder
  {
    Decomposer(d.tasks.Put(id, Task(id, title, description, dependencies, Pending, None, None)), d.executionOrder)
  }

  /** Every dependency exists and is completed; an unknown id counts as a
      pending task and so is never met. */
  predicate DependenciesMet(g: map<string, Task>, t: Task) {
    forall dep :: dep in t.dependencies ==> dep in g && g[dep].status == Completed
  }

  predicate IsReady(g: map<string, Task>, t: Task) {
    t.status == Pending && DependenciesMet(g, t)
  }

  /** The pending tasks of `ts` whose dependencies are met, in the order of `ts`. */
  function ReadyAmong(g: map<string, Task>, ts: seq<Task>): (r: seq<Task>)
    ensures forall t :: t in r <==> t in ts && IsReady(g, t)
  {
    if |ts| == 0 then []
    else (if IsReady(g, ts[0]) then [ts[0]] else []) + ReadyAmong(g, ts[1..])
  }

  /** The readiness test, as a value. */
  function ReadyIn(g: map<string, Task>): Task -> bool {
    t => IsReady(g, t)
  }

  lemma {:induction false} ReadyAmongInOrder(g: map<string, Task>, ts: seq<Task>)
    ensures SelectsInOrder(ReadyAmong(g, ts), ts, ReadyIn(g), Identity())
  {
    if |ts| > 0 {
      ReadyAmongInOrder(g, ts[1..]);
      SelectsCons(ReadyAmong(g, ts[1..]), ts, ReadyIn(g), Identity());
    }
  }

  /** `get_ready_tasks`: the pending tasks whose dependencies are all
      completed, once each, in insertion order. */
  function ReadyTasks(d: Decomposer): (r: seq<Task>)
    requires d.Valid()
    ensures forall t :: t in r <==> exists k :: k in d.tasks.keys && d.tasks.values[k] == t && IsReady(d.tasks.values, t)
    ensures SelectsInOrder(r, d.tasks.Values(), ReadyIn(d.tasks.values), Identity())
  {
    var vs := d.tasks.Values();
    ReadyAmongInOrder(d.tasks.values, vs);
    assert forall t :: t in vs <==> exists k :: k in d.tasks.keys && d.tasks.values[k] == t by {
      forall t | t in vs ensures exists k :: k in d.tasks.keys && d.tasks.values[k] == t {
        var i :| 0 <= i < |vs| && vs[i] == t;
        assert d.tasks.keys[i] in d.tasks.keys;
      }
      forall t | exists k :: k in d.tasks.keys && d.tasks.values[k] == t ensures t in vs {
        var k :| k in d.tasks.keys && d.tasks.values[k] == t;
        var i :| 0 <= i < |d.tasks.keys| && d.tasks.keys[i] == k;
        assert vs[i] == t;
      }
    }
    ReadyAmong(d.tasks.values, vs)
  }

  /** A task that names a dependency nobody added is never ready. */
  lemma UnknownDependencyBlocks(d: Decomposer, t: Task, dep: string)
    requires d.Valid() && dep in t.dependencies && dep !in d.tasks.values
    ensures t !in ReadyTasks(d)
  {
  }

  /** Replaces the task under `id`, when there is one, by `f` of it. */
  function Update(d: Decomposer, id: string, f: Task -> Task): (d': Decomposer)
    requires d.Valid()
    ensures d'.Valid() && d'.tasks.keys == d.tasks.keys && d'.executionOrder == d.executionOrder
    ensures forall k :: k != id ==> d'.tasks.Get(k) == d.tasks.Get(k)
    ensures id in d.tasks.values ==> d'.tasks.values[id] == f(d.tasks.values[id])
    ensures id !in d.tasks.values ==> d' == d
  {
    if id in d.tasks.values then Decomposer(d.tasks.Put(id, f(d.tasks.values[id])), d.executionOrder) else d
  }

  /** `mark_task_completed`. */
  function MarkCompleted(d: Decomposer, id: string, result: Option<string>): (d': Decomposer)
    requires d.Valid()
    ensures d'.Valid() && d'.tasks.keys == d.tasks.keys
    ensures forall k :: k != id ==> d'.tasks.Get(k) == d.tasks.Get(k)
    ensures id in d.tasks.values ==> d'.tasks.values[id] == d.tasks.values[id].(status := Completed, result := result)
    ensures id !in d.tasks.values ==> d' == d
  {
    Update(d, id, (t: Task) => t.(status := Completed, result := result))
  }

  /** `mark_task_failed`. */
  function MarkFailed(d: Decomposer, id: string, error: string): (d': Decomposer)
    requires d.Valid()
    ensures d'.Valid() && d'.tasks.keys == d.tasks.keys
    ensures forall k :: k != id ==> d'.tasks.Get(k) == d.tasks.Get(k)
    ensures id in d.tasks.values ==> d'.tasks.values[id] == d.tasks.values[id].(status := Failed, error := Some(error))
    ensures id !in d.tasks.values ==> d' == d
  {
    Update(d, id, (t: Task) => t.(status := Failed, error := Some(error)))
  }

  /** `mark_task_in_progress`. */
  function MarkInProgress(d: Decomposer, id: string): (d': Decomposer)
    requires d.Valid()
    ensures d'.Valid() && d'.tasks.keys == d.tasks.keys
    ensures forall k :: k != id ==> d'.tasks.Get(k) == d.tasks.Get(k)
    ensures id in d.tasks.values ==> d'.tasks.values[id] == d.tasks.values[id].(status := InProgress)
    ensures id !in d.tasks.values ==> d' == d
  {
    Update(d, id, (t: Task) => t.(status := InProgress))
  }

  // ---------------------------------------------------------------------
  // The dependency graph and the depth-first sort
  // ---------------------------------------------------------------------

  /** `c` is a cycle of existing tasks: each depends on the next and the last
      depends on the first. */
  ghost predicate IsCycle(g: map<string, Task>, c: seq<string>) {
    && |c| >= 1
    && (forall k :: 0 <= k < |c| ==> c[k] in g)
    && (forall k :: 0 <= k < |c| - 1 ==> c[k + 1] in g[c[k]].dependencies)
    && c[0] in g[c[|c| - 1]].dependencies
  }

  ghost predicate HasCycle(g: map<string, Task>) {
    exists c :: IsCycle(g, c)
  }

  /** Every dependency of a listed task that exists is listed before it. */
  ghost predicate Topological(g: map<string, Task>, o: seq<string>) {
    forall i, dep :: 0 <= i < |o| && o[i] in g && dep in g[o[i]].dependencies && dep in g ==> dep in o[..i]
  }

  /** The visiting stack: each entry exists and depends on the next. */
  ghost predicate PathChain(g: map<string, Task>, path: seq<string>) {
    && (forall k :: 0 <= k < |path| ==> path[k] in g)
    && (forall k :: 0 <= k < |path| - 1 ==> path[k + 1] in g[path[k]].dependencies)
  }

  ghost function Unvisited(g: map<string, Task>, path: seq<string>): set<string> {
    g.Keys - (set x | x in path)
  }

  /** `visit(task_id)`: `path` is the set of tasks being visited (the stack of
      the recursion), `order` the tasks finished so far. Fails with the id
      that closes a cycle. */
  function Visit(g: map<string, Task>, id: string, path: seq<string>, order: seq<string>): Result<seq<string>, string>
    requires id in g
    decreases Unvisited(g, path), 0, 0
  {
    if id in path then Err(id)
    else if id in order then Ok(order)
    else
      assert Unvisited(g, path + [id]) < Unvisited(g, path) by {
        assert id in Unvisited(g, path) && id !in Unvisited(g, path + [id]);
      }
      match VisitDeps(g, g[id].dependencies, 0, path + [id], order)
      case Err(e) => Err(e)
      case Ok(o) => Ok(o + [id])
  }

  /** The loop over a task's dependencies, skipping the ones that do not
      exist. */
  function VisitDeps(g: map<string, Task>, deps: seq<string>, j: nat, path: seq<string>, order: seq<string>): Result<seq<string>, string>
    requires j <= |deps|
    decreases Unvisited(g, path), 1, |deps| - j
  {
    if j == |deps| then Ok(order)
    else if deps[j] !in g then VisitDeps(g, deps, j + 1, path, order)
    else
      match Visit(g, deps[j], path, order)
      case Err(e) => Err(e)
      case Ok(o) => VisitDeps(g, deps, j + 1, path, o)
  }

  /** The loop over all task ids, each visited with an empty stack. */
  function VisitAll(g: map<string, Task>, ids: seq<string>, j: nat, order: seq<string>): Result<seq<string>, string>
    requires j <= |ids| && forall k :: k in ids ==> k in g
    decreases |ids| - j
  {
    if j == |ids| then Ok(order)
    else
      match Visit(g, ids[j], [], order)
      case Err(e) => Err(e)
      case Ok(o) => VisitAll(g, ids, j + 1, o)
  }

  const CyclePrefix: string := "Circular dependency detected involving task "
  const MissingTaskWord: string := "Task '"
  const MissingDependsWord: string := "' depends on non-existent task '"
  const Quote: string := "'"
  const SimplePrefix: string := "task_"
  const SubtaskWord: string := "Step "
  const ParallelPrefix: string := "parallel_task_"
  const ParallelStepWord: string := "Parallel Step "
  const FinalTaskId: string := "final_task"
  const FinalTaskTitle: string := "Final Integration"

  function CycleMessage(id: string): string {
    CyclePrefix + id
  }

  /** `get_execution_order`: the task ids in depth-first finishing order, or
      the message of the `ValueError` raised on a cycle. */
  function ExecutionOrder(d: Decomposer): Result<seq<string>, string>
    requires d.Valid()
  {
    match VisitAll(d.tasks.values, d.tasks.keys, 0, [])
    case Ok(o) => Ok(o)
    case Err(id) => Err(CycleMessage(id))
  }

  /** `get_execution_order` as a command: a computed order is also stored. */
  function RefreshExecutionOrder(d: Decomposer): (d': Decomposer)
    requires d.Valid()
    ensures d'.Valid() && d'.tasks == d.tasks
    ensures ExecutionOrder(d).Ok? ==> d'.executionOrder == ExecutionOrder(d).value
    ensures ExecutionOrder(d).Err? ==> d' == d
  {
    match ExecutionOrder(d)
    case Ok(o) => d.(executionOrder := o)
    case Err(_) => d
  }

  /** The facts a finished order keeps: no repeats, only existing tasks,
      dependencies first. */
  ghost predicate GoodOrder(g: map<string, Task>, o: seq<string>) {
    && Distinct(o)
    && (forall x :: x in o ==> x in g)
    && Topological(g, o)
  }

  ghost predicate Disjoint(path: seq<string>, o: seq<string>) {
    forall x :: x in path ==> x !in o
  }

  lemma TopologicalAppend(g: map<string, Task>, o: seq<string>, id: string)
    requires Topological(g, o)
    requires id in g ==> forall dep :: dep in g[id].dependencies && dep in g ==> dep in o
    ensures Topological(g, o + [id])
  {
    var o' := o + [id];
    forall i, dep | 0 <= i < |o'| && o'[i] in g && dep in g[o'[i]].dependencies && dep in g
      ensures dep in o'[..i]
    {
      if i < |o| {
        assert o'[..i] == o[..i];
      } else {
        assert o'[..i] == o;
      }
    }
  }

  /** A successful visit extends `order` by tasks that were neither finished
      nor on the stack, ends with `id` finished, and keeps the order good; a
      failed one names a task on a dependency cycle. */
  lemma {:induction false} VisitSpec(g: map<string, Task>, id: string, path: seq<string>, order: seq<string>)
    requires id in g && PathChain(g, path) && (|path| > 0 ==> id in g[path[|path| - 1]].dependencies)
    requires GoodOrder(g, order) && Disjoint(path, order)
    ensures var r := Visit(g, id, path, order);
      && (r.Ok? ==>
            && |order| <= |r.value| && r.value[..|order|] == order
            && GoodOrder(g, r.value) && Disjoint(path, r.value) && id in r.value)
      && (r.Err? ==> exists c :: IsCycle(g, c) && c[0] == r.error)
    decreases Unvisited(g, path), 0, 0
  {
    if id in path {
      var p :| 0 <= p < |path| && path[p] == id;
      var c := path[p..];
      assert c[|c| - 1] == path[|path| - 1];
      forall k | 0 <= k < |c| - 1
        ensures c[k + 1] in g[c[k]].dependencies
      {
        assert c[k] == path[p + k] && c[k + 1] == path[p + k + 1];
      }
      assert IsCycle(g, c);
    } else if id !in order {
      var path' := path + [id];
      assert Unvisited(g, path') < Unvisited(g, path) by {
        assert id in Unvisited(g, path) && id !in Unvisited(g, path');
      }
      assert PathChain(g, path') by {
        forall k | 0 <= k < |path'| - 1
          ensures path'[k + 1] in g[path'[k]].dependencies
        {
          if k < |path| - 1 {
            assert path'[k] == path[k] && path'[k + 1] == path[k + 1];
          }
        }
      }
      VisitDepsSpec(g, g[id].dependencies, 0, path', order);
      var r := VisitDeps(g, g[id].dependencies, 0, path', order);
      if r.Ok? {
        var o := r.value;
        assert id in path' && id !in o;
        TopologicalAppend(g, o, id);
        assert (o + [id])[..|order|] == o[..|order|];
      }
    }
  }

  lemma {:induction false} VisitDepsSpec(g: map<string, Task>, deps: seq<string>, j: nat, path: seq<string>, order: seq<string>)
    requires j <= |deps| && |path| > 0 && PathChain(g, path) && deps == g[path[|path| - 1]].dependencies
    requires GoodOrder(g, order) && Disjoint(path, order)
    ensures var r := VisitDeps(g, deps, j, path, order);
      && (r.Ok? ==>
            && |order| <= |r.value| && r.value[..|order|] == order
            && GoodOrder(g, r.value) && Disjoint(path, r.value)
            && forall k :: j <= k < |deps| && deps[k] in g ==> deps[k] in r.value)
      && (r.Err? ==> exists c :: IsCycle(g, c) && c[0] == r.error)
    decreases Unvisited(g, path), 1, |deps| - j
  {
    if j < |deps| {
      if deps[j] !in g {
        VisitDepsSpec(g, deps, j + 1, path, order);
      } else {
        VisitSpec(g, deps[j], path, order);
        var v := Visit(g, deps[j], path, order);
        if v.Ok? {
          var o := v.value;
          VisitDepsSpec(g, deps, j + 1, path, o);
          var r := VisitDeps(g, deps, j + 1, path, o);
          if r.Ok? {
            assert r.value[..|o|] == o;
            assert r.value[..|order|] == o[..|order|];
            assert deps[j] in o;
            assert deps[j] in r.value by {
              var q :| 0 <= q < |o| && o[q] == deps[j];
              assert r.value[q] == o[q];
            }
          }
        }
      }
    }
  }

  lemma {:induction false} VisitAllSpec(g: map<string, Task>, ids: seq<string>, j: nat, order: seq<string>)
    requires j <= |ids| && (forall k :: k in ids ==> k in g) && GoodOrder(g, order)
    ensures var r := VisitAll(g, ids, j, order);
      && (r.Ok? ==>
            && |order| <= |r.value| && r.value[..|order|] == order
            && GoodOrder(g, r.value)
            && forall k :: j <= k < |ids| ==> ids[k] in r.value)
      && (r.Err? ==> exists c :: IsCycle(g, c) && c[0] == r.error)
    decreases |ids| - j
  {
    if j < |ids| {
      VisitSpec(g, ids[j], [], order);
      var v := Visit(g, ids[j], [], order);
      if v.Ok? {
        var o := v.value;
        VisitAllSpec(g, ids, j + 1, o);
        VisitAllStep(g, ids, j, order, o);
        var r := VisitAll(g, ids, j + 1, o);
        if r.Ok? {
          PrefixOfPrefix(order, o, r.value, ids[j]);
        }
      }
    }
  }

  /** A prefix of a prefix is a prefix, and what the middle list holds the
      longest one holds too. */
  lemma PrefixOfPrefix(a: seq<string>, b: seq<string>, c: seq<string>, x: string)
    requires |a| <= |b| <= |c| && b[..|a|] == a && c[..|b|] == b && x in b
    ensures c[..|a|] == a && x in c
  {
    assert c[..|a|] == b[..|a|];
    var q :| 0 <= q < |b| && b[q] == x;
    assert c[q] == b[q];
  }

  /** A computed execution order lists every task exactly once, and every
      dependency that exists comes before the task that needs it. */
  lemma ExecutionOrderSorts(d: Decomposer)
    requires d.Valid() && ExecutionOrder(d).Ok?
    ensures var o := ExecutionOrder(d).value;
      && Distinct(o) && |o| == |d.tasks.keys|
      && (forall x :: x in o <==> x in d.tasks.keys)
      && Topological(d.tasks.values, o)
  {
    var g := d.tasks.values;
    VisitAllSpec(g, d.tasks.keys, 0, []);
    var o := ExecutionOrder(d).value;
    assert forall x :: x in o ==> x in d.tasks.keys;
    assert forall x :: x in d.tasks.keys ==> x in o;
    DistinctCard(o);
    DistinctCard(d.tasks.keys);
    assert (set x | x in o) == (set x | x in d.tasks.keys);
  }

  /** A topologically ordered list of all tasks rules out a cycle: along a
      cycle the positions would have to decrease forever. */
  lemma NoCycleUnderOrder(g: map<string, Task>, o: seq<string>, c: seq<string>)
    requires Distinct(o) && Topological(g, o) && (forall x :: x in g ==> x in o)
    ensures !IsCycle(g, c)
  {
    if IsCycle(g, c) {
      DependencyPathDescends(g, o, c);
      EarlierPosition(g, o, c[|c| - 1], c[0]);
    }
  }

  /** Along a chain of dependencies the positions in a topological order
      go strictly backwards, one place at least per step. */
  lemma DependencyPathDescends(g: map<string, Task>, o: seq<string>, c: seq<string>)
    requires Distinct(o) && Topological(g, o) && (forall x :: x in g ==> x in o)
    requires |c| >= 1 && PathChain(g, c)
    ensures PositionOf(o, c[|c| - 1]) + (|c| - 1) <= PositionOf(o, c[0])
  {
    var pos := map x | x in o :: PositionOf(o, x);
    forall k | 0 <= k < |c| - 1
      ensures pos[c[k + 1]] < pos[c[k]]
    {
      EarlierPosition(g, o, c[k], c[k + 1]);
    }
    DescendingCycle(pos, c, |c| - 1);
  }

  function PositionOf(o: seq<string>, x: string): (p: nat)
    requires x in o
    ensures p < |o| && o[p] == x
  {
    if o[0] == x then 0 else 1 + PositionOf(o[1..], x)
  }

  lemma EarlierPosition(g: map<string, Task>, o: seq<string>, a: string, b: string)
    requires Distinct(o) && Topological(g, o) && a in g && b in g && a in o && b in o
    requires b in g[a].dependencies
    ensures PositionOf(o, b) < PositionOf(o, a)
  {
    var i := PositionOf(o, a);
    assert b in o[..i];
    var q :| 0 <= q < i && o[..i][q] == b;
    assert o[q] == b == o[PositionOf(o, b)];
  }

  lemma {:induction false} DescendingCycle(pos: map<string, nat>, c: seq<string>, k: nat)
    requires k < |c| && forall x :: x in c ==> x in pos
    requires forall q :: 0 <= q < |c| - 1 ==> pos[c[q + 1]] < pos[c[q]]
    ensures pos[c[k]] <= pos[c[0]] - k
  {
    if k > 0 {
      DescendingCycle(pos, c, k - 1);
    }
  }

  /** The sort fails exactly when the existing tasks have a dependency cycle,
      and its message names a task on such a cycle. */
  lemma ExecutionOrderFailsIffCycle(d: Decomposer)
    requires d.Valid()
    ensures ExecutionOrder(d).Err? <==> HasCycle(d.tasks.values)
    ensures ExecutionOrder(d).Err? ==>
      exists c :: IsCycle(d.tasks.values, c) && ExecutionOrder(d).error == CycleMessage(c[0])
  {
    var g := d.tasks.values;
    VisitAllSpec(g, d.tasks.keys, 0, []);
    if ExecutionOrder(d).Ok? {
      ExecutionOrderSorts(d);
      if HasCycle(g) {
        var c :| IsCycle(g, c);
        NoCycleUnderOrder(g, ExecutionOrder(d).value, c);
      }
    }
  }

  // ---------------------------------------------------------------------
  // Summary and dependency validation
  // ---------------------------------------------------------------------

  /** The status test, as a value. */
  function HasStatus(s: Status): Task -> bool {
    (t: Task) => t.status == s
  }

  function CountStatus(ts: seq<Task>, s: Status): (n: nat)
    ensures n <= |ts|
  {
    if |ts| == 0 then 0 else (if ts[0].status == s then 1 else 0) + CountStatus(ts[1..], s)
  }

  /** The five status counts add up to the number of tasks. */
  lemma {:induction false} StatusCountsSum(ts: seq<Task>)
    ensures CountStatus(ts, Pending) + CountStatus(ts, InProgress) + CountStatus(ts, Completed)
          + CountStatus(ts, Blocked) + CountStatus(ts, Failed) == |ts|
  {
    if |ts| > 0 {
      StatusCountsSum(ts[1..]);
    }
  }

  /** The tasks of `ts` with status `s`, in the order of `ts`. */
  function WithStatus(ts: seq<Task>, s: Status): (r: seq<Task>)
    ensures |r| == CountStatus(ts, s)
    ensures forall t :: t in r ==> t.status == s
  {
    if |ts| == 0 then []
    else (if ts[0].status == s then [ts[0]] else []) + WithStatus(ts[1..], s)
  }

  /** The tasks with a status are selected in order, once each; so their
      count is the number of positions holding that status. */
  lemma {:induction false} WithStatusInOrder(ts: seq<Task>, s: Status)
    ensures SelectsInOrder(WithStatus(ts, s), ts, HasStatus(s), Identity())
    ensures CountStatus(ts, s) == |Positions(ts, HasStatus(s))|
  {
    if |ts| > 0 {
      WithStatusInOrder(ts[1..], s);
      SelectsCons(WithStatus(ts[1..], s), ts, HasStatus(s), Identity());
    }
  }

  datatype Brief = Brief(id: string, title: string)
  datatype FailedBrief = FailedBrief(id: string, title: string, error: Option<string>)

  /** The `{"id", "title"}` entry of a task, as a value. */
  function BriefOf(): Task -> Brief {
    (t: Task) => Brief(t.id, t.title)
  }

  /** The `{"id", "title", "error"}` entry of a failed task, as a value. */
  function FailedBriefOf(): Task -> FailedBrief {
    (t: Task) => FailedBrief(t.id, t.title, t.error)
  }

  function Briefs(ts: seq<Task>): (bs: seq<Brief>)
    ensures |bs| == |ts| && forall i :: 0 <= i < |ts| ==> bs[i] == BriefOf()(ts[i])
  {
    seq(|ts|, i requires 0 <= i < |ts| => Brief(ts[i].id, ts[i].title))
  }

  function FailedBriefs(ts: seq<Task>): (bs: seq<FailedBrief>)
    ensures |bs| == |ts| && forall i :: 0 <= i < |ts| ==> bs[i] == FailedBriefOf()(ts[i])
  {
    seq(|ts|, i requires 0 <= i < |ts| => FailedBrief(ts[i].id, ts[i].title, ts[i].error))
  }

  /** Mapping an in-order selection entry-wise keeps it an in-order
      selection, of the mapped entries. */
  lemma BriefsInOrder(r: seq<Task>, ts: seq<Task>, keep: Task -> bool)
    requires SelectsInOrder(r, ts, keep, Identity())
    ensures SelectsInOrder(Briefs(r), ts, keep, BriefOf())
    ensures SelectsInOrder(FailedBriefs(r), ts, keep, FailedBriefOf())
  {
    var I := Positions(ts, keep);
    forall j | 0 <= j < |I| ensures Briefs(r)[j] == BriefOf()(ts[I[j]]) && FailedBriefs(r)[j] == FailedBriefOf()(ts[I[j]]) {
      assert r[j] == Identity()(ts[I[j]]);
    }
  }

  datatype TaskSummary = TaskSummary(
    totalTasks: nat,
    pending: nat, inProgress: nat, completed: nat, blocked: nat, failed: nat,
    completionRate: real,
    completedTasks: seq<Brief>, failedTasks: seq<FailedBrief>, readyTasks: seq<Brief>)

  /** `get_task_summary`: each status count is the number of tasks holding
      that status; the completed, failed and ready lists hold one entry per
      such task in insertion order; the completion rate is the completed
      share. */
  function Summarize(d: Decomposer): (s: TaskSummary)
    requires d.Valid()
    ensures s.totalTasks == |d.tasks.keys|
    ensures s.pending == |Positions(d.tasks.Values(), HasStatus(Pending))|
    ensures s.inProgress == |Positions(d.tasks.Values(), HasStatus(InProgress))|
    ensures s.completed == |Positions(d.tasks.Values(), HasStatus(Completed))|
    ensures s.blocked == |Positions(d.tasks.Values(), HasStatus(Blocked))|
    ensures s.failed == |Positions(d.tasks.Values(), HasStatus(Failed))|
    ensures s.pending + s.inProgress + s.completed + s.blocked + s.failed == s.totalTasks
    ensures s.totalTasks == 0 ==> s.completionRate == 0.0
    ensures s.totalTasks > 0 ==> s.completionRate == s.completed as real / s.totalTasks as real
    ensures 0.0 <= s.completionRate <= 1.0
    ensures SelectsInOrder(s.completedTasks, d.tasks.Values(), HasStatus(Completed), BriefOf())
    ensures SelectsInOrder(s.failedTasks, d.tasks.Values(), HasStatus(Failed), FailedBriefOf())
    ensures SelectsInOrder(s.readyTasks, d.tasks.Values(), ReadyIn(d.tasks.values), BriefOf())
  {
    var vs := d.tasks.Values();
    StatusCountsSum(vs);
    WithStatusInOrder(vs, Pending);
    WithStatusInOrder(vs, InProgress);
    WithStatusInOrder(vs, Completed);
    WithStatusInOrder(vs, Blocked);
    WithStatusInOrder(vs, Failed);
    var c := CountStatus(vs, Completed);
    var rate := if |vs| == 0 then 0.0 else Ratio(c, |vs|);
    var done := WithStatus(vs, Completed);
    var bad := WithStatus(vs, Failed);
    var ready := ReadyTasks(d);
    BriefsInOrder(done, vs, HasStatus(Completed));
    BriefsInOrder(bad, vs, HasStatus(Failed));
    BriefsInOrder(ready, vs, ReadyIn(d.tasks.values));
    TaskSummary(
      |vs|,
      CountStatus(vs, Pending), CountStatus(vs, InProgress), c,
      CountStatus(vs, Blocked), CountStatus(vs, Failed),
      rate,
      Briefs(done), FailedBriefs(bad), Briefs(ready))
  }

  function MissingMessage(id: string, dep: string): string {
    MissingTaskWord + id + MissingDependsWord + dep + Quote
  }

  /** The (task id, dependency) pairs in task order and then dependency
      order: the iteration order of the two nested loops. */
  function DependencyPairs(g: map<string, Task>, ids: seq<string>): (ps: seq<(string, string)>)
    requires forall k :: k in ids ==> k in g
    ensures forall p :: p in ps <==> p.0 in ids && p.1 in g[p.0].dependencies
  {
    if |ids| == 0 then []
    else PairsOf(ids[0], g[ids[0]].dependencies) + DependencyPairs(g, ids[1..])
  }

  function PairsOf(id: string, deps: seq<string>): (ps: seq<(string, string)>)
    ensures forall p :: p in ps <==> p.0 == id && p.1 in deps
  {
    if |deps| == 0 then [] else [(id, deps[0])] + PairsOf(id, deps[1..])
  }

  /** The test "the dependency is not a task", as a value. */
  function Dangling(g: map<string, Task>): ((string, string)) -> bool {
    (p: (string, string)) => p.1 !in g
  }

  /** The issue reported for a (task id, dependency) pair, as a value. */
  function PairMessage(): ((string, string)) -> string {
    (p: (string, string)) => MissingMessage(p.0, p.1)
  }

  /** One issue per pair whose dependency is not a task. */
  function MissingIssues(g: map<string, Task>, ps: seq<(string, string)>): (issues: seq<string>)
    ensures |issues| == 0 <==> forall p :: p in ps ==> p.1 in g
  {
    if |ps| == 0 then []
    else (if ps[0].1 in g then [] else [MissingMessage(ps[0].0, ps[0].1)]) + MissingIssues(g, ps[1..])
  }

  lemma {:induction false} MissingIssuesInOrder(g: map<string, Task>, ps: seq<(string, string)>)
    ensures SelectsInOrder(MissingIssues(g, ps), ps, Dangling(g), PairMessage())
  {
    if |ps| > 0 {
      MissingIssuesInOrder(g, ps[1..]);
      SelectsCons(MissingIssues(g, ps[1..]), ps, Dangling(g), PairMessage());
    }
  }

  datatype DependencyReport = DependencyReport(isValid: bool, issues: seq<string>)

  datatype Validation = Validation(decomposer: Decomposer, report: DependencyReport)

  /** `validate_dependencies`: the missing-dependency issues, then the cycle
      message when the sort fails. Like the source it stores a successfully
      computed order. */
  function ValidateDependencies(d: Decomposer): (v: Validation)
    requires d.Valid()
    ensures v.decomposer == RefreshExecutionOrder(d)
    ensures v.report.isValid <==> |v.report.issues| == 0
    ensures var g := d.tasks.values;
      var pairs := DependencyPairs(g, d.tasks.keys);
      var n := |Positions(pairs, Dangling(g))|;
      && n <= |v.report.issues|
      && SelectsInOrder(v.report.issues[..n], pairs, Dangling(g), PairMessage())
      && (ExecutionOrder(d).Ok? ==> |v.report.issues| == n)
      && (ExecutionOrder(d).Err? ==> v.report.issues[n..] == [ExecutionOrder(d).error])
  {
    var g := d.tasks.values;
    var pairs := DependencyPairs(g, d.tasks.keys);
    var missing := MissingIssues(g, pairs);
    MissingIssuesInOrder(g, pairs);
    var issues := match ExecutionOrder(d)
      case Ok(_) => missing
      case Err(m) => missing + [m];
    assert issues[..|missing|] == missing;
    Validation(RefreshExecutionOrder(d), DependencyReport(|issues| == 0, issues))
  }

  /** The dependencies are valid exactly when every dependency names an
      existing task and the existing tasks have no dependency cycle. */
  lemma ValidIffNoMissingNoCycle(d: Decomposer)
    requires d.Valid()
    ensures ValidateDependencies(d).report.isValid <==>
      (forall k, dep :: k in d.tasks.keys && dep in d.tasks.values[k].dependencies ==> dep in d.tasks.values)
      && !HasCycle(d.tasks.values)
  {
    ExecutionOrderFailsIffCycle(d);
    var g := d.tasks.values;
    var pairs := DependencyPairs(g, d.tasks.keys);
    if forall p :: p in pairs ==> p.1 in g {
      forall k, dep | k in d.tasks.keys && dep in g[k].dependencies ensures dep in g {
        assert (k, dep) in pairs;
      }
    }
  }

  // ---------------------------------------------------------------------
  // Ready-made decompositions
  // ---------------------------------------------------------------------

  /** A visit of a task whose existing dependencies are all finished (and
      none on the stack) just finishes it. */
  lemma {:induction false} VisitDepsDone(g: map<string, Task>, deps: seq<string>, j: nat, path: seq<string>, order: seq<string>)
    requires j <= |deps|
    requires forall k :: j <= k < |deps| && deps[k] in g ==> deps[k] in order && deps[k] !in path
    ensures VisitDeps(g, deps, j, path, order) == Ok(order)
    decreases |deps| - j
  {
    if j < |deps| {
      VisitDepsDone(g, deps, j + 1, path, order);
    }
  }

  lemma VisitFinishes(g: map<string, Task>, id: string, path: seq<string>, order: seq<string>)
    requires id in g && id !in path && id !in order
    requires forall dep :: dep in g[id].dependencies && dep in g ==> dep in order && dep !in path && dep != id
    ensures Visit(g, id, path, order) == Ok(order + [id])
  {
    VisitDepsDone(g, g[id].dependencies, 0, path + [id], order);
  }

  /** In insertion order, the `j`-th task is new and its dependencies are
      among the earlier ones. */
  lemma DepsDone(g: map<string, Task>, ids: seq<string>, j: nat)
    requires j < |ids| && Distinct(ids) && (forall k :: k in ids ==> k in g)
    requires Topological(g, ids)
    ensures ids[j] !in ids[..j]
    ensures forall dep :: dep in g[ids[j]].dependencies && dep in g ==> dep in ids[..j] && dep != ids[j]
  {
    assert ids[j] !in ids[..j];
  }

  lemma VisitAllStep(g: map<string, Task>, ids: seq<string>, j: nat, order: seq<string>, o: seq<string>)
    requires j < |ids| && (forall k :: k in ids ==> k in g)
    requires Visit(g, ids[j], [], order) == Ok(o)
    ensures VisitAll(g, ids, j, order) == VisitAll(g, ids, j + 1, o)
  {
  }

  lemma {:induction false} VisitAllInOrder(g: map<string, Task>, ids: seq<string>, j: nat)
    requires j <= |ids| && Distinct(ids) && (forall k :: k in ids ==> k in g)
    requires Topological(g, ids)
    ensures VisitAll(g, ids, j, ids[..j]) == Ok(ids)
    decreases |ids| - j
  {
    if j < |ids| {
      var done, id := ids[..j], ids[j];
      DepsDone(g, ids, j);
      VisitFinishes(g, id, [], done);
      assert done + [id] == ids[..j + 1];
      VisitAllStep(g, ids, j, done, ids[..j + 1]);
      VisitAllInOrder(g, ids, j + 1);
    } else {
      assert ids[..j] == ids;
    }
  }

  /** When every task's existing dependencies come earlier in the insertion
      order, the sort returns the insertion order itself. */
  lemma OrderedByInsertion(d: Decomposer)
    requires d.Valid()
    requires forall i, dep ::
      0 <= i < |d.tasks.keys| && dep in d.tasks.values[d.tasks.keys[i]].dependencies && dep in d.tasks.values
      ==> dep in d.tasks.keys[..i]
    ensures ExecutionOrder(d) == Ok(d.tasks.keys)
  {
    assert d.tasks.keys[..0] == [];
    assert Topological(d.tasks.values, d.tasks.keys);
    VisitAllInOrder(d.tasks.values, d.tasks.keys, 0);
  }

  function SimpleId(i: nat): string {
    SimplePrefix + NatToString(i + 1)
  }

  function SimpleDeps(i: nat): seq<string> {
    if i > 0 then [SimpleId(i - 1)] else []
  }

  function SimpleTask(descriptions: seq<string>, i: nat): Task
    requires i < |descriptions|
  {
    Task(SimpleId(i), SubtaskWord + NatToString(i + 1), descriptions[i], SimpleDeps(i), Pending, None, None)
  }

  lemma PrefixCancel(p: string, a: string, b: string)
    requires p + a == p + b
    ensures a == b
  {
    assert a == (p + a)[|p|..];
    assert b == (p + b)[|p|..];
  }

  lemma SimpleIdInjective(a: nat, b: nat)
    requires SimpleId(a) == SimpleId(b)
    ensures a == b
  {
    PrefixCancel(SimplePrefix, NatToString(a + 1), NatToString(b + 1));
    NatToStringInjective(a + 1, b + 1);
  }

  /** The first `n` steps of `create_simple_decomposition`. */
  function SimpleUpTo(descriptions: seq<string>, n: nat): (d: Decomposer)
    requires n <= |descriptions|
    ensures d.Valid()
  {
    if n == 0 then NewDecomposer()
    else
      var t := SimpleTask(descriptions, n - 1);
      AddTask(SimpleUpTo(descriptions, n - 1), t.id, t.title, t.description, t.dependencies)
  }

  /** `create_simple_decomposition`: task_1 ... task_n, each after the one
      before. The main task description is not stored. */
  function SimpleDecomposition(mainTask: string, descriptions: seq<string>): (d: Decomposer)
    ensures d.Valid()
  {
    SimpleUpTo(descriptions, |descriptions|)
  }

  function SimpleIds(n: nat): (ids: seq<string>)
    ensures |ids| == n && forall i :: 0 <= i < n ==> ids[i] == SimpleId(i)
  {
    if n == 0 then [] else SimpleIds(n - 1) + [SimpleId(n - 1)]
  }

  /** The next id is not among the earlier ones. */
  lemma SimpleIdFresh(n: nat)
    ensures SimpleId(n) !in SimpleIds(n)
  {
    var ids := SimpleIds(n);
    forall i | 0 <= i < n ensures ids[i] != SimpleId(n) {
      if ids[i] == SimpleId(n) {
        SimpleIdInjective(i, n);
      }
    }
  }

  lemma {:induction false} SimpleUpToKeys(descriptions: seq<string>, n: nat)
    requires n <= |descriptions|
    ensures SimpleUpTo(descriptions, n).tasks.keys == SimpleIds(n)
  {
    if n > 0 {
      SimpleUpToKeys(descriptions, n - 1);
      SimpleIdFresh(n - 1);
    }
  }

  lemma {:induction false} SimpleUpToValues(descriptions: seq<string>, n: nat, i: nat)
    requires i < n <= |descriptions|
    ensures SimpleId(i) in SimpleUpTo(descriptions, n).tasks.values
    ensures SimpleUpTo(descriptions, n).tasks.values[SimpleId(i)] == SimpleTask(descriptions, i)
  {
    var prev := SimpleUpTo(descriptions, n - 1);
    var t := SimpleTask(descriptions, n - 1);
    if i < n - 1 {
      SimpleUpToValues(descriptions, n - 1, i);
      if SimpleId(i) == SimpleId(n - 1) {
        SimpleIdInjective(i, n - 1);
      }
      assert AddTask(prev, t.id, t.title, t.description, t.dependencies).tasks.Get(SimpleId(i)) == prev.tasks.Get(SimpleId(i));
    }
  }

  /** Every task of the simple decomposition is the one built for its
      position. */
  lemma SimpleTasksAt(mainTask: string, descriptions: seq<string>)
    ensures var d := SimpleDecomposition(mainTask, descriptions);
      && d.tasks.keys == SimpleIds(|descriptions|)
      && forall i :: 0 <= i < |descriptions| ==> d.tasks.values[d.tasks.keys[i]] == SimpleTask(descriptions, i)
  {
    var d := SimpleDecomposition(mainTask, descriptions);
    SimpleUpToKeys(descriptions, |descriptions|);
    forall i | 0 <= i < |descriptions|
      ensures d.tasks.values[d.tasks.keys[i]] == SimpleTask(descriptions, i)
    {
      SimpleUpToValues(descriptions, |descriptions|, i);
    }
  }

  /** Each task of the simple decomposition depends only on an earlier one. */
  lemma SimpleDependenciesEarlier(mainTask: string, descriptions: seq<string>)
    ensures var d := SimpleDecomposition(mainTask, descriptions);
      forall i, dep ::
        0 <= i < |d.tasks.keys| && dep in d.tasks.values[d.tasks.keys[i]].dependencies && dep in d.tasks.values
        ==> dep in d.tasks.keys[..i]
  {
    var d := SimpleDecomposition(mainTask, descriptions);
    SimpleTasksAt(mainTask, descriptions);
    var keys := d.tasks.keys;
    forall i, dep | 0 <= i < |keys| && dep in d.tasks.values[keys[i]].dependencies && dep in d.tasks.values
      ensures dep in keys[..i]
    {
      assert d.tasks.values[keys[i]] == SimpleTask(descriptions, i);
      assert dep == keys[i - 1];
      assert keys[..i][i - 1] == keys[i - 1];
    }
  }

  /** The simple decomposition holds task_1 ... task_n in that order, task_k
      depending on task_(k-1) alone, and is executed in exactly that order. */
  lemma SimpleDecompositionOrder(mainTask: string, descriptions: seq<string>)
    ensures var d := SimpleDecomposition(mainTask, descriptions);
      && |d.tasks.keys| == |descriptions|
      && (forall i :: 0 <= i < |descriptions| ==> d.tasks.keys[i] == SimplePrefix + NatToString(i + 1))
      && (forall i :: 0 < i < |descriptions| ==> d.tasks.values[d.tasks.keys[i]].dependencies == [d.tasks.keys[i - 1]])
      && ExecutionOrder(d) == Ok(d.tasks.keys)
  {
    var d := SimpleDecomposition(mainTask, descriptions);
    SimpleTasksAt(mainTask, descriptions);
    SimpleDependenciesEarlier(mainTask, descriptions);
    OrderedByInsertion(d);
  }

  function ParallelId(i: nat): string {
    ParallelPrefix + NatToString(i + 1)
  }

  function ParallelIds(n: nat): (ids: seq<string>)
    ensures |ids| == n && forall i :: 0 <= i < n ==> ids[i] == ParallelId(i)
  {
    if n == 0 then [] else ParallelIds(n - 1) + [ParallelId(n - 1)]
  }

  /** The next id is not among the earlier ones. */
  lemma ParallelIdFresh(n: nat)
    ensures ParallelId(n) !in ParallelIds(n)
  {
    var ids := ParallelIds(n);
    forall i | 0 <= i < n ensures ids[i] != ParallelId(n) {
      if ids[i] == ParallelId(n) {
        ParallelIdInjective(i, n);
      }
    }
  }

  function ParallelTask(descriptions: seq<string>, i: nat): Task
    requires i < |descriptions|
  {
    Task(ParallelId(i), ParallelStepWord + NatToString(i + 1), descriptions[i], [], Pending, None, None)
  }

  function ParallelUpTo(descriptions: seq<string>, n: nat): (d: Decomposer)
    requires n <= |descriptions|
    ensures d.Valid()
  {
    if n == 0 then NewDecomposer()
    else
      var t := ParallelTask(descriptions, n - 1);
      AddTask(ParallelUpTo(descriptions, n - 1), t.id, t.title, t.description, t.dependencies)
  }

  /** `create_parallel_decomposition`: independent parallel tasks and, when a
      non-empty final task is given, a "final_task" that depends on all of
      them. */
  function ParallelDecomposition(mainTask: string, descriptions: seq<string>, finalTask: Option<string>): (d: Decomposer)
    ensures d.Valid()
  {
    var p := ParallelUpTo(descriptions, |descriptions|);
    if finalTask.Some? && |finalTask.value| > 0 then
      AddTask(p, FinalTaskId, FinalTaskTitle, finalTask.value, ParallelIds(|descriptions|))
    else p
  }

  lemma ParallelIdInjective(a: nat, b: nat)
    requires ParallelId(a) == ParallelId(b)
    ensures a == b
  {
    PrefixCancel(ParallelPrefix, NatToString(a + 1), NatToString(b + 1));
    NatToStringInjective(a + 1, b + 1);
  }

  lemma {:induction false} ParallelUpToKeys(descriptions: seq<string>, n: nat)
    requires n <= |descriptions|
    ensures ParallelUpTo(descriptions, n).tasks.keys == ParallelIds(n)
  {
    if n > 0 {
      ParallelUpToKeys(descriptions, n - 1);
      ParallelIdFresh(n - 1);
    }
  }

  lemma {:induction false} ParallelUpToValues(descriptions: seq<string>, n: nat, i: nat)
    requires i < n <= |descriptions|
    ensures ParallelId(i) in ParallelUpTo(descriptions, n).tasks.values
    ensures ParallelUpTo(descriptions, n).tasks.values[ParallelId(i)] == ParallelTask(descriptions, i)
  {
    var prev := ParallelUpTo(descriptions, n - 1);
    var t := ParallelTask(descriptions, n - 1);
    if i < n - 1 {
      ParallelUpToValues(descriptions, n - 1, i);
      if ParallelId(i) == ParallelId(n - 1) {
        ParallelIdInjective(i, n - 1);
      }
      assert AddTask(prev, t.id, t.title, t.description, t.dependencies).tasks.Get(ParallelId(i)) == prev.tasks.Get(ParallelId(i));
    }
  }

  /** The parallel tasks have no dependencies, the final task (when present)
      comes last and depends on every parallel task, and the execution order
      is the insertion order. */
  lemma ParallelDecompositionShape(mainTask: string, descriptions: seq<string>, finalTask: Option<string>)
    ensures var d := ParallelDecomposition(mainTask, descriptions, finalTask);
      var n := |descriptions|;
      var hasFinal := finalTask.Some? && |finalTask.value| > 0;
      && d.tasks.keys == ParallelIds(n) + (if hasFinal then [FinalTaskId] else [])
      && (forall i :: 0 <= i < n ==> d.tasks.values[ParallelId(i)].dependencies == [])
      && (hasFinal ==> d.tasks.values[FinalTaskId].dependencies == ParallelIds(n))
      && ExecutionOrder(d) == Ok(d.tasks.keys)
  {
    var n := |descriptions|;
    ParallelUpToKeys(descriptions, n);
    var p := ParallelUpTo(descriptions, n);
    forall i | 0 <= i < n
      ensures ParallelId(i) in p.tasks.values && p.tasks.values[ParallelId(i)].dependencies == []
    {
      ParallelUpToValues(descriptions, n, i);
    }
    if finalTask.Some? && |finalTask.value| > 0 {
      WithFinalTask(p, n, finalTask.value);
    } else {
      IndependentInOrder(p, n);
    }
  }

  /** Tasks without dependencies are executed in insertion order. */
  lemma IndependentInOrder(p: Decomposer, n: nat)
    requires p.Valid() && p.tasks.keys == ParallelIds(n)
    requires forall i :: 0 <= i < n ==> ParallelId(i) in p.tasks.values && p.tasks.values[ParallelId(i)].dependencies == []
    ensures ExecutionOrder(p) == Ok(p.tasks.keys)
  {
    OrderedByInsertion(p);
  }

  lemma WithFinalTask(p: Decomposer, n: nat, final: string)
    requires p.Valid() && p.tasks.keys == ParallelIds(n)
    requires forall i :: 0 <= i < n ==> ParallelId(i) in p.tasks.values && p.tasks.values[ParallelId(i)].dependencies == []
    ensures var d := AddTask(p, FinalTaskId, FinalTaskTitle, final, ParallelIds(n));
      && d.tasks.keys == ParallelIds(n) + [FinalTaskId]
      && (forall i :: 0 <= i < n ==> d.tasks.values[ParallelId(i)].dependencies == [])
      && d.tasks.values[FinalTaskId].dependencies == ParallelIds(n)
      && ExecutionOrder(d) == Ok(d.tasks.keys)
  {
    var d := AddTask(p, FinalTaskId, FinalTaskTitle, final, ParallelIds(n));
    FinalIdFresh(n);
    forall i | 0 <= i < n
      ensures d.tasks.values[ParallelId(i)].dependencies == []
    {
      assert d.tasks.Get(ParallelId(i)) == p.tasks.Get(ParallelId(i));
    }
    FinalLast(d, n);
    OrderedByInsertion(d);
  }

  /** No parallel id is the final task's id. */
  lemma FinalIdFresh(n: nat)
    ensures FinalTaskId !in ParallelIds(n)
    ensures forall i :: 0 <= i < n ==> ParallelId(i) != FinalTaskId
  {
    forall i | 0 <= i < n
      ensures ParallelId(i) != FinalTaskId
    {
      assert ParallelId(i)[0] == ParallelPrefix[0];
    }
  }

  /** Independent tasks followed by one that needs them all are listed in an
      order where every dependency comes first. */
  lemma FinalLast(d: Decomposer, n: nat)
    requires d.Valid() && d.tasks.keys == ParallelIds(n) + [FinalTaskId]
    requires forall i :: 0 <= i < n ==> d.tasks.values[ParallelId(i)].dependencies == []
    requires d.tasks.values[FinalTaskId].dependencies == ParallelIds(n)
    ensures forall i, dep ::
      0 <= i < |d.tasks.keys| && dep in d.tasks.values[d.tasks.keys[i]].dependencies && dep in d.tasks.values
      ==> dep in d.tasks.keys[..i]
  {
    var keys := d.tasks.keys;
    forall i, dep | 0 <= i < |keys| && dep in d.tasks.values[keys[i]].dependencies && dep in d.tasks.values
      ensures dep in keys[..i]
    {
      assert i == n;
      assert keys[..i] == ParallelIds(n);
    }
  }

  // ---------------------------------------------------------------------
  // Complexity analysis
  // ---------------------------------------------------------------------

  const HighIndicators: seq<string> := ["analyze", "research", "compare", "evaluate", "design", "plan", "strategy"]
  const MediumIndicators: seq<string> := ["create", "write", "implement", "develop", "build"]
  const LowIndicators: seq<string> := ["list", "summarize", "explain", "describe", "define"]
  const SequentialIndicators: seq<string> := ["first", "then", "next", "after", "finally", "step"]
  const ParallelIndicators: seq<string> := ["simultaneously", "parallel", "concurrent", "meanwhile"]

  /** `min(max(2, words // 20), 8)`. */
  function EstimatedSubtasks(words: nat): (n: nat)
    ensures 2 <= n <= 8
  {
    Min(Max(2, words / 20), 8)
  }

  /** More words never suggest fewer subtasks; under 60 words give 2 and 160
      or more give 8. */
  lemma EstimatedSubtasksMonotone(a: nat, b: nat)
    requires a <= b
    ensures EstimatedSubtasks(a) <= EstimatedSubtasks(b)
    ensures a < 60 ==> EstimatedSubtasks(a) == 2
    ensures b >= 160 ==> EstimatedSubtasks(b) == 8
  {
    assert a / 20 <= b / 20;
  }

  const HighLabel: string := "high"
  const MediumLabel: string := "medium"
  const LowLabel: string := "low"
  const Mixed: string := "mixed"
  const Simple: string := "simple"
  const Sequential: string := "sequential"
  const Parallel: string := "parallel"
  const RecommendWord: string := "Recommend "
  const DecompositionWith: string := " decomposition with ~"
  const SubtasksWord: string := " subtasks"

  datatype ComplexityAnalysis = ComplexityAnalysis(
    complexity: string, decompositionType: string, estimatedSubtasks: nat,
    hasSequential: bool, hasParallel: bool, wordCount: nat, suggestion: string)

  /** `analyze_task_complexity`: the first level (high, medium, low) with an
      indicator in the lowered description, else low; the decomposition kind
      from the two indicator lists; a subtask estimate from the word count. */
  function AnalyzeTaskComplexity(description: string): (a: ComplexityAnalysis)
    ensures var text := Lower(description);
      && (a.complexity == HighLabel <==> AnyPresent(HighIndicators, text))
      && (a.complexity == MediumLabel <==> !AnyPresent(HighIndicators, text) && AnyPresent(MediumIndicators, text))
      && (a.complexity == LowLabel <==> !AnyPresent(HighIndicators, text) && !AnyPresent(MediumIndicators, text))
    ensures a.decompositionType == Mixed <==> a.hasSequential && a.hasParallel
    ensures a.decompositionType == Simple <==> !a.hasSequential && !a.hasParallel
    ensures a.decompositionType == Sequential <==> a.hasSequential && !a.hasParallel
    ensures a.decompositionType == Parallel <==> !a.hasSequential && a.hasParallel
    ensures a.hasSequential == AnyPresent(SequentialIndicators, Lower(description))
    ensures a.hasParallel == AnyPresent(ParallelIndicators, Lower(description))
    ensures a.wordCount == WordCount(description)
    ensures a.estimatedSubtasks == EstimatedSubtasks(a.wordCount)
    ensures a.suggestion == RecommendWord + a.decompositionType + DecompositionWith
                            + NatToString(a.estimatedSubtasks) + SubtasksWord
  {
    var text := Lower(description);
    var complexity :=
      if AnyPresent(HighIndicators, text) then HighLabel
      else if AnyPresent(MediumIndicators, text) then MediumLabel
      else LowLabel;
    var sequential := AnyPresent(SequentialIndicators, text);
    var parallel := AnyPresent(ParallelIndicators, text);
    var kind :=
      if sequential && parallel then Mixed
      else if sequential then Sequential
      else if parallel then Parallel
      else Simple;
    var words := WordCount(description);
    var n := EstimatedSubtasks(words);
    ComplexityAnalysis(complexity, kind, n, sequential, parallel, words,
                       RecommendWord + kind + DecompositionWith + NatToString(n) + SubtasksWord)
  }

  /** Text appended to a description can raise but never lower what the
      analysis sees: an indicator found stays found, a high rating stays high
      and a low rating of the longer text was already low. */
  lemma ComplexityGrowsWithText(a: string, b: string)
    ensures var x, y := AnalyzeTaskComplexity(a), AnalyzeTaskComplexity(a + b);
      && (x.hasSequential ==> y.hasSequential)
      && (x.hasParallel ==> y.hasParallel)
      && (x.complexity == HighLabel ==> y.complexity == HighLabel)
      && (y.complexity == LowLabel ==> x.complexity == LowLabel)
  {
    LowerAppend(a, b);
    forall k ensures Contains(Lower(a), k) ==> Contains(Lower(a + b), k) {
      ContainsAppend(Lower(a), Lower(b), k);
    }
  }
}
