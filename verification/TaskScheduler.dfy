/**
 The task ordering of `idf.py`: requested commands, their dependencies and their order-only
 dependencies become one run queue.
 */
module TaskScheduler {
  import opened Bytes

  type Name = string

  /** A command object; two requests of one command differ in `id`. */
  datatype Task = Task(name: Name, id: nat)

  /** Dependencies and order-only dependencies of every command. */
  datatype Graph = Graph(deps: map<Name, seq<Name>>, order: map<Name, seq<Name>>) {
    function Deps(n: Name): (d: seq<Name>) {
      if n in deps then deps[n] else []
    }

    function Order(n: Name): (d: seq<Name>) {
      if n in order then order[n] else []
    }
  }

  /** The loop's variables: unprocessed tasks, the run queue, and the next id for a task added by default. */
  datatype State = State(tasks: seq<Task>, run: seq<Task>, nextId: nat)

  function Names(ts: seq<Task>): (s: set<Name>) {
    set t | t in ts :: t.name
  }

  /** `dict` over the list: the last task of a name wins. */
  function Dict(ts: seq<Task>): (d: map<Name, Task>)
    ensures d.Keys == Names(ts)
    ensures forall n :: n in d ==> d[n] in ts && d[n].name == n
  {
    if ts == [] then map[]
    else
      var d := Dict(ts[..|ts| - 1]);
      var t := ts[|ts| - 1];
      assert ts == ts[..|ts| - 1] + [t];
      d[t.name := t]
  }

  function IndexOf(ts: seq<Task>, t: Task): (i: nat)
    requires t in ts
    ensures i < |ts| && ts[i] == t
  {
    if ts[0] == t then 0 else 1 + IndexOf(ts[1..], t)
  }

  function Remove(ts: seq<Task>, t: Task): (r: seq<Task>)
    requires t in ts
    ensures |r| == |ts| - 1
    ensures multiset(r) == multiset(ts) - multiset{t}
  {
    var i := IndexOf(ts, t);
    assert ts == ts[..i] + [t] + ts[i + 1..];
    ts[..i] + ts[i + 1..]
  }

  /** `tasks.insert(0, tasks.pop(tasks.index(t)))` */
  function ToFront(ts: seq<Task>, t: Task): (r: seq<Task>)
    requires t in ts
    ensures |r| == |ts| && multiset(r) == multiset(ts) && r[0] == t
  {
    [t] + Remove(ts, t)
  }

  /** One dependency of the front task: put in front unless it already runs. */
  function Pull(dep: Name, dict: map<Name, Task>, s: State): (s': State)
    requires forall n :: n in dict ==> dict[n] in s.tasks
  {
    if dep in Names(s.run) then s
    else if dep in dict then s.(tasks := ToFront(s.tasks, dict[dep]))
    else State([Task(dep, s.nextId)] + s.tasks, s.run, s.nextId + 1)
  }

  /** One order-only dependency: put in front if it was listed and does not run yet. */
  function PullListed(dep: Name, dict: map<Name, Task>, s: State): (s': State)
    requires forall n :: n in dict ==> dict[n] in s.tasks
  {
    if dep in dict && dep !in Names(s.run) then s.(tasks := ToFront(s.tasks, dict[dep])) else s
  }

  lemma PullFacts(dep: Name, dict: map<Name, Task>, s: State)
    requires forall n :: n in dict ==> dict[n] in s.tasks && dict[n].name == n
    ensures var s' := Pull(dep, dict, s);
            && s'.run == s.run
            && (forall t :: t in s.tasks ==> t in s'.tasks)
            && Names(s'.tasks) == (if dep in Names(s.run) then Names(s.tasks) else Names(s.tasks) + {dep})
            && (dep in Names(s.run) ==> s' == s)
            && (dep !in Names(s.run) ==> s'.tasks != [] && s'.tasks[0].name == dep)
            && (dep in dict ==> |s'.tasks| == |s.tasks|)
  {
  }

  lemma PullListedFacts(dep: Name, dict: map<Name, Task>, s: State)
    requires forall n :: n in dict ==> dict[n] in s.tasks && dict[n].name == n
    ensures var s' := PullListed(dep, dict, s);
            && s'.run == s.run && s'.nextId == s.nextId && |s'.tasks| == |s.tasks|
            && (forall t :: t in s.tasks <==> t in s'.tasks)
            && Names(s'.tasks) == Names(s.tasks)
            && (dep !in dict || dep in Names(s.run) ==> s' == s)
            && (dep in dict && dep !in Names(s.run) ==> s'.tasks != [] && s'.tasks[0].name == dep)
  {
  }

  // ---- One turn of the loop ----

  ghost predicate DictOf(dict: map<Name, Task>, ts: seq<Task>) {
    forall n :: n in dict ==> dict[n] in ts && dict[n].name == n
  }

  function PullAll(deps: seq<Name>, dict: map<Name, Task>, s: State): (s': State)
    requires DictOf(dict, s.tasks)
    decreases |deps|
  {
    if deps == [] then s
    else
      PullFacts(deps[0], dict, s);
      PullAll(deps[1..], dict, Pull(deps[0], dict, s))
  }

  function PullListedAll(deps: seq<Name>, dict: map<Name, Task>, s: State): (s': State)
    requires DictOf(dict, s.tasks)
    decreases |deps|
  {
    if deps == [] then s
    else
      PullListedFacts(deps[0], dict, s);
      PullListedAll(deps[1..], dict, PullListed(deps[0], dict, s))
  }

  /** Dependencies that are not in the run queue. */
  function Missing(deps: seq<Name>, run: seq<Task>): (m: set<Name>) {
    set d | d in deps && d !in Names(run)
  }

  lemma {:induction false} PullAllFacts(deps: seq<Name>, dict: map<Name, Task>, s: State)
    requires DictOf(dict, s.tasks)
    ensures var s' := PullAll(deps, dict, s);
            && s'.run == s.run
            && (forall t :: t in s.tasks ==> t in s'.tasks)
            && Names(s'.tasks) == Names(s.tasks) + Missing(deps, s.run)
            && (Missing(deps, s.run) == {} ==> s' == s)
            && (Missing(deps, s.run) != {} ==> s'.tasks != [] && s'.tasks[0].name in Missing(deps, s.run))
            && (Missing(deps, s.run) <= dict.Keys ==> |s'.tasks| == |s.tasks|)
    decreases |deps|
  {
    if deps != [] {
      PullFacts(deps[0], dict, s);
      MissingCons(deps, s.run);
      hide Pull, Names, Missing;
      PullAllFacts(deps[1..], dict, Pull(deps[0], dict, s));
    }
  }

  lemma MissingCons(deps: seq<Name>, run: seq<Task>)
    requires deps != []
    ensures Missing(deps, run) == Missing(deps[1..], run) + (if deps[0] in Names(run) then {} else {deps[0]})
  {
    assert deps == [deps[0]] + deps[1..];
  }

  /** Listed dependencies that are not in the run queue. */
  function Late(deps: seq<Name>, dict: map<Name, Task>, run: seq<Task>): (m: set<Name>) {
    set d | d in deps && d in dict && d !in Names(run)
  }

  lemma {:induction false} PullListedAllFacts(deps: seq<Name>, dict: map<Name, Task>, s: State)
    requires DictOf(dict, s.tasks)
    ensures var s' := PullListedAll(deps, dict, s);
            && s'.run == s.run && s'.nextId == s.nextId && |s'.tasks| == |s.tasks|
            && Names(s'.tasks) == Names(s.tasks)
            && (Late(deps, dict, s.run) == {} ==> s' == s)
            && (Late(deps, dict, s.run) != {} ==> s'.tasks != [] && s'.tasks[0].name in Late(deps, dict, s.run))
    decreases |deps|
  {
    if deps != [] {
      PullListedFacts(deps[0], dict, s);
      LateCons(deps, dict, s.run);
      hide PullListed, Names, Late;
      PullListedAllFacts(deps[1..], dict, PullListed(deps[0], dict, s));
    }
  }

  lemma LateCons(deps: seq<Name>, dict: map<Name, Task>, run: seq<Task>)
    requires deps != []
    ensures Late(deps, dict, run)
         == Late(deps[1..], dict, run) + (if deps[0] in dict && deps[0] !in Names(run) then {deps[0]} else {})
  {
    assert deps == [deps[0]] + deps[1..];
  }

  /** All dependencies run already, and no listed order-only dependency is still waiting. */
  predicate Settled(g: Graph, s: State)
    requires s.tasks != []
  {
    var n := s.tasks[0].name;
    Missing(g.Deps(n), s.run) == {} && Late(g.Order(n), Dict(s.tasks), s.run) == {}
  }

  function Round(g: Graph, s: State): (s': State)
    requires s.tasks != []
  {
    var task := s.tasks[0];
    if Settled(g, s) then
      State(s.tasks[1..], if task.name in Names(s.run) then s.run else s.run + [task], s.nextId)
    else
      var dict := Dict(s.tasks);
      PullAllFacts(g.Deps(task.name), dict, s);
      PullListedAll(g.Order(task.name), dict, PullAll(g.Deps(task.name), dict, s))
  }

  /** `rank` proves the union of both kinds of dependency acyclic. */
  ghost predicate Acyclic(g: Graph, rank: Name -> nat) {
    forall n, d :: d in g.Deps(n) || d in g.Order(n) ==> rank(d) < rank(n)
  }

  /** A set of names that contains the dependencies of its members. */
  ghost predicate Closed(g: Graph, c: set<Name>) {
    forall n, d :: n in c && d in g.Deps(n) ==> d in c
  }

  ghost function Seen(s: State): (c: set<Name>) {
    Names(s.tasks) + Names(s.run)
  }

  lemma NamesAppend(ts: seq<Task>, t: Task)
    ensures Names(ts + [t]) == Names(ts) + {t.name}
    ensures Names([t] + ts) == Names(ts) + {t.name}
  {
  }

  /** A turn that schedules the front task. */
  lemma SettledFacts(g: Graph, s: State)
    requires s.tasks != [] && Settled(g, s)
    ensures var s' := Round(g, s);
            s'.tasks == s.tasks[1..] && Seen(s') == Seen(s)
  {
  }

  /** A turn that puts dependencies in front: new names come from the front task's dependencies, and the
      new front task is one of its dependencies of either kind. */
  lemma PulledFacts(g: Graph, s: State)
    requires s.tasks != [] && !Settled(g, s)
    ensures var s', n := Round(g, s), s.tasks[0].name;
            && s'.run == s.run && s'.tasks != []
            && Names(s'.tasks) == Names(s.tasks) + Missing(g.Deps(n), s.run)
            && (s'.tasks[0].name in g.Deps(n) || s'.tasks[0].name in g.Order(n))
            && (Missing(g.Deps(n), s.run) <= Names(s.tasks) ==> |s'.tasks| == |s.tasks|)
  {
    var n, dict := s.tasks[0].name, Dict(s.tasks);
    var s1 := PullAll(g.Deps(n), dict, s);
    PullAllFacts(g.Deps(n), dict, s);
    PullListedAllFacts(g.Order(n), dict, s1);
    hide PullAll, PullListedAll, Names, Dict;
    assert Round(g, s) == PullListedAll(g.Order(n), dict, s1);
  }

  ghost function Unseen(all: set<Name>, s: State): (n: nat) {
    |all - Seen(s)|
  }

  function Height(rank: Name -> nat, s: State): (n: nat) {
    if s.tasks == [] then 0 else rank(s.tasks[0].name)
  }

  /** Every turn makes progress: fewer names unseen, or fewer tasks left, or a lower front task. */
  lemma RoundProgress(g: Graph, rank: Name -> nat, all: set<Name>, s: State)
    requires s.tasks != [] && Acyclic(g, rank) && Closed(g, all) && Names(s.tasks) <= all
    ensures var s' := Round(g, s);
            && Names(s'.tasks) <= all && Unseen(all, s') <= Unseen(all, s)
            && (Unseen(all, s') == Unseen(all, s) ==>
                  |s'.tasks| < |s.tasks| || (|s'.tasks| == |s.tasks| && Height(rank, s') < Height(rank, s)))
  {
    var s', n := Round(g, s), s.tasks[0].name;
    if Settled(g, s) {
      SettledFacts(g, s);
      hide Round;
      assert Names(s'.tasks) <= Names(s.tasks);
    } else {
      PulledFacts(g, s);
      hide Round, Settled;
      var added := Missing(g.Deps(n), s.run);
      assert n in Names(s.tasks);
      assert added <= all;
      assert Seen(s') == Seen(s) + added;
      if added <= Names(s.tasks) {
        assert Seen(s') == Seen(s);
      } else {
        var d :| d in added && d !in Names(s.tasks);
        assert d in all - Seen(s);
        assert all - Seen(s') <= (all - Seen(s)) - {d};
        SubsetSize(all - Seen(s'), (all - Seen(s)) - {d});
      }
    }
  }

  /** The whole loop. */
  ghost function Schedule(g: Graph, rank: Name -> nat, all: set<Name>, s: State): (run: seq<Task>)
    requires Acyclic(g, rank) && Closed(g, all) && Names(s.tasks) <= all
    decreases Unseen(all, s), |s.tasks|, Height(rank, s)
  {
    if s.tasks == [] then s.run
    else
      RoundProgress(g, rank, all, s);
      Schedule(g, rank, all, Round(g, s))
  }

  // ---- What the run queue is ----

  ghost predicate Distinct(run: seq<Task>) {
    forall i, j :: 0 <= i < j < |run| ==> run[i].name != run[j].name
  }

  /** Every task comes after all its dependencies, and after those order-only dependencies that were
      requested. */
  ghost predicate Ordered(g: Graph, run: seq<Task>, requested: set<Name>) {
    forall k :: 0 <= k < |run| ==> OrderedAt(g, run, requested, k)
  }

  ghost predicate OrderedAt(g: Graph, run: seq<Task>, requested: set<Name>, k: nat)
    requires k < |run|
  {
    && (forall d :: d in g.Deps(run[k].name) ==> d in Names(run[..k]))
    && (forall d :: d in g.Order(run[k].name) && d in requested ==> d in Names(run[..k]))
  }

  ghost predicate LoopInv(g: Graph, s: State, requested: set<Name>) {
    && Distinct(s.run) && Ordered(g, s.run, requested) && requested <= Seen(s)
    && (forall c :: Closed(g, c) && requested <= c ==> Seen(s) <= c)
  }

  lemma AppendOrdered(g: Graph, run: seq<Task>, t: Task, requested: set<Name>)
    requires Distinct(run) && Ordered(g, run, requested) && t.name !in Names(run)
    requires forall d :: d in g.Deps(t.name) ==> d in Names(run)
    requires forall d :: d in g.Order(t.name) && d in requested ==> d in Names(run)
    ensures Distinct(run + [t]) && Ordered(g, run + [t], requested)
  {
    var r := run + [t];
    forall k | 0 <= k < |r|
      ensures OrderedAt(g, r, requested, k)
    {
      if k < |run| {
        assert r[..k] == run[..k] && OrderedAt(g, run, requested, k);
      } else {
        assert r[..k] == run;
      }
    }
    forall i, j | 0 <= i < j < |r|
      ensures r[i].name != r[j].name
    {
      if j == |run| {
        assert run[i] in run;
      }
    }
  }

  lemma RoundKeepsInv(g: Graph, s: State, requested: set<Name>)
    requires s.tasks != [] && LoopInv(g, s, requested)
    ensures LoopInv(g, Round(g, s), requested)
  {
    var s', task := Round(g, s), s.tasks[0];
    assert task.name in Names(s.tasks);
    if Settled(g, s) {
      SettledFacts(g, s);
      if task.name !in Names(s.run) {
        forall d | d in g.Deps(task.name)
          ensures d in Names(s.run)
        {
          assert d !in Missing(g.Deps(task.name), s.run);
        }
        forall d | d in g.Order(task.name) && d in requested
          ensures d in Names(s.run)
        {
          assert d !in Late(g.Order(task.name), Dict(s.tasks), s.run);
        }
        AppendOrdered(g, s.run, task, requested);
      }
    } else {
      PulledFacts(g, s);
      hide Round, Settled;
      assert Seen(s') == Seen(s) + Missing(g.Deps(task.name), s.run);
    }
  }

  /** The loop ends, and its queue holds each requested task and each transitive dependency exactly once,
      nothing else, every task behind its dependencies. */
  lemma {:induction false} ScheduleCorrect(g: Graph, rank: Name -> nat, all: set<Name>, s: State, requested: set<Name>)
    requires Acyclic(g, rank) && Closed(g, all) && Names(s.tasks) <= all && LoopInv(g, s, requested)
    ensures var run := Schedule(g, rank, all, s);
            && Distinct(run) && Ordered(g, run, requested)
            && requested <= Names(run) && Closed(g, Names(run))
            && (forall c :: Closed(g, c) && requested <= c ==> Names(run) <= c)
    decreases Unseen(all, s), |s.tasks|, Height(rank, s)
  {
    if s.tasks == [] {
      assert Seen(s) == Names(s.run);
      OrderedIsClosed(g, s.run, requested);
    } else {
      RoundProgress(g, rank, all, s);
      RoundKeepsInv(g, s, requested);
      hide Round, LoopInv;
      ScheduleCorrect(g, rank, all, Round(g, s), requested);
    }
  }

  lemma OrderedIsClosed(g: Graph, run: seq<Task>, requested: set<Name>)
    requires Ordered(g, run, requested)
    ensures Closed(g, Names(run))
  {
    forall n, d | n in Names(run) && d in g.Deps(n)
      ensures d in Names(run)
    {
      var k :| 0 <= k < |run| && run[k].name == n;
      assert OrderedAt(g, run, requested, k);
      assert forall t :: t in run[..k] ==> t in run;
    }
  }

  /** The ordering loop of `execute_tasks`. */
  method OrderTasks(g: Graph, requested: seq<Task>, firstId: nat, ghost rank: Name -> nat, ghost all: set<Name>)
    returns (run: seq<Task>)
    requires Acyclic(g, rank) && Closed(g, all) && Names(requested) <= all
    ensures run == Schedule(g, rank, all, State(requested, [], firstId))
    ensures Distinct(run) && Ordered(g, run, Names(requested))
    ensures Names(requested) <= Names(run) && Closed(g, Names(run))
    ensures forall c :: Closed(g, c) && Names(requested) <= c ==> Names(run) <= c
  {
    var tasks := requested;
    run := [];
    var nextId := firstId;
    ghost var init := State(requested, [], firstId);
    ScheduleRight(g, rank, all, init);
    hide Acyclic, Closed, Distinct, Ordered, Names, Unseen, Height, Round, Schedule;
    while tasks != []
      invariant Names(tasks) <= all
      invariant Schedule(g, rank, all, State(tasks, run, nextId)) == Schedule(g, rank, all, init)
      decreases Unseen(all, State(tasks, run, nextId)), |tasks|, Height(rank, State(tasks, run, nextId))
    {
      ghost var s := State(tasks, run, nextId);
      RoundProgress(g, rank, all, s);
      ScheduleTurn(g, rank, all, s);
      tasks, run, nextId := Turn(g, tasks, run, nextId);
    }
    ScheduleEnd(g, rank, all, State(tasks, run, nextId));
  }

  lemma ScheduleTurn(g: Graph, rank: Name -> nat, all: set<Name>, s: State)
    requires Acyclic(g, rank) && Closed(g, all) && Names(s.tasks) <= all && s.tasks != []
    ensures Names(Round(g, s).tasks) <= all && Schedule(g, rank, all, s) == Schedule(g, rank, all, Round(g, s))
  {
    hide Round;
    RoundProgress(g, rank, all, s);
  }

  lemma ScheduleEnd(g: Graph, rank: Name -> nat, all: set<Name>, s: State)
    requires Acyclic(g, rank) && Closed(g, all) && s.tasks == [] && Names(s.tasks) <= all
    ensures Schedule(g, rank, all, s) == s.run
  {
  }

  /** From a request, with nothing scheduled yet. */
  lemma ScheduleRight(g: Graph, rank: Name -> nat, all: set<Name>, s: State)
    requires Acyclic(g, rank) && Closed(g, all) && Names(s.tasks) <= all && s.run == []
    ensures var run, requested := Schedule(g, rank, all, s), Names(s.tasks);
            && Distinct(run) && Ordered(g, run, requested)
            && requested <= Names(run) && Closed(g, Names(run))
            && forall c :: Closed(g, c) && requested <= c ==> Names(run) <= c
  {
    assert Names([]) == {};
    ScheduleCorrect(g, rank, all, s, Names(s.tasks));
  }

  /** One turn. */
  method Turn(g: Graph, tasks0: seq<Task>, run0: seq<Task>, nextId0: nat)
    returns (tasks: seq<Task>, run: seq<Task>, nextId: nat)
    requires tasks0 != []
    ensures State(tasks, run, nextId) == Round(g, State(tasks0, run0, nextId0))
  {
    hide PullAll, PullListedAll, Missing, Late, Dict;
    var task, dict := tasks0[0], Dict(tasks0);
    var settled, due;
    tasks, nextId, settled := PullDeps(g.Deps(task.name), dict, tasks0, run0, nextId0);
    PullAllFacts(g.Deps(task.name), dict, State(tasks0, run0, nextId0));
    ghost var s1 := State(tasks, run0, nextId);
    PullListedAllFacts(g.Order(task.name), dict, s1);
    tasks, due := PullOrder(g.Order(task.name), dict, tasks, run0, nextId);
    run := run0;
    if settled && due {
      tasks := tasks[1..];
      if task.name !in Names(run) {
        run := run + [task];
      }
    }
  }

  /** The inner loop over the dependencies of the front task. */
  method PullDeps(deps: seq<Name>, dict: map<Name, Task>, tasks0: seq<Task>, run: seq<Task>, nextId0: nat)
    returns (tasks: seq<Task>, nextId: nat, settled: bool)
    requires DictOf(dict, tasks0)
    ensures State(tasks, run, nextId) == PullAll(deps, dict, State(tasks0, run, nextId0))
    ensures settled <==> Missing(deps, run) == {}
  {
    tasks, nextId, settled := tasks0, nextId0, true;
    assert deps[0..] == deps;
    for i := 0 to |deps|
      invariant DictOf(dict, tasks)
      invariant PullAll(deps[i..], dict, State(tasks, run, nextId)) == PullAll(deps, dict, State(tasks0, run, nextId0))
      invariant settled <==> Missing(deps[..i], run) == {}
    {
      var dep := deps[i];
      assert deps[i..][0] == dep && deps[i..][1..] == deps[i + 1..];
      MissingStep(deps, i, run);
      PullFacts(dep, dict, State(tasks, run, nextId));
      hide Missing;
      if dep !in Names(run) {
        if dep in dict {
          tasks := ToFront(tasks, dict[dep]);
        } else {
          tasks := [Task(dep, nextId)] + tasks;
          nextId := nextId + 1;
        }
        settled := false;
      }
    }
    assert deps[..|deps|] == deps;
  }

  /** The inner loop over its order-only dependencies. */
  method PullOrder(deps: seq<Name>, dict: map<Name, Task>, tasks0: seq<Task>, run: seq<Task>, ghost nextId: nat)
    returns (tasks: seq<Task>, due: bool)
    requires DictOf(dict, tasks0)
    ensures State(tasks, run, nextId) == PullListedAll(deps, dict, State(tasks0, run, nextId))
    ensures due <==> Late(deps, dict, run) == {}
  {
    tasks, due := tasks0, true;
    assert deps[0..] == deps;
    for i := 0 to |deps|
      invariant DictOf(dict, tasks)
      invariant PullListedAll(deps[i..], dict, State(tasks, run, nextId))
                == PullListedAll(deps, dict, State(tasks0, run, nextId))
      invariant due <==> Late(deps[..i], dict, run) == {}
    {
      var dep := deps[i];
      assert deps[i..][0] == dep && deps[i..][1..] == deps[i + 1..];
      LateStep(deps, i, dict, run);
      PullListedFacts(dep, dict, State(tasks, run, nextId));
      hide Late;
      if dep in dict && dep !in Names(run) {
        tasks := ToFront(tasks, dict[dep]);
        due := false;
      }
    }
    assert deps[..|deps|] == deps;
  }

  lemma MissingStep(deps: seq<Name>, i: nat, run: seq<Task>)
    requires i < |deps|
    ensures Missing(deps[..i + 1], run) == {} <==> Missing(deps[..i], run) == {} && deps[i] in Names(run)
  {
    assert deps[..i + 1] == deps[..i] + [deps[i]];
    assert Missing(deps[..i + 1], run)
        == Missing(deps[..i], run) + (if deps[i] in Names(run) then {} else {deps[i]});
  }

  lemma LateStep(deps: seq<Name>, i: nat, dict: map<Name, Task>, run: seq<Task>)
    requires i < |deps|
    ensures Late(deps[..i + 1], dict, run) == {}
            <==> Late(deps[..i], dict, run) == {} && !(deps[i] in dict && deps[i] !in Names(run))
  {
    assert deps[..i + 1] == deps[..i] + [deps[i]];
    assert Late(deps[..i + 1], dict, run)
        == Late(deps[..i], dict, run) + (if deps[i] in dict && deps[i] !in Names(run) then {deps[i]} else {});
  }
}
