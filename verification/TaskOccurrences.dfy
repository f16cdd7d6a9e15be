/**
 Which task runs when a command is requested more than once.  Every turn of the ordering loop that pulls the command
 moves the last of its occurrences to the front, so that the occurrences rotate.
 */
module TaskOccurrences {
  import opened Bytes
  import opened TaskScheduler

  function First(ts: seq<Task>, n: Name): (t: Option<Task>) {
    if ts == [] then None else if ts[0].name == n then Some(ts[0]) else First(ts[1..], n)
  }

  lemma {:induction false} FirstCat(a: seq<Task>, b: seq<Task>, n: Name)
    ensures First(a + b, n) == if First(a, n).Some? then First(a, n) else First(b, n)
    decreases |a|
  {
    if a == [] {
      assert a + b == b;
    } else {
      assert (a + b)[1..] == a[1..] + b;
      FirstCat(a[1..], b, n);
    }
  }

  lemma {:induction false} FirstNames(ts: seq<Task>, n: Name)
    ensures First(ts, n).Some? <==> n in Names(ts)
    decreases |ts|
  {
    if ts != [] {
      FirstNames(ts[1..], n);
      assert ts == [ts[0]] + ts[1..];
      NamesAppend(ts[1..], ts[0]);
    }
  }

  lemma FirstInPrefix(a: seq<Task>, ts: seq<Task>, n: Name)
    requires a <= ts && First(a, n).Some?
    ensures First(ts, n) == First(a, n)
  {
    assert ts == a + ts[|a|..];
    FirstCat(a, ts[|a|..], n);
  }

  lemma {:induction false} RunGrows(g: Graph, rank: Name -> nat, all: set<Name>, s: State)
    requires Acyclic(g, rank) && Closed(g, all) && Names(s.tasks) <= all
    ensures s.run <= Schedule(g, rank, all, s)
    decreases Unseen(all, s), |s.tasks|, Height(rank, s)
  {
    if s.tasks != [] {
      RoundProgress(g, rank, all, s);
      assert s.run <= Round(g, s).run by {
        if !Settled(g, s) {
          PulledFacts(g, s);
        }
      }
      hide Round;
      RunGrows(g, rank, all, Round(g, s));
    }
  }

  // ---- Occurrences ----

  /** The tasks called `n`, in order. */
  function Occ(ts: seq<Task>, n: Name): (o: seq<Task>) {
    if ts == [] then [] else (if ts[0].name == n then [ts[0]] else []) + Occ(ts[1..], n)
  }

  lemma {:induction false} OccCat(a: seq<Task>, b: seq<Task>, n: Name)
    ensures Occ(a + b, n) == Occ(a, n) + Occ(b, n)
    decreases |a|
  {
    if a == [] {
      assert a + b == b;
    } else {
      assert (a + b)[1..] == a[1..] + b && (a + b)[0] == a[0];
      OccCat(a[1..], b, n);
      var x := if a[0].name == n then [a[0]] else [];
      assert x + (Occ(a[1..], n) + Occ(b, n)) == (x + Occ(a[1..], n)) + Occ(b, n);
    }
  }

  lemma OccOne(t: Task, n: Name)
    ensures Occ([t], n) == if t.name == n then [t] else []
  {
    assert Occ([t][1..], n) == [];
  }

  /** The dictionary holds the last occurrence. */
  lemma {:induction false} OccDict(ts: seq<Task>, n: Name)
    ensures Occ(ts, n) != [] <==> n in Names(ts)
    ensures n in Names(ts) ==> Dict(ts)[n] == Occ(ts, n)[|Occ(ts, n)| - 1]
    decreases |ts|
  {
    if ts != [] {
      var front, last := ts[..|ts| - 1], ts[|ts| - 1];
      assert ts == front + [last];
      OccDict(front, n);
      OccCat(front, [last], n);
      OccOne(last, n);
      NamesAppend(front, last);
    }
  }

  /** The last one moved to the front. */
  function Rot(o: seq<Task>): (r: seq<Task>)
    requires o != []
    ensures |r| == |o|
  {
    [o[|o| - 1]] + o[..|o| - 1]
  }

  ghost predicate NoDup(o: seq<Task>) {
    forall i, j :: 0 <= i < j < |o| ==> o[i] != o[j]
  }

  lemma MoveShape(ts: seq<Task>, t: Task) returns (a: seq<Task>, b: seq<Task>)
    requires t in ts
    ensures ts == a + ([t] + b) && ToFront(ts, t) == [t] + (a + b)
  {
    var i := IndexOf(ts, t);
    a, b := ts[..i], ts[i + 1..];
  }

  lemma OccAround(ts: seq<Task>, t: Task, n: Name) returns (x: seq<Task>, y: seq<Task>)
    requires t in ts
    ensures Occ(ts, n) == x + (Occ([t], n) + y) && Occ(ToFront(ts, t), n) == Occ([t], n) + (x + y)
  {
    var a, b := MoveShape(ts, t);
    hide ToFront, Occ;
    OccCat(a, [t] + b, n);
    OccCat([t], b, n);
    OccCat([t], a + b, n);
    OccCat(a, b, n);
    x, y := Occ(a, n), Occ(b, n);
  }

  lemma LastAround(o: seq<Task>, x: seq<Task>, t: Task, y: seq<Task>)
    requires o == x + ([t] + y) && NoDup(o)
    ensures t == o[|o| - 1] ==> [t] + (x + y) == Rot(o)
    ensures t == o[0] ==> [t] + (x + y) == o
  {
    assert o[|x|] == t;
    if t == o[|o| - 1] {
      assert |x| == |o| - 1;
      assert o[..|o| - 1] == x && x + y == x;
    }
    if t == o[0] {
      assert |x| == 0;
      assert x + y == y;
    }
  }

  lemma OccAfterMove(ts: seq<Task>, t: Task, n: Name)
    requires t in ts
    ensures t.name != n ==> Occ(ToFront(ts, t), n) == Occ(ts, n)
    ensures var o := Occ(ts, n);
            t.name == n && NoDup(o) && o != [] ==>
              && (t == o[|o| - 1] ==> Occ(ToFront(ts, t), n) == Rot(o))
              && (t == o[0] ==> Occ(ToFront(ts, t), n) == o)
  {
    var x, y := OccAround(ts, t, n);
    OccOne(t, n);
    hide Occ, ToFront, NoDup;
    if t.name != n {
      assert [] + y == y && [] + (x + y) == x + y;
    } else if NoDup(Occ(ts, n)) {
      LastAround(Occ(ts, n), x, t, y);
    }
  }

  /** What pulling does to the occurrences of `n`: they turn once, however often `n` is named in the turn. */
  ghost predicate Turning(ts: seq<Task>, n: Name, o: seq<Task>, turned: bool)
    requires o != []
  {
    Occ(ts, n) == if turned then Rot(o) else o
  }

  lemma PullTurns(dep: Name, dict: map<Name, Task>, ts: seq<Task>, n: Name, o: seq<Task>, turned: bool)
    requires DictOf(dict, ts) && o != [] && NoDup(o) && dep in dict && (dep == n ==> dict[n] == o[|o| - 1])
    requires Turning(ts, n, o, turned)
    ensures Turning(ToFront(ts, dict[dep]), n, o, turned || dep == n)
  {
    RotNoDup(o);
    hide Occ, ToFront;
    OccAfterMove(ts, dict[dep], n);
  }

  lemma RotNoDup(o: seq<Task>)
    requires o != [] && NoDup(o)
    ensures NoDup(Rot(o)) && Rot(o)[0] == o[|o| - 1]
  {
  }

  /** The dictionary of the turn knows the last of the occurrences. */
  ghost predicate Pulling(dict: map<Name, Task>, s: State, n: Name, o: seq<Task>, turned: bool) {
    && DictOf(dict, s.tasks) && n !in Names(s.run)
    && o != [] && NoDup(o) && n in dict && dict[n] == o[|o| - 1] && Turning(s.tasks, n, o, turned)
  }

  lemma DictOfKept(dict: map<Name, Task>, ts: seq<Task>, ts': seq<Task>)
    requires DictOf(dict, ts) && forall t :: t in ts ==> t in ts'
    ensures DictOf(dict, ts')
  {
  }

  lemma OccPrepend(t: Task, ts: seq<Task>, n: Name)
    requires t.name != n
    ensures Occ([t] + ts, n) == Occ(ts, n)
  {
    assert ([t] + ts)[1..] == ts;
  }

  /** Pulling keeps the dictionary good. */
  lemma PullKeeps(dep: Name, dict: map<Name, Task>, s: State)
    requires DictOf(dict, s.tasks)
    ensures Pull(dep, dict, s).run == s.run && DictOf(dict, Pull(dep, dict, s).tasks)
    ensures PullListed(dep, dict, s).run == s.run && DictOf(dict, PullListed(dep, dict, s).tasks)
  {
    PullFacts(dep, dict, s);
    PullListedFacts(dep, dict, s);
    hide Pull, PullListed, Names;
    DictOfKept(dict, s.tasks, Pull(dep, dict, s).tasks);
    DictOfKept(dict, s.tasks, PullListed(dep, dict, s).tasks);
  }

  lemma PullOne(dep: Name, dict: map<Name, Task>, s: State, n: Name, o: seq<Task>, turned: bool)
    requires Pulling(dict, s, n, o, turned)
    ensures Pulling(dict, Pull(dep, dict, s), n, o, turned || dep == n)
  {
    hide Occ, NoDup, ToFront, Names, Rot;
    PullKeeps(dep, dict, s);
    if dep in Names(s.run) {
      assert Pull(dep, dict, s) == s && dep != n;
    } else if dep in dict {
      PullTurns(dep, dict, s.tasks, n, o, turned);
    } else {
      OccPrepend(Task(dep, s.nextId), s.tasks, n);
    }
  }

  lemma PullListedOne(dep: Name, dict: map<Name, Task>, s: State, n: Name, o: seq<Task>, turned: bool)
    requires Pulling(dict, s, n, o, turned)
    ensures Pulling(dict, PullListed(dep, dict, s), n, o, turned || dep == n)
  {
    hide Occ, NoDup, ToFront, Names, Rot;
    PullKeeps(dep, dict, s);
    if dep in dict && dep !in Names(s.run) {
      PullTurns(dep, dict, s.tasks, n, o, turned);
    } else {
      assert PullListed(dep, dict, s) == s && dep != n;
    }
  }

  lemma {:induction false} PullAllTurns(deps: seq<Name>, dict: map<Name, Task>, s: State, n: Name,
                                        o: seq<Task>, turned: bool)
    requires Pulling(dict, s, n, o, turned)
    ensures Pulling(dict, PullAll(deps, dict, s), n, o, turned || n in deps)
    decreases |deps|
  {
    if deps != [] {
      PullOne(deps[0], dict, s, n, o, turned);
      hide Pull, Turning, NoDup, Names;
      PullAllTurns(deps[1..], dict, Pull(deps[0], dict, s), n, o, turned || deps[0] == n);
    }
  }

  lemma {:induction false} PullListedAllTurns(deps: seq<Name>, dict: map<Name, Task>, s: State, n: Name,
                                              o: seq<Task>, turned: bool)
    requires Pulling(dict, s, n, o, turned)
    ensures Pulling(dict, PullListedAll(deps, dict, s), n, o, turned || n in deps)
    decreases |deps|
  {
    if deps != [] {
      PullListedOne(deps[0], dict, s, n, o, turned);
      hide PullListed, Turning, NoDup, Names;
      PullListedAllTurns(deps[1..], dict, PullListed(deps[0], dict, s), n, o, turned || deps[0] == n);
    }
  }

  // ---- The law ----

  /** A turn that pulls. */
  lemma UnsettledTurn(g: Graph, s: State, n: Name)
    requires s.tasks != [] && n in Names(s.tasks) && n !in Names(s.run) && NoDup(Occ(s.tasks, n)) && !Settled(g, s)
    ensures var s', o, m := Round(g, s), Occ(s.tasks, n), s.tasks[0].name;
            && o != [] && s'.run == s.run
            && Occ(s'.tasks, n) == if n in g.Deps(m) || n in g.Order(m) then Rot(o) else o
  {
    hide Occ, NoDup, PullAll, PullListedAll, Names, Settled, Rot;
    var o, m, dict := Occ(s.tasks, n), s.tasks[0].name, Dict(s.tasks);
    var s1 := PullAll(g.Deps(m), dict, s);
    OccDict(s.tasks, n);
    PullAllFacts(g.Deps(m), dict, s);
    PullListedAllFacts(g.Order(m), dict, s1);
    PullAllTurns(g.Deps(m), dict, s, n, o, false);
    PullListedAllTurns(g.Order(m), dict, s1, n, o, n in g.Deps(m));
    assert Round(g, s) == PullListedAll(g.Order(m), dict, s1);
  }

  /** One turn of the loop, as the occurrences of a command not yet scheduled see it. */
  lemma RoundTurns(g: Graph, s: State, n: Name)
    requires s.tasks != [] && n in Names(s.tasks) && n !in Names(s.run) && NoDup(Occ(s.tasks, n))
    ensures var s', o, m := Round(g, s), Occ(s.tasks, n), s.tasks[0].name;
            && o != []
            && (n in g.Deps(m) || n in g.Order(m) ==> s'.run == s.run && Occ(s'.tasks, n) == Rot(o))
            && (!(n in g.Deps(m) || n in g.Order(m)) && !(m == n && Settled(g, s)) ==>
                  n !in Names(s'.run) && Occ(s'.tasks, n) == o)
            && (m == n && Settled(g, s) ==> s'.run == s.run + [o[0]])
  {
    hide Occ, NoDup, Names, Settled, Rot, Round;
    OccDict(s.tasks, n);
    if Settled(g, s) {
      SettledTurn(g, s, n);
    } else {
      UnsettledTurn(g, s, n);
    }
  }

  lemma SettledTurn(g: Graph, s: State, n: Name)
    requires s.tasks != [] && n in Names(s.tasks) && n !in Names(s.run) && Settled(g, s)
    ensures var s', o, m := Round(g, s), Occ(s.tasks, n), s.tasks[0].name;
            && n !in g.Deps(m) && n !in g.Order(m)
            && (m == n ==> o != [] && s'.run == s.run + [o[0]])
            && (m != n ==> n !in Names(s'.run) && Occ(s'.tasks, n) == o)
  {
    hide Settled, Round, Dict, Names;
    SettledFree(g, s, n);
    SettledStep(g, s);
    NamesAppend(s.run, s.tasks[0]);
  }

  lemma SettledStep(g: Graph, s: State)
    requires s.tasks != [] && Settled(g, s)
    ensures var s', task := Round(g, s), s.tasks[0];
            && s'.tasks == s.tasks[1..]
            && s'.run == if task.name in Names(s.run) then s.run else s.run + [task]
  {
    hide Settled, Names, Dict, PullAll, PullListedAll;
  }

  /** What a front task without unmet dependencies depends on has run. */
  lemma SettledFree(g: Graph, s: State, n: Name)
    requires s.tasks != [] && n in Names(s.tasks) && n !in Names(s.run) && Settled(g, s)
    ensures n !in g.Deps(s.tasks[0].name) && n !in g.Order(s.tasks[0].name)
  {
    hide Names, Dict;
    var m := s.tasks[0].name;
    OccDict(s.tasks, n);
    assert n in g.Deps(m) ==> n in Missing(g.Deps(m), s.run);
    assert n in g.Order(m) ==> n in Late(g.Order(m), Dict(s.tasks), s.run);
  }

  /** How many turns pull `n` before it is scheduled. */
  ghost function Pulls(g: Graph, rank: Name -> nat, all: set<Name>, s: State, n: Name): (p: nat)
    requires Acyclic(g, rank) && Closed(g, all) && Names(s.tasks) <= all
    decreases Unseen(all, s), |s.tasks|, Height(rank, s)
  {
    if s.tasks == [] || n in Names(s.run) then 0
    else
      RoundProgress(g, rank, all, s);
      var m := s.tasks[0].name;
      (if n in g.Deps(m) || n in g.Order(m) then 1 else 0) + Pulls(g, rank, all, Round(g, s), n)
  }

  /** Which of `k` occurrences is in front after `p` turns. */
  function Turned(k: nat, p: nat): (i: nat)
    requires k > 0
    ensures i < k
  {
    if p == 0 then 0 else if Turned(k, p - 1) == 0 then k - 1 else Turned(k, p - 1) - 1
  }

  lemma {:induction false} TurnedClosed(k: nat, p: nat)
    requires k > 0
    ensures Turned(k, p) == (k - p % k) % k
  {
    if p == 0 {
      RemainderUnique(0, k, 0, 0);
      StepsBack(k, 0);
    } else {
      TurnedClosed(k, p - 1);
      NextRemainder(k, p - 1);
      StepsBack(k, (p - 1) % k);
      StepsBack(k, p % k);
    }
  }

  /** `r` steps back from the front of a circle of `k`. */
  lemma StepsBack(k: nat, r: nat)
    requires r < k
    ensures (k - r) % k == if r == 0 then 0 else k - r
  {
    if r == 0 {
      RemainderUnique(k, k, 1, 0);
    } else {
      RemainderUnique(k - r, k, 0, k - r);
    }
  }

  lemma NextRemainder(k: nat, p: nat)
    requires k > 0
    ensures (p + 1) % k == if p % k + 1 == k then 0 else p % k + 1
  {
    DivideBack(p, k);
    var q, r := p / k, p % k;
    if r + 1 < k {
      RemainderUnique(p + 1, k, q, r + 1);
    } else {
      MulSub(q + 1, 1, k);
      RemainderUnique(p + 1, k, q + 1, 0);
    }
  }

  lemma RotTurned(o: seq<Task>, p: nat)
    requires o != []
    ensures Rot(o)[Turned(|o|, p)] == o[Turned(|o|, p + 1)]
  {
  }

  /** The schedule and the count of pulls, one turn on. */
  lemma OneTurn(g: Graph, rank: Name -> nat, all: set<Name>, s: State, n: Name)
    requires Acyclic(g, rank) && Closed(g, all) && Names(s.tasks) <= all && s.tasks != [] && n !in Names(s.run)
    ensures var s', m := Round(g, s), s.tasks[0].name;
            && Names(s'.tasks) <= all && Schedule(g, rank, all, s) == Schedule(g, rank, all, s')
            && Pulls(g, rank, all, s, n)
               == (if n in g.Deps(m) || n in g.Order(m) then 1 else 0) + Pulls(g, rank, all, s', n)
  {
    hide Round, Acyclic, Closed;
    RoundProgress(g, rank, all, s);
  }

  /** Of the occurrences of `n`, the one that the number of pulls says runs. */
  ghost predicate Runs(g: Graph, rank: Name -> nat, all: set<Name>, s: State, n: Name)
    requires Acyclic(g, rank) && Closed(g, all) && Names(s.tasks) <= all
  {
    var o := Occ(s.tasks, n);
    o != [] && First(Schedule(g, rank, all, s), n) == Some(o[Turned(|o|, Pulls(g, rank, all, s, n))])
  }

  /** A command that is not scheduled in this turn. */
  lemma NotYet(g: Graph, s: State, n: Name)
    requires s.tasks != [] && n in Names(s.tasks) && n !in Names(s.run) && NoDup(Occ(s.tasks, n))
    requires !(s.tasks[0].name == n && Settled(g, s))
    ensures var s' := Round(g, s); n in Names(s'.tasks) && n !in Names(s'.run) && NoDup(Occ(s'.tasks, n))
  {
    RoundTurns(g, s, n);
    RotNoDup(Occ(s.tasks, n));
    OccDict(Round(g, s).tasks, n);
  }

  lemma RunsBefore(g: Graph, rank: Name -> nat, all: set<Name>, s: State, n: Name)
    requires Acyclic(g, rank) && Closed(g, all) && Names(s.tasks) <= all && s.tasks != []
    requires n in Names(s.tasks) && n !in Names(s.run) && NoDup(Occ(s.tasks, n))
    requires !(s.tasks[0].name == n && Settled(g, s))
    requires Names(Round(g, s).tasks) <= all && Runs(g, rank, all, Round(g, s), n)
    ensures Runs(g, rank, all, s, n)
  {
    hide Round, Occ, Acyclic, Closed, First, Pulls, Schedule, Settled, NoDup, Rot, Names, Turned;
    var s', o, m := Round(g, s), Occ(s.tasks, n), s.tasks[0].name;
    RoundTurns(g, s, n);
    OneTurn(g, rank, all, s, n);
    if n in g.Deps(m) || n in g.Order(m) {
      RotTurned(o, Pulls(g, rank, all, s', n));
    }
  }

  lemma {:induction false} Winner(g: Graph, rank: Name -> nat, all: set<Name>, s: State, n: Name)
    requires Acyclic(g, rank) && Closed(g, all) && Names(s.tasks) <= all
    requires n in Names(s.tasks) && n !in Names(s.run) && NoDup(Occ(s.tasks, n))
    ensures Runs(g, rank, all, s, n)
    decreases Unseen(all, s), |s.tasks|, Height(rank, s)
  {
    assert s.tasks != [];
    hide Round, Occ, Acyclic, Closed, Settled, NoDup, Names, Unseen, Height, Runs;
    if s.tasks[0].name == n && Settled(g, s) {
      Scheduled(g, rank, all, s, n);
    } else {
      RoundProgress(g, rank, all, s);
      NotYet(g, s, n);
      Winner(g, rank, all, Round(g, s), n);
      RunsBefore(g, rank, all, s, n);
    }
  }

  lemma Scheduled(g: Graph, rank: Name -> nat, all: set<Name>, s: State, n: Name)
    requires Acyclic(g, rank) && Closed(g, all) && Names(s.tasks) <= all && s.tasks != []
    requires n in Names(s.tasks) && n !in Names(s.run) && Settled(g, s) && s.tasks[0].name == n
    ensures Runs(g, rank, all, s, n)
  {
    var s', o := Round(g, s), Occ(s.tasks, n);
    assert o[0] == s.tasks[0];
    hide Round, Acyclic, Closed, Settled, Pulls, Schedule, First, Names, Occ;
    SettledTurn(g, s, n);
    FirstAppended(s.run, s.tasks[0], n);
    OneTurn(g, rank, all, s, n);
    ScheduledNoMore(g, rank, all, s', n);
    RunGrows(g, rank, all, s');
    FirstInPrefix(s'.run, Schedule(g, rank, all, s'), n);
  }

  lemma FirstAppended(run: seq<Task>, t: Task, n: Name)
    requires n !in Names(run) && t.name == n
    ensures First(run + [t], n) == Some(t) && n in Names(run + [t])
  {
    FirstNames(run, n);
    FirstCat(run, [t], n);
    NamesAppend(run, t);
  }

  /** The number of the occurrence that runs, of `k` of them pulled `p` times. */
  function RunIndex(k: nat, p: nat): (i: nat)
    requires k > 0
    ensures i < k
  {
    (k - p % k) % k
  }

  /**
   Of k occurrences of a requested command, the one that runs is number (k - p % k) % k, where p turns of the loop pull
   the command; so the first one runs, as the warning announces, if and only if k divides p.
   */
  lemma OccurrenceThatRuns(g: Graph, rank: Name -> nat, all: set<Name>, requested: seq<Task>, firstId: nat, n: Name)
    requires Acyclic(g, rank) && Closed(g, all) && Names(requested) <= all
    requires n in Names(requested) && NoDup(Occ(requested, n))
    ensures var s, o := State(requested, [], firstId), Occ(requested, n);
            var p, k := Pulls(g, rank, all, s, n), |o|;
            && k > 0
            && First(Schedule(g, rank, all, s), n) == Some(o[RunIndex(k, p)])
            && (First(Schedule(g, rank, all, s), n) == Some(o[0]) <==> p % k == 0)
  {
    var s, o := State(requested, [], firstId), Occ(requested, n);
    Winner(g, rank, all, s, n);
    hide Schedule, Pulls, Occ, Acyclic, Closed, First, Names, NoDup, Turned, RunIndex;
    WinnerIndex(o, Pulls(g, rank, all, s, n), First(Schedule(g, rank, all, s), n));
  }

  lemma WinnerIndex(o: seq<Task>, p: nat, winner: Option<Task>)
    requires o != [] && NoDup(o) && winner == Some(o[Turned(|o|, p)])
    ensures var k := |o|;
            winner == Some(o[RunIndex(k, p)]) && (winner == Some(o[0]) <==> p % k == 0)
  {
    TurnedIndex(|o|, p);
  }

  lemma TurnedIndex(k: nat, p: nat)
    requires k > 0
    ensures Turned(k, p) == RunIndex(k, p) && (RunIndex(k, p) == 0 <==> p % k == 0)
  {
    hide Turned;
    TurnedClosed(k, p);
    DivideBack(p, k);
    if p % k == 0 {
      RemainderUnique(k, k, 1, 0);
    } else {
      RemainderUnique(k - p % k, k, 0, k - p % k);
    }
  }

  // ---- When the first occurrence is the one that runs ----

  /** The names in front of the first task called `n`. */
  function Lead(ts: seq<Task>, n: Name): (c: set<Name>) {
    if ts == [] || ts[0].name == n then {} else {ts[0].name} + Lead(ts[1..], n)
  }

  lemma {:induction false} LeadCat(a: seq<Task>, b: seq<Task>, n: Name)
    ensures Lead(a + b, n) == if First(a, n).Some? then Lead(a, n) else Lead(a, n) + Lead(b, n)
    decreases |a|
  {
    if a == [] {
      assert a + b == b;
    } else {
      assert (a + b)[1..] == a[1..] + b;
      LeadCat(a[1..], b, n);
    }
  }

  lemma LeadOne(t: Task, ts: seq<Task>, n: Name)
    requires t.name != n
    ensures Lead([t] + ts, n) == {t.name} + Lead(ts, n)
  {
  }

  lemma LeadAfterMove(ts: seq<Task>, t: Task, n: Name)
    requires t in ts && t.name != n
    ensures Lead(ToFront(ts, t), n) == Lead(ts, n) + {t.name}
  {
    var a, b := MoveShape(ts, t);
    hide Lead, First, ToFront;
    LeadCat(a, [t] + b, n);
    LeadOne(t, b, n);
    LeadCat(a, b, n);
    LeadOne(t, a + b, n);
  }

  lemma {:induction false} LeadAfterPullAll(deps: seq<Name>, dict: map<Name, Task>, s: State, n: Name)
    requires DictOf(dict, s.tasks) && n !in deps
    ensures forall m :: m in Lead(PullAll(deps, dict, s).tasks, n) ==> m in Lead(s.tasks, n) || m in deps
    ensures Lead(s.tasks, n) <= Lead(PullAll(deps, dict, s).tasks, n)
    decreases |deps|
  {
    if deps != [] {
      PullFacts(deps[0], dict, s);
      if deps[0] !in Names(s.run) {
        if deps[0] in dict {
          LeadAfterMove(s.tasks, dict[deps[0]], n);
        } else {
          LeadOne(Task(deps[0], s.nextId), s.tasks, n);
        }
      }
      hide Pull;
      LeadAfterPullAll(deps[1..], dict, Pull(deps[0], dict, s), n);
    }
  }

  lemma {:induction false} LeadAfterPullListedAll(deps: seq<Name>, dict: map<Name, Task>, s: State, n: Name)
    requires DictOf(dict, s.tasks) && n !in deps
    ensures forall m :: m in Lead(PullListedAll(deps, dict, s).tasks, n) ==>
              m in Lead(s.tasks, n) || (m in deps && m in dict)
    ensures Lead(s.tasks, n) <= Lead(PullListedAll(deps, dict, s).tasks, n)
    decreases |deps|
  {
    if deps != [] {
      PullListedFacts(deps[0], dict, s);
      if deps[0] in dict && deps[0] !in Names(s.run) {
        LeadAfterMove(s.tasks, dict[deps[0]], n);
      }
      hide PullListed;
      LeadAfterPullListedAll(deps[1..], dict, PullListed(deps[0], dict, s), n);
    }
  }

  /** No dependency leads from these names to `n`; order-only ones count if they can be listed at all. */
  ghost predicate Apart(g: Graph, all: set<Name>, free: iset<Name>, n: Name) {
    && n !in free
    && forall m, d :: m in free && m in all && (d in g.Deps(m) || (d in g.Order(m) && d in all)) ==> d in free
  }

  ghost predicate Unhindered(s: State, free: iset<Name>, n: Name) {
    n in Names(s.run) || forall m :: m in Lead(s.tasks, n) ==> m in free
  }

  /** The dependencies of `n` are among these names, too. */
  ghost predicate OwnFree(g: Graph, free: iset<Name>, n: Name) {
    forall d :: d in g.Deps(n) || d in g.Order(n) ==> d in free
  }

  /** The front task leads nowhere but to these names. */
  lemma FrontFree(g: Graph, all: set<Name>, s: State, free: iset<Name>, n: Name)
    requires s.tasks != [] && Names(s.tasks) <= all && n in Names(s.tasks) && n !in Names(s.run)
    requires Apart(g, all, free, n) && OwnFree(g, free, n) && Unhindered(s, free, n)
    ensures var m := s.tasks[0].name;
            && (m == n || (m in free && m in all))
            && (forall d :: d in g.Deps(m) || (d in g.Order(m) && d in all) ==> d in free)
  {
    assert s.tasks[0] in s.tasks;
    assert s.tasks[0].name == n || s.tasks[0].name in Lead(s.tasks, n);
  }

  lemma RoundUnhindered(g: Graph, all: set<Name>, s: State, free: iset<Name>, n: Name)
    requires s.tasks != [] && Names(s.tasks) <= all && n in Names(s.tasks) && n !in Names(s.run)
    requires Apart(g, all, free, n) && OwnFree(g, free, n) && Unhindered(s, free, n)
    ensures n !in g.Deps(s.tasks[0].name) && n !in g.Order(s.tasks[0].name)
    ensures Unhindered(Round(g, s), free, n) && (n in Names(Round(g, s).run) || n in Names(Round(g, s).tasks))
  {
    FrontFree(g, all, s, free, n);
    hide Apart, OwnFree;
    assert n in all && n !in free by {
      NotFree(g, all, free, n);
    }
    if Settled(g, s) {
      SettledUnhindered(g, s, free, n);
    } else {
      PulledUnhindered(g, all, s, free, n);
    }
  }

  lemma NotFree(g: Graph, all: set<Name>, free: iset<Name>, n: Name)
    requires Apart(g, all, free, n)
    ensures n !in free
  {
  }

  lemma SettledUnhindered(g: Graph, s: State, free: iset<Name>, n: Name)
    requires s.tasks != [] && Settled(g, s) && Unhindered(s, free, n) && n !in Names(s.run) && n in Names(s.tasks)
    ensures Unhindered(Round(g, s), free, n) && (n in Names(Round(g, s).run) || n in Names(Round(g, s).tasks))
  {
    hide Settled;
    NamesAppend(s.run, s.tasks[0]);
    assert s.tasks == [s.tasks[0]] + s.tasks[1..];
    NamesAppend(s.tasks[1..], s.tasks[0]);
  }

  lemma PulledUnhindered(g: Graph, all: set<Name>, s: State, free: iset<Name>, n: Name)
    requires s.tasks != [] && !Settled(g, s) && Names(s.tasks) <= all && Unhindered(s, free, n)
    requires n in Names(s.tasks) && n !in Names(s.run)
    requires n !in g.Deps(s.tasks[0].name) && n !in g.Order(s.tasks[0].name)
    requires var m := s.tasks[0].name; forall d :: d in g.Deps(m) || (d in g.Order(m) && d in all) ==> d in free
    ensures Unhindered(Round(g, s), free, n) && n in Names(Round(g, s).tasks)
  {
    hide Settled, Lead, Names, PullAll, PullListedAll;
    var m, dict := s.tasks[0].name, Dict(s.tasks);
    var s1 := PullAll(g.Deps(m), dict, s);
    PullAllFacts(g.Deps(m), dict, s);
    PullListedAllFacts(g.Order(m), dict, s1);
    LeadAfterPullAll(g.Deps(m), dict, s, n);
    LeadAfterPullListedAll(g.Order(m), dict, s1, n);
    assert Round(g, s) == PullListedAll(g.Order(m), dict, s1);
  }

  /** The names below `n` in the ranking join those from which `n` cannot be reached. */
  lemma BelowIsApart(g: Graph, rank: Name -> nat, all: set<Name>, free: iset<Name>, n: Name) returns (wider: iset<Name>)
    requires Acyclic(g, rank) && Apart(g, all, free, n)
    ensures Apart(g, all, wider, n) && free <= wider && OwnFree(g, wider, n)
  {
    wider := iset m: Name | m in free || rank(m) < rank(n);
  }

  /** Nothing pulls a command before it is scheduled if no task in front of it leads to it. */
  lemma {:induction false} NeverPulled(g: Graph, rank: Name -> nat, all: set<Name>, s: State, n: Name, free: iset<Name>)
    requires Acyclic(g, rank) && Closed(g, all) && Names(s.tasks) <= all
    requires Apart(g, all, free, n) && OwnFree(g, free, n) && Unhindered(s, free, n)
    requires n in Names(s.tasks) || n in Names(s.run)
    ensures Pulls(g, rank, all, s, n) == 0
    decreases Unseen(all, s), |s.tasks|, Height(rank, s)
  {
    hide Round, Unhindered, Acyclic, Closed, Apart, OwnFree;
    if s.tasks != [] && n !in Names(s.run) {
      RoundProgress(g, rank, all, s);
      RoundUnhindered(g, all, s, free, n);
      NeverPulled(g, rank, all, Round(g, s), n, free);
    }
  }

  /** So a command runs with its first occurrence if no task requested before that occurrence leads to it. */
  lemma FirstOccurrenceRuns(g: Graph, rank: Name -> nat, all: set<Name>, requested: seq<Task>, firstId: nat, n: Name,
                            free: iset<Name>)
    requires Acyclic(g, rank) && Closed(g, all) && Names(requested) <= all && Apart(g, all, free, n)
    requires forall m :: m in Lead(requested, n) ==> m in free
    requires n in Names(requested) && NoDup(Occ(requested, n))
    ensures var s := State(requested, [], firstId);
            Occ(requested, n) != [] && First(Schedule(g, rank, all, s), n) == Some(Occ(requested, n)[0])
  {
    var wider := BelowIsApart(g, rank, all, free, n);
    var s := State(requested, [], firstId);
    assert Unhindered(s, wider, n);
    hide Acyclic, Closed, Apart, Unhindered, Schedule, Pulls;
    NeverPulled(g, rank, all, s, n, wider);
    Winner(g, rank, all, s, n);
  }

  // ---- When a command is pulled ----

  ghost predicate Precedes(run: seq<Task>, m: Name, n: Name) {
    exists i, j :: 0 <= i < j < |run| && run[i].name == m && run[j].name == n
  }

  /** A turn that does not pull `n` keeps the names in front of it there, or schedules them. */
  lemma LeadKept(g: Graph, s: State, n: Name)
    requires s.tasks != [] && n !in Names(s.run) && n in Names(s.tasks)
    requires n !in g.Deps(s.tasks[0].name) && n !in g.Order(s.tasks[0].name)
    ensures var s' := Round(g, s);
            && Names(s.run) <= Names(s'.run)
            && (s.tasks[0].name == n && Settled(g, s) ==> s'.run == s.run + [s.tasks[0]] && Lead(s.tasks, n) == {})
            && (!(s.tasks[0].name == n && Settled(g, s)) ==>
                  && n !in Names(s'.run) && n in Names(s'.tasks)
                  && forall m :: m in Lead(s.tasks, n) ==> m in Lead(s'.tasks, n) || m in Names(s'.run))
  {
    var task, dict := s.tasks[0], Dict(s.tasks);
    if Settled(g, s) {
      hide Settled, Dict, Round, Names;
      SettledStep(g, s);
      NamesAppend(s.run, task);
      assert s.tasks == [task] + s.tasks[1..];
      NamesAppend(s.tasks[1..], task);
    } else {
      var s1 := PullAll(g.Deps(task.name), dict, s);
      PullAllFacts(g.Deps(task.name), dict, s);
      PullListedAllFacts(g.Order(task.name), dict, s1);
      LeadAfterPullAll(g.Deps(task.name), dict, s, n);
      LeadAfterPullListedAll(g.Order(task.name), dict, s1, n);
      hide PullAll, PullListedAll, Settled, Lead, Names, Dict;
      assert Round(g, s) == PullListedAll(g.Order(task.name), dict, s1);
    }
  }

  /** A command that is never pulled runs behind everything in front of it. */
  lemma {:induction false} LeadPrecedes(g: Graph, rank: Name -> nat, all: set<Name>, s: State, n: Name, m: Name)
    requires Acyclic(g, rank) && Closed(g, all) && Names(s.tasks) <= all
    requires n in Names(s.tasks) && n !in Names(s.run) && Pulls(g, rank, all, s, n) == 0
    requires m in Lead(s.tasks, n) || m in Names(s.run)
    ensures Precedes(Schedule(g, rank, all, s), m, n)
    decreases Unseen(all, s), |s.tasks|, Height(rank, s)
  {
    assert s.tasks != [];
    OneTurn(g, rank, all, s, n);
    LeadKept(g, s, n);
    RoundProgress(g, rank, all, s);
    hide Round, Acyclic, Closed, Pulls, Schedule, Settled, Lead, Unseen, Height;
    var s' := Round(g, s);
    if s.tasks[0].name == n && Settled(g, s) {
      RunGrows(g, rank, all, s');
      PrecedesLast(s.run, s.tasks[0], Schedule(g, rank, all, s'), m);
    } else {
      LeadPrecedes(g, rank, all, s', n, m);
    }
  }

  lemma PrecedesLast(run: seq<Task>, t: Task, whole: seq<Task>, m: Name)
    requires run + [t] <= whole && m in Names(run)
    ensures Precedes(whole, m, t.name)
  {
    var i :| 0 <= i < |run| && run[i].name == m;
    assert whole[i] == (run + [t])[i] == run[i] && whole[|run|] == (run + [t])[|run|] == t;
  }

  /** A dependency, or an order-only dependency that was requested. */
  predicate Edge(g: Graph, requested: set<Name>, m: Name, d: Name) {
    d in g.Deps(m) || (d in g.Order(m) && d in requested)
  }

  /** A chain of `k` such dependencies leads from `m` to `n`. */
  ghost predicate LeadsTo(g: Graph, requested: set<Name>, m: Name, n: Name, k: nat)
    decreases k
  {
    if k == 0 then m == n else exists d :: Edge(g, requested, m, d) && LeadsTo(g, requested, d, n, k - 1)
  }

  /** In an ordered queue the end of a chain runs before its start. */
  lemma {:induction false} ChainOrdered(g: Graph, run: seq<Task>, requested: set<Name>, i: nat, n: Name, k: nat)
      returns (j: nat)
    requires Ordered(g, run, requested) && i < |run| && LeadsTo(g, requested, run[i].name, n, k)
    ensures j <= i && run[j].name == n && (k > 0 ==> j < i)
    decreases k
  {
    if k == 0 {
      j := i;
    } else {
      var d :| Edge(g, requested, run[i].name, d) && LeadsTo(g, requested, d, n, k - 1);
      assert OrderedAt(g, run, requested, i);
      assert d in Names(run[..i]);
      var t :| t in run[..i] && t.name == d;
      var h :| 0 <= h < i && run[..i][h] == t;
      j := ChainOrdered(g, run, requested, h, n, k - 1);
    }
  }

  /** The converse of `NeverPulled`: a command is pulled if a task requested in front of it leads to it. */
  lemma PulledWhenLed(g: Graph, rank: Name -> nat, all: set<Name>, requested: seq<Task>, firstId: nat,
                      n: Name, m: Name, k: nat)
    requires Acyclic(g, rank) && Closed(g, all) && Names(requested) <= all
    requires n in Names(requested) && m in Lead(requested, n) && k > 0 && LeadsTo(g, Names(requested), m, n, k)
    ensures Pulls(g, rank, all, State(requested, [], firstId), n) > 0
  {
    var s := State(requested, [], firstId);
    assert Names([]) == {};
    ScheduleCorrect(g, rank, all, s, Names(requested));
    hide Acyclic, Closed, Pulls, Schedule, Lead, Names, LeadsTo;
    if Pulls(g, rank, all, s, n) == 0 {
      LeadPrecedes(g, rank, all, s, n, m);
      var run := Schedule(g, rank, all, s);
      var i, j :| 0 <= i < j < |run| && run[i].name == m && run[j].name == n;
      var h := ChainOrdered(g, run, Names(requested), i, n, k);
    }
  }

  /** Names from which no chain leads to `n`. */
  ghost function Unled(g: Graph, requested: set<Name>, n: Name): (free: iset<Name>) {
    iset m: Name | !Led(g, requested, m, n)
  }

  ghost predicate Led(g: Graph, requested: set<Name>, m: Name, n: Name) {
    exists k: nat :: LeadsTo(g, requested, m, n, k)
  }

  lemma UnledIsApart(g: Graph, all: set<Name>, requested: set<Name>, n: Name)
    requires forall m, d :: m in all && d in g.Order(m) && d in all ==> d in requested
    ensures Apart(g, all, Unled(g, requested, n), n)
  {
    var free := Unled(g, requested, n);
    assert LeadsTo(g, requested, n, n, 0);
    forall m, d | m in free && m in all && (d in g.Deps(m) || (d in g.Order(m) && d in all))
      ensures d in free
    {
      assert Edge(g, requested, m, d);
      forall k: nat
        ensures !LeadsTo(g, requested, d, n, k)
      {
        assert !LeadsTo(g, requested, m, n, k + 1);
      }
    }
  }

  /** Where the order-only dependencies that can be listed were all requested, a command is pulled if and only if a task
      requested in front of it leads to it. */
  lemma PulledIff(g: Graph, rank: Name -> nat, all: set<Name>, requested: seq<Task>, firstId: nat, n: Name)
    requires Acyclic(g, rank) && Closed(g, all) && Names(requested) <= all && n in Names(requested)
    requires forall m, d :: m in all && d in g.Order(m) && d in all ==> d in Names(requested)
    ensures Pulls(g, rank, all, State(requested, [], firstId), n) > 0
       <==> exists m :: m in Lead(requested, n) && Led(g, Names(requested), m, n)
  {
    var s, free := State(requested, [], firstId), Unled(g, Names(requested), n);
    if m :| m in Lead(requested, n) && Led(g, Names(requested), m, n) {
      var k: nat :| LeadsTo(g, Names(requested), m, n, k);
      LeadApart(requested, n, m);
      hide Acyclic, Closed, Pulls, Lead, Names;
      PulledWhenLed(g, rank, all, requested, firstId, n, m, k);
    } else {
      UnledIsApart(g, all, Names(requested), n);
      var wider := BelowIsApart(g, rank, all, free, n);
      assert Unhindered(s, wider, n);
      hide Acyclic, Closed, Pulls, Lead, Names, Apart, OwnFree, Unhindered, Unled, LeadsTo;
      NeverPulled(g, rank, all, s, n, wider);
    }
  }

  lemma {:induction false} LeadApart(ts: seq<Task>, n: Name, m: Name)
    requires m in Lead(ts, n)
    ensures m != n
    decreases |ts|
  {
    if m != ts[0].name {
      LeadApart(ts[1..], n, m);
    }
  }

  // ---- A request for which the warning is wrong ----

  /** `flash` and `all` (alias `build`) as the tool declares them. */
  predicate FlashAndBuild(g: Graph) {
    && g.Deps("flash") == [] && g.Order("flash") == ["all", "erase-flash"]
    && g.Deps("all") == [] && g.Order("all") == ["reconfigure", "menuconfig", "clean", "fullclean"]
  }

  /** `flash build build`: the second `build` is the one that runs, although the warning says the first. */
  lemma FlashBuildBuild(g: Graph, rank: Name -> nat, all: set<Name>)
    requires FlashAndBuild(g) && Acyclic(g, rank) && Closed(g, all) && {"flash", "all"} <= all
    ensures var requested := [Task("flash", 0), Task("all", 1), Task("all", 2)];
            && Names(requested) <= all
            && First(Schedule(g, rank, all, State(requested, [], 3)), "all") == Some(Task("all", 2))
  {
    hide FlashAndBuild, Schedule, Pulls, Occ, Acyclic, Closed, Names;
    var s := State([Task("flash", 0), Task("all", 1), Task("all", 2)], [], 3);
    FlashNames(s.tasks[0], s.tasks[1], s.tasks[2]);
    FlashOcc(s.tasks[0], s.tasks[1], s.tasks[2]);
    PulledOnce(g, rank, all, s);
    OccurrenceThatRuns(g, rank, all, s.tasks, 3, "all");
  }

  lemma FlashNames(f: Task, b1: Task, b2: Task)
    requires f.name == "flash" && b1.name == "all" && b2.name == "all"
    ensures Names([f, b1, b2]) == {"flash", "all"}
  {
    var ts := [f, b1, b2];
    assert f in ts && b1 in ts && forall t :: t in ts ==> t == f || t == b1 || t == b2;
  }

  lemma FlashOcc(f: Task, b1: Task, b2: Task)
    requires f.name == "flash" && b1.name == "all" && b2.name == "all"
    ensures Occ([f, b1, b2], "all") == [b1, b2]
  {
    assert "flash"[0] != "all"[0];
    assert [f, b1, b2] == [f] + ([b1] + [b2]);
    OccCat([f], [b1] + [b2], "all");
    OccCat([b1], [b2], "all");
    OccOne(f, "all");
    OccOne(b1, "all");
    OccOne(b2, "all");
  }

  /** `flash` pulls `all` to the front, ... */
  lemma FlashPulls(g: Graph, s: State)
    requires FlashAndBuild(g) && s.tasks != [] && s.run == []
    requires s.tasks[0].name == "flash" && Names(s.tasks) == {"flash", "all"}
    ensures var s1 := Round(g, s);
            s1.run == [] && s1.tasks != [] && s1.tasks[0].name == "all" && Names(s1.tasks) == {"flash", "all"}
  {
    hide Round, Settled, Late, Dict, Names;
    OtherNames();
    FlashUnsettled(g, s);
    PulledFacts(g, s);
    FrontNamed(Round(g, s).tasks);
  }

  lemma FlashUnsettled(g: Graph, s: State)
    requires FlashAndBuild(g) && s.tasks != [] && s.run == []
    requires s.tasks[0].name == "flash" && "all" in Names(s.tasks)
    ensures !Settled(g, s)
  {
    assert g.Order("flash")[0] == "all";
    assert "all" in Late(g.Order("flash"), Dict(s.tasks), s.run);
  }

  lemma FrontNamed(ts: seq<Task>)
    requires ts != []
    ensures ts[0].name in Names(ts)
  {
    assert ts[0] in ts;
  }

  /** ... where it is scheduled. */
  lemma BuildSettles(g: Graph, s: State)
    requires FlashAndBuild(g) && s.tasks != [] && s.run == []
    requires s.tasks[0].name == "all" && Names(s.tasks) == {"flash", "all"}
    ensures Settled(g, s) && "all" in Names(Round(g, s).run)
  {
    OtherNames();
    assert Late(g.Order("all"), Dict(s.tasks), s.run) == {};
    assert Settled(g, s);
    hide Settled, Round, Dict, Late;
    SettledStep(g, s);
    NamesAppend(s.run, s.tasks[0]);
  }

  lemma PulledOnce(g: Graph, rank: Name -> nat, all: set<Name>, s: State)
    requires FlashAndBuild(g) && Acyclic(g, rank) && Closed(g, all) && {"flash", "all"} <= all
    requires s.tasks != [] && s.run == [] && s.tasks[0].name == "flash" && Names(s.tasks) == {"flash", "all"}
    ensures Pulls(g, rank, all, s, "all") == 1
  {
    hide Round, Pulls, Acyclic, Closed, Settled, Schedule;
    FlashPulls(g, s);
    OneTurn(g, rank, all, s, "all");
    var s1 := Round(g, s);
    BuildSettles(g, s1);
    OneTurn(g, rank, all, s1, "all");
    ScheduledNoMore(g, rank, all, Round(g, s1), "all");
    OtherNames();
  }

  lemma OtherNames()
    ensures "erase-flash" !in {"flash", "all"} && "reconfigure" !in {"flash", "all"}
    ensures "menuconfig" !in {"flash", "all"}
    ensures "clean" !in {"flash", "all"} && "fullclean" !in {"flash", "all"} && "flash" != "all"
  {
    assert "erase-flash"[0] == 'e' && "reconfigure"[0] == 'r' && "menuconfig"[0] == 'm' && "clean"[0] == 'c';
    assert "flash"[0] == 'f' && "all"[0] == 'a' && "fullclean"[1] == 'u' && "flash"[1] == 'l';
  }

  lemma ScheduledNoMore(g: Graph, rank: Name -> nat, all: set<Name>, s: State, n: Name)
    requires Acyclic(g, rank) && Closed(g, all) && Names(s.tasks) <= all && n in Names(s.run)
    ensures Pulls(g, rank, all, s, n) == 0
  {
  }
}
