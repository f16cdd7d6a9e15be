/**
 What the ordering loop of `idf.py` amounts to: a depth-first walk over the requested commands.  It visits a command's
 order-only dependencies that have come up so far, then its dependencies, each list from its end, and then the command.
 */
module DepthFirst {
  import opened Bytes
  import opened TaskScheduler

  /** The names that have come up, and those whose place in the run queue is settled. */
  datatype Walk = Walk(seen: set<Name>, done: seq<Name>)

  function Reversed(ns: seq<Name>): (r: seq<Name>)
    ensures forall n :: n in r <==> n in ns
  {
    if ns == [] then [] else Reversed(ns[1..]) + [ns[0]]
  }

  function Only(ns: seq<Name>, seen: set<Name>): (r: seq<Name>)
    ensures forall n :: n in r <==> n in ns && n in seen
  {
    if ns == [] then [] else (if ns[0] in seen then [ns[0]] else []) + Only(ns[1..], seen)
  }

  /** What is visited in front of a command. */
  function InFront(g: Graph, w: Walk, n: Name): (ns: seq<Name>)
    ensures forall d :: d in ns <==> d in g.Deps(n) || (d in g.Order(n) && d in w.seen)
  {
    Reversed(Only(g.Order(n), w.seen)) + Reversed(g.Deps(n))
  }

  predicate Below(rank: Name -> nat, ns: seq<Name>, k: nat) {
    forall n :: n in ns ==> rank(n) < k
  }

  /** The dependencies of `n` have come up. */
  function Meets(g: Graph, w: Walk, n: Name): (w': Walk) {
    Walk(w.seen + (set d | d in g.Deps(n)), w.done)
  }

  /** Visits these names in turn; `k` bounds their ranks. */
  ghost function Visit(g: Graph, rank: Name -> nat, w: Walk, ns: seq<Name>, k: nat): (w': Walk)
    requires Acyclic(g, rank) && Below(rank, ns, k)
    decreases k, |ns|
  {
    if ns == [] then w
    else if ns[0] in w.done then Visit(g, rank, w, ns[1..], k)
    else
      var w1 := Visit(g, rank, Meets(g, w, ns[0]), InFront(g, w, ns[0]), rank(ns[0]));
      Visit(g, rank, Walk(w1.seen, w1.done + [ns[0]]), ns[1..], k)
  }

  /** What a walk adds: settled names of lower rank than `k`; and no name stays open that was not. */
  ghost predicate Extends(rank: Name -> nat, w: Walk, w': Walk, k: nat) {
    && w.done <= w'.done && w.seen <= w'.seen
    && (forall n :: n in w'.done ==> n in w.done || rank(n) < k)
    && (forall n :: n in w'.seen && n !in w'.done ==> n in w.seen)
  }

  lemma {:induction false} VisitFacts(g: Graph, rank: Name -> nat, w: Walk, ns: seq<Name>, k: nat)
    requires Acyclic(g, rank) && Below(rank, ns, k)
    ensures Extends(rank, w, Visit(g, rank, w, ns, k), k)
    ensures forall n :: n in ns ==> n in Visit(g, rank, w, ns, k).done
    decreases k, |ns|
  {
    if ns != [] {
      if ns[0] in w.done {
        VisitFacts(g, rank, w, ns[1..], k);
      } else {
        var n := ns[0];
        var w1 := Visit(g, rank, Meets(g, w, n), InFront(g, w, n), rank(n));
        VisitFacts(g, rank, Meets(g, w, n), InFront(g, w, n), rank(n));
        OneMoreExtends(g, rank, w, n, w1, k);
        var w2 := Walk(w1.seen, w1.done + [n]);
        hide Extends, Acyclic, InFront;
        VisitFacts(g, rank, w2, ns[1..], k);
        var w3 := Visit(g, rank, w2, ns[1..], k);
        ExtendsOn(rank, w, w2, w3, k);
      }
    }
  }

  lemma OneMoreExtends(g: Graph, rank: Name -> nat, w: Walk, n: Name, w1: Walk, k: nat)
    requires rank(n) < k && Extends(rank, Meets(g, w, n), w1, rank(n))
    requires forall d :: d in g.Deps(n) ==> d in w1.done
    ensures Extends(rank, w, Walk(w1.seen, w1.done + [n]), k)
  {
  }

  lemma ExtendsOn(rank: Name -> nat, w: Walk, w1: Walk, w2: Walk, k: nat)
    requires Extends(rank, w, w1, k) && Extends(rank, w1, w2, k)
    ensures Extends(rank, w, w2, k) && forall n :: n in w1.done ==> n in w2.done
  {
  }

  lemma {:induction false} VisitCat(g: Graph, rank: Name -> nat, w: Walk, a: seq<Name>, b: seq<Name>, k: nat)
    requires Acyclic(g, rank) && Below(rank, a + b, k)
    ensures Below(rank, a, k) && Below(rank, b, k)
    ensures Visit(g, rank, w, a + b, k) == Visit(g, rank, Visit(g, rank, w, a, k), b, k)
    decreases |a|
  {
    assert forall n :: n in a || n in b ==> n in a + b;
    if a == [] {
      assert a + b == b;
    } else {
      assert (a + b)[1..] == a[1..] + b && (a + b)[0] == a[0];
      if a[0] in w.done {
        VisitCat(g, rank, w, a[1..], b, k);
      } else {
        var w1 := Visit(g, rank, Meets(g, w, a[0]), InFront(g, w, a[0]), rank(a[0]));
        VisitCat(g, rank, Walk(w1.seen, w1.done + [a[0]]), a[1..], b, k);
      }
    }
  }

  /** The bound does not matter. */
  lemma {:induction false} AnyBound(g: Graph, rank: Name -> nat, w: Walk, ns: seq<Name>, k: nat, k': nat)
    requires Acyclic(g, rank) && Below(rank, ns, k) && Below(rank, ns, k')
    ensures Visit(g, rank, w, ns, k) == Visit(g, rank, w, ns, k')
    decreases |ns|
  {
    if ns != [] {
      if ns[0] in w.done {
        AnyBound(g, rank, w, ns[1..], k, k');
      } else {
        var w1 := Visit(g, rank, Meets(g, w, ns[0]), InFront(g, w, ns[0]), rank(ns[0]));
        AnyBound(g, rank, Walk(w1.seen, w1.done + [ns[0]]), ns[1..], k, k');
      }
    }
  }

  /** Names that are settled are passed over. */
  lemma {:induction false} VisitSettled(g: Graph, rank: Name -> nat, w: Walk, ns: seq<Name>, k: nat)
    requires Acyclic(g, rank) && Below(rank, ns, k) && forall n :: n in ns ==> n in w.done
    ensures Visit(g, rank, w, ns, k) == w
    decreases |ns|
  {
    if ns != [] {
      VisitSettled(g, rank, w, ns[1..], k);
    }
  }

  /** A second visit changes nothing. */
  lemma VisitTwice(g: Graph, rank: Name -> nat, w: Walk, n: Name, a: seq<Name>, b: seq<Name>, k: nat)
    requires Acyclic(g, rank) && rank(n) < k && Below(rank, a, k) && Below(rank, b, k)
    ensures Below(rank, [n] + (a + b), k) && Below(rank, [n] + (a + ([n] + b)), k)
    ensures Visit(g, rank, w, [n] + (a + b), k) == Visit(g, rank, w, [n] + (a + ([n] + b)), k)
  {
    assert Below(rank, a + b, k) && Below(rank, [n] + b, k) && Below(rank, a + ([n] + b), k);
    assert Below(rank, [n] + (a + b), k) && Below(rank, [n] + (a + ([n] + b)), k);
    var w1 := Visit(g, rank, w, [n], k);
    VisitCat(g, rank, w, [n], a + b, k);
    VisitCat(g, rank, w, [n], a + ([n] + b), k);
    VisitCat(g, rank, w1, a, b, k);
    VisitCat(g, rank, w1, a, [n] + b, k);
    var w2 := Visit(g, rank, w1, a, k);
    VisitCat(g, rank, w2, [n], b, k);
    VisitFacts(g, rank, w, [n], k);
    VisitFacts(g, rank, w1, a, k);
    VisitSettled(g, rank, w2, [n], k);
  }

  // ---- The loop's list, as the walk sees it ----

  function NamesOf(ts: seq<Task>): (ns: seq<Name>)
    ensures |ns| == |ts| && forall i :: 0 <= i < |ts| ==> ns[i] == ts[i].name
    ensures forall n :: n in ns <==> n in Names(ts)
  {
    var ns := seq(|ts|, i requires 0 <= i < |ts| => ts[i].name);
    assert forall i :: 0 <= i < |ts| ==> ts[i] in ts && ns[i] == ts[i].name;
    ns
  }

  /** Moving a task to the front, as the walk sees it: its name once more in front. */
  lemma FrontVisit(g: Graph, rank: Name -> nat, w: Walk, ts: seq<Task>, t: Task, k: nat)
    requires Acyclic(g, rank) && Below(rank, NamesOf(ts), k) && t in ts
    ensures Below(rank, NamesOf(ToFront(ts, t)), k) && Below(rank, [t.name] + NamesOf(ts), k)
    ensures Visit(g, rank, w, NamesOf(ToFront(ts, t)), k) == Visit(g, rank, w, [t.name] + NamesOf(ts), k)
  {
    var i := IndexOf(ts, t);
    var a, b := NamesOf(ts[..i]), NamesOf(ts[i + 1..]);
    NamesAround(ts, t);
    hide NamesOf, ToFront, Visit, Acyclic;
    assert Below(rank, a, k) && Below(rank, b, k) && rank(t.name) < k by {
      BelowParts(rank, a, t.name, b, k);
    }
    hide Below;
    VisitTwice(g, rank, w, t.name, a, b, k);
  }

  lemma BelowParts(rank: Name -> nat, a: seq<Name>, n: Name, b: seq<Name>, k: nat)
    requires Below(rank, a + ([n] + b), k)
    ensures Below(rank, a, k) && Below(rank, b, k) && rank(n) < k
  {
    assert n in a + ([n] + b);
    assert forall m :: m in a || m in b ==> m in a + ([n] + b);
  }

  lemma NamesAround(ts: seq<Task>, t: Task)
    requires t in ts
    ensures var i := IndexOf(ts, t);
            var a, b := NamesOf(ts[..i]), NamesOf(ts[i + 1..]);
            NamesOf(ts) == a + ([t.name] + b) && NamesOf(ToFront(ts, t)) == [t.name] + (a + b)
  {
    hide NamesOf, ToFront, Remove, IndexOf;
    var i := IndexOf(ts, t);
    FrontParts(ts, t);
    SplitAt(ts, i);
    NamesParts(ts[..i], t, ts[i + 1..]);
  }

  lemma NamesParts(a: seq<Task>, t: Task, b: seq<Task>)
    ensures NamesOf(a + ([t] + b)) == NamesOf(a) + ([t.name] + NamesOf(b))
    ensures NamesOf([t] + (a + b)) == [t.name] + (NamesOf(a) + NamesOf(b))
  {
    NamesCat(a, [t] + b);
    NamesCat(a, b);
    hide NamesOf;
    NamesCons(t, b);
    NamesCons(t, a + b);
  }

  lemma FrontParts(ts: seq<Task>, t: Task)
    requires t in ts
    ensures var i := IndexOf(ts, t); ToFront(ts, t) == [t] + (ts[..i] + ts[i + 1..])
  {
    hide IndexOf;
  }

  lemma SplitAt(ts: seq<Task>, i: nat)
    requires i < |ts|
    ensures ts == ts[..i] + ([ts[i]] + ts[i + 1..])
  {
  }

  lemma NamesCat(a: seq<Task>, b: seq<Task>)
    ensures NamesOf(a + b) == NamesOf(a) + NamesOf(b)
  {
  }

  /** The list in front of which `ns` were put, as the walk sees it. */
  ghost predicate SameWalk(g: Graph, rank: Name -> nat, w: Walk, xs: seq<Name>, ns: seq<Name>, ys: seq<Name>, k: nat)
    requires Acyclic(g, rank)
  {
    && Below(rank, xs, k) && Below(rank, ns + ys, k)
    && Visit(g, rank, w, xs, k) == Visit(g, rank, w, ns + ys, k)
  }

  lemma PullVisit(g: Graph, rank: Name -> nat, w: Walk, dep: Name, dict: map<Name, Task>, s: State, k: nat)
    requires Acyclic(g, rank) && DictOf(dict, s.tasks) && Below(rank, NamesOf(s.tasks), k) && rank(dep) < k
    requires dep in Names(s.run) ==> dep in w.done
    ensures SameWalk(g, rank, w, NamesOf(Pull(dep, dict, s).tasks), [dep], NamesOf(s.tasks), k)
  {
    hide NamesOf, ToFront, Acyclic, Names;
    var xs := NamesOf(s.tasks);
    assert ([dep] + xs)[1..] == xs && Below(rank, [dep] + xs, k);
    if dep in Names(s.run) {
    } else if dep in dict {
      hide Visit;
      FrontVisit(g, rank, w, s.tasks, dict[dep], k);
    } else {
      NamesCons(Task(dep, s.nextId), s.tasks);
    }
  }

  lemma NamesCons(t: Task, ts: seq<Task>)
    ensures NamesOf([t] + ts) == [t.name] + NamesOf(ts)
  {
  }

  lemma ListedVisit(g: Graph, rank: Name -> nat, w: Walk, dep: Name, dict: map<Name, Task>, s: State, k: nat,
                    seen: set<Name>)
    requires Acyclic(g, rank) && DictOf(dict, s.tasks) && Below(rank, NamesOf(s.tasks), k) && rank(dep) < k
    requires dep in Names(s.run) ==> dep in w.done
    requires dep in seen <==> dep in dict || dep in Names(s.run)
    ensures SameWalk(g, rank, w, NamesOf(PullListed(dep, dict, s).tasks), if dep in seen then [dep] else [],
                     NamesOf(s.tasks), k)
  {
    hide NamesOf, ToFront, Acyclic, Names;
    var xs := NamesOf(s.tasks);
    assert [] + xs == xs;
    if dep in seen {
      assert ([dep] + xs)[1..] == xs && Below(rank, [dep] + xs, k);
      if dep !in Names(s.run) {
        hide Visit;
        FrontVisit(g, rank, w, s.tasks, dict[dep], k);
      }
    }
  }

  /** One more name behind those that go in front. */
  lemma SameWalkOn(g: Graph, rank: Name -> nat, w: Walk, xs: seq<Name>, ns: seq<Name>, mid: seq<Name>, dep: seq<Name>,
                   ys: seq<Name>, k: nat)
    requires Acyclic(g, rank) && SameWalk(g, rank, w, xs, ns, mid, k)
    requires Below(rank, ns, k) && SameWalk(g, rank, Visit(g, rank, w, ns, k), mid, dep, ys, k)
    ensures SameWalk(g, rank, w, xs, ns + dep, ys, k)
  {
    assert (ns + dep) + ys == ns + (dep + ys);
    assert Below(rank, ns + (dep + ys), k);
    VisitCat(g, rank, w, ns, mid, k);
    VisitCat(g, rank, w, ns, dep + ys, k);
  }

  lemma {:induction false} PullAllVisit(g: Graph, rank: Name -> nat, w: Walk, deps: seq<Name>, dict: map<Name, Task>,
                                        s: State, k: nat)
    requires Acyclic(g, rank) && DictOf(dict, s.tasks) && Below(rank, NamesOf(s.tasks), k) && Below(rank, deps, k)
    requires forall n :: n in Names(s.run) ==> n in w.done
    ensures SameWalk(g, rank, w, NamesOf(PullAll(deps, dict, s).tasks), Reversed(deps), NamesOf(s.tasks), k)
    decreases |deps|
  {
    if deps == [] {
      assert [] + NamesOf(s.tasks) == NamesOf(s.tasks);
    } else {
      PullFacts(deps[0], dict, s);
      var s1 := Pull(deps[0], dict, s);
      var ns, xs := Reversed(deps[1..]), NamesOf(PullAll(deps, dict, s).tasks);
      assert Reversed(deps) == ns + [deps[0]] && PullAll(deps, dict, s) == PullAll(deps[1..], dict, s1);
      hide Pull, PullAll, Reversed, Names, NamesOf, Acyclic, Visit;
      PullVisit(g, rank, w, deps[0], dict, s, k);
      PullAllVisit(g, rank, w, deps[1..], dict, s1, k);
      VisitFacts(g, rank, w, ns, k);
      PullVisit(g, rank, Visit(g, rank, w, ns, k), deps[0], dict, s, k);
      SameWalkOn(g, rank, w, xs, ns, NamesOf(s1.tasks), [deps[0]], NamesOf(s.tasks), k);
    }
  }

  lemma {:induction false} PullListedAllVisit(g: Graph, rank: Name -> nat, w: Walk, ords: seq<Name>,
                                              dict: map<Name, Task>, s: State, k: nat, seen: set<Name>)
    requires Acyclic(g, rank) && DictOf(dict, s.tasks) && Below(rank, NamesOf(s.tasks), k) && Below(rank, ords, k)
    requires forall n :: n in Names(s.run) ==> n in w.done
    requires seen == dict.Keys + Names(s.run)
    ensures SameWalk(g, rank, w, NamesOf(PullListedAll(ords, dict, s).tasks), Reversed(Only(ords, seen)),
                     NamesOf(s.tasks), k)
    decreases |ords|
  {
    if ords == [] {
      assert [] + NamesOf(s.tasks) == NamesOf(s.tasks);
    } else {
      var dep := ords[0];
      PullListedFacts(dep, dict, s);
      var s1 := PullListed(dep, dict, s);
      hide PullListed, Names, NamesOf, Acyclic, Visit;
      ListedVisit(g, rank, w, dep, dict, s, k, seen);
      PullListedAllVisit(g, rank, w, ords[1..], dict, s1, k, seen);
      var ns, one := Reversed(Only(ords[1..], seen)), if dep in seen then [dep] else [];
      var w1 := Visit(g, rank, w, ns, k);
      VisitFacts(g, rank, w, ns, k);
      ListedVisit(g, rank, w1, dep, dict, s, k, seen);
      SameWalkOn(g, rank, w, NamesOf(PullListedAll(ords, dict, s).tasks), ns, NamesOf(s1.tasks), one,
                 NamesOf(s.tasks), k);
      ReversedOnly(ords, seen);
    }
  }

  lemma ReversedOnly(ords: seq<Name>, seen: set<Name>)
    requires ords != []
    ensures Reversed(Only(ords, seen))
         == Reversed(Only(ords[1..], seen)) + (if ords[0] in seen then [ords[0]] else [])
  {
    var only := Only(ords[1..], seen);
    assert Only(ords, seen) == if ords[0] in seen then [ords[0]] + only else only;
    hide Only, Reversed;
    ReversedCons(ords[0], only);
  }

  lemma ReversedCons(n: Name, ns: seq<Name>)
    ensures Reversed([n] + ns) == Reversed(ns) + [n]
  {
    assert ([n] + ns)[1..] == ns;
  }

  // ---- A command that ran already has nothing left to wait for ----

  /** What a command in the run queue depends on ran; what it follows if requested ran, or stands in front of each
      repetition of the command. */
  ghost predicate QueueOk(g: Graph, s: State) {
    && (forall n, d :: n in Names(s.run) && d in g.Deps(n) ==> d in Names(s.run))
    && (forall i, o :: 0 <= i < |s.tasks| && Follows(g, s, s.tasks[i].name, o) ==> o in Names(s.tasks[..i]))
  }

  /** A command that ran, and one that it would follow now. */
  predicate Follows(g: Graph, s: State, n: Name, o: Name) {
    n in Names(s.run) && o in g.Order(n) && o in Names(s.tasks) && o !in Names(s.run)
  }

  lemma FrontSettled(g: Graph, s: State)
    requires QueueOk(g, s) && s.tasks != [] && s.tasks[0].name in Names(s.run)
    ensures Settled(g, s)
  {
    assert Names(s.tasks[..0]) == {};
  }

  lemma ToFrontPrefix(ts: seq<Task>, t: Task, i: nat)
    requires t in ts && 0 < i < |ts|
    ensures var r, p := ToFront(ts, t), IndexOf(ts, t);
            var j := if i <= p then i - 1 else i;
            r[i] == ts[j] && Names(ts[..j]) <= Names(r[..i])
  {
    FrontParts(ts, t);
    hide ToFront, IndexOf;
    FrontPrefix(ts, IndexOf(ts, t), i);
  }

  lemma FrontPrefix(ts: seq<Task>, p: nat, i: nat)
    requires p < |ts| && 0 < i < |ts|
    ensures var r := [ts[p]] + (ts[..p] + ts[p + 1..]);
            var j := if i <= p then i - 1 else i;
            r[i] == ts[j] && Names(ts[..j]) <= Names(r[..i])
  {
    var r := [ts[p]] + (ts[..p] + ts[p + 1..]);
    var j := if i <= p then i - 1 else i;
    forall x | x in ts[..j]
      ensures x in r[..i]
    {
      var m :| 0 <= m < j && ts[m] == x;
      assert x == r[if m < p then m + 1 else if m == p then 0 else m];
    }
  }

  lemma FrontKeepsQueue(g: Graph, s: State, t: Task)
    requires QueueOk(g, s) && t in s.tasks && t.name !in Names(s.run)
    ensures QueueOk(g, s.(tasks := ToFront(s.tasks, t)))
  {
    var r := ToFront(s.tasks, t);
    FrontNames(s.tasks, t);
    hide ToFront, Names, IndexOf;
    var s' := s.(tasks := r);
    forall i, o | 0 <= i < |r| && Follows(g, s', r[i].name, o)
      ensures o in Names(r[..i])
    {
      assert r[0] == t;
      ToFrontPrefix(s.tasks, t, i);
      assert Follows(g, s, r[i].name, o);
    }
  }

  lemma FrontNames(ts: seq<Task>, t: Task)
    requires t in ts
    ensures Names(ToFront(ts, t)) == Names(ts) && t.name in Names(ts)
  {
    FrontParts(ts, t);
    hide ToFront;
    var i := IndexOf(ts, t);
    hide IndexOf;
    SplitAt(ts, i);
    var r := [t] + (ts[..i] + ts[i + 1..]);
    assert forall x :: x in r <==> x in ts[..i] + ([t] + ts[i + 1..]);
  }

  lemma AddKeepsQueue(g: Graph, s: State, t: Task)
    requires QueueOk(g, s) && t.name !in Names(s.run)
    ensures QueueOk(g, State([t] + s.tasks, s.run, s.nextId + 1))
  {
    var r := [t] + s.tasks;
    NamesAppend(s.tasks, t);
    var s' := State(r, s.run, s.nextId + 1);
    forall i, o | 0 <= i < |r| && Follows(g, s', r[i].name, o)
      ensures o in Names(r[..i])
    {
      assert r[..i] == [t] + s.tasks[..i - 1] && r[i] == s.tasks[i - 1];
      NamesAppend(s.tasks[..i - 1], t);
      assert o != t.name ==> Follows(g, s, r[i].name, o);
    }
  }

  lemma {:induction false} PullAllKeepsQueue(g: Graph, deps: seq<Name>, dict: map<Name, Task>, s: State)
    requires QueueOk(g, s) && DictOf(dict, s.tasks)
    ensures QueueOk(g, PullAll(deps, dict, s))
    decreases |deps|
  {
    if deps != [] {
      PullFacts(deps[0], dict, s);
      hide QueueOk, ToFront, Names;
      if deps[0] !in Names(s.run) {
        if deps[0] in dict {
          FrontKeepsQueue(g, s, dict[deps[0]]);
        } else {
          AddKeepsQueue(g, s, Task(deps[0], s.nextId));
        }
      }
      PullAllKeepsQueue(g, deps[1..], dict, Pull(deps[0], dict, s));
    }
  }

  lemma {:induction false} PullListedAllKeepsQueue(g: Graph, ords: seq<Name>, dict: map<Name, Task>, s: State)
    requires QueueOk(g, s) && DictOf(dict, s.tasks)
    ensures QueueOk(g, PullListedAll(ords, dict, s))
    decreases |ords|
  {
    if ords != [] {
      PullListedFacts(ords[0], dict, s);
      hide QueueOk, ToFront, Names;
      if ords[0] in dict && ords[0] !in Names(s.run) {
        FrontKeepsQueue(g, s, dict[ords[0]]);
      }
      PullListedAllKeepsQueue(g, ords[1..], dict, PullListed(ords[0], dict, s));
    }
  }

  lemma SettledKeepsQueue(g: Graph, s: State)
    requires QueueOk(g, s) && s.tasks != [] && Settled(g, s)
    ensures QueueOk(g, Round(g, s))
  {
    var s' := Round(g, s);
    SettledNames(g, s);
    NothingLate(g, s);
    hide Settled, Round, Names, Dict, Late, Missing, Follows;
    forall i, o | 0 <= i < |s'.tasks| && Follows(g, s', s'.tasks[i].name, o)
      ensures o in Names(s'.tasks[..i])
    {
      SettledFollows(g, s, s', i, o);
    }
  }

  lemma QueueAt(g: Graph, s: State, i: nat, o: Name)
    requires QueueOk(g, s) && i < |s.tasks| && Follows(g, s, s.tasks[i].name, o)
    ensures o in Names(s.tasks[..i])
  {
  }

  lemma SettledFollows(g: Graph, s: State, s': State, i: nat, o: Name)
    requires QueueOk(g, s) && s.tasks != [] && s'.tasks == s.tasks[1..] && i < |s'.tasks|
    requires var n := s.tasks[0].name;
             && Names(s'.run) == Names(s.run) + {n} && Names(s.tasks) == Names(s'.tasks) + {n}
             && forall x :: x in g.Order(n) && x in Names(s.tasks) ==> x in Names(s.run)
    requires Follows(g, s', s'.tasks[i].name, o)
    ensures o in Names(s'.tasks[..i])
  {
    var task := s.tasks[0];
    assert s.tasks[i + 1] == s'.tasks[i] && s.tasks[..i + 1] == [task] + s'.tasks[..i];
    hide Names, QueueOk;
    NamesAppend(s'.tasks[..i], task);
    QueueAt(g, s, i + 1, o);
  }

  lemma SettledNames(g: Graph, s: State)
    requires s.tasks != [] && Settled(g, s)
    ensures var s', n := Round(g, s), s.tasks[0].name;
            && s'.tasks == s.tasks[1..] && Names(s'.run) == Names(s.run) + {n}
            && Names(s.tasks) == Names(s'.tasks) + {n}
  {
    var task := s.tasks[0];
    NamesAppend(s.run, task);
    assert s.tasks == [task] + s.tasks[1..];
    NamesAppend(s.tasks[1..], task);
    hide Settled, Names;
  }

  lemma NothingLate(g: Graph, s: State)
    requires s.tasks != [] && Settled(g, s)
    ensures forall d :: d in g.Deps(s.tasks[0].name) ==> d in Names(s.run)
    ensures forall o :: o in g.Order(s.tasks[0].name) && o in Names(s.tasks) ==> o in Names(s.run)
  {
    var n := s.tasks[0].name;
    forall d | d in g.Deps(n)
      ensures d in Names(s.run)
    {
      assert d !in Missing(g.Deps(n), s.run);
    }
    forall o | o in g.Order(n) && o in Names(s.tasks)
      ensures o in Names(s.run)
    {
      assert o !in Late(g.Order(n), Dict(s.tasks), s.run);
    }
  }

  lemma RoundKeepsQueue(g: Graph, s: State)
    requires QueueOk(g, s) && s.tasks != []
    ensures QueueOk(g, Round(g, s))
  {
    if Settled(g, s) {
      SettledKeepsQueue(g, s);
    } else {
      var n, dict := s.tasks[0].name, Dict(s.tasks);
      var s1 := PullAll(g.Deps(n), dict, s);
      PullAllFacts(g.Deps(n), dict, s);
      PullAllKeepsQueue(g, g.Deps(n), dict, s);
      PullListedAllKeepsQueue(g, g.Order(n), dict, s1);
      hide QueueOk, PullAll, PullListedAll, Names, Dict, Settled;
      assert Round(g, s) == PullListedAll(g.Order(n), dict, s1);
    }
  }

  // ---- The loop walks depth first ----

  /** Where the walk stands in this state of the loop. */
  function Reached(s: State): (w: Walk) {
    Walk(Names(s.tasks) + Names(s.run), NamesOf(s.run))
  }

  lemma InFrontLower(g: Graph, rank: Name -> nat, w: Walk, n: Name)
    requires Acyclic(g, rank)
    ensures Below(rank, InFront(g, w, n), rank(n))
  {
  }

  /** Once what belongs in front of it has been visited, only the command itself is left. */
  lemma NothingInFront(g: Graph, rank: Name -> nat, w: Walk, n: Name)
    requires Acyclic(g, rank) && n !in w.done && Below(rank, InFront(g, w, n), rank(n))
    ensures var v := Visit(g, rank, Meets(g, w, n), InFront(g, w, n), rank(n));
            n !in v.done && Meets(g, v, n) == v && forall d :: d in InFront(g, v, n) ==> d in v.done
  {
    VisitFacts(g, rank, Meets(g, w, n), InFront(g, w, n), rank(n));
    hide Visit, Acyclic, Below;
    NothingLeft(g, rank, w, n, Visit(g, rank, Meets(g, w, n), InFront(g, w, n), rank(n)));
  }

  lemma NothingLeft(g: Graph, rank: Name -> nat, w: Walk, n: Name, v: Walk)
    requires n !in w.done && Extends(rank, Meets(g, w, n), v, rank(n))
    requires forall d :: d in InFront(g, w, n) ==> d in v.done
    ensures n !in v.done && Meets(g, v, n) == v && forall d :: d in InFront(g, v, n) ==> d in v.done
  {
  }

  lemma VisitAgain(g: Graph, rank: Name -> nat, w: Walk, n: Name, rest: seq<Name>, k: nat)
    requires Acyclic(g, rank) && n !in w.done && Below(rank, [n] + rest, k) && Below(rank, InFront(g, w, n), rank(n))
    ensures var v := Visit(g, rank, Meets(g, w, n), InFront(g, w, n), rank(n));
            Visit(g, rank, v, [n] + rest, k) == Visit(g, rank, w, [n] + rest, k)
  {
    var v := Visit(g, rank, Meets(g, w, n), InFront(g, w, n), rank(n));
    NothingInFront(g, rank, w, n);
    InFrontLower(g, rank, v, n);
    VisitSettled(g, rank, v, InFront(g, v, n), rank(n));
    hide Acyclic, InFront, Meets;
    VisitFirst(g, rank, w, n, rest, k);
    VisitFirst(g, rank, v, n, rest, k);
  }

  lemma VisitFirst(g: Graph, rank: Name -> nat, w: Walk, n: Name, rest: seq<Name>, k: nat)
    requires Acyclic(g, rank) && Below(rank, [n] + rest, k) && n !in w.done
    ensures Below(rank, rest, k) && Below(rank, InFront(g, w, n), rank(n))
    ensures var w1 := Visit(g, rank, Meets(g, w, n), InFront(g, w, n), rank(n));
            Visit(g, rank, w, [n] + rest, k) == Visit(g, rank, Walk(w1.seen, w1.done + [n]), rest, k)
  {
    assert ([n] + rest)[1..] == rest && ([n] + rest)[0] == n;
    assert forall m :: m in rest ==> m in [n] + rest;
  }

  lemma RoundPulls(g: Graph, s: State)
    requires s.tasks != [] && !Settled(g, s)
    ensures var n, dict := s.tasks[0].name, Dict(s.tasks);
            var s1 := PullAll(g.Deps(n), dict, s);
            && DictOf(dict, s1.tasks) && s1.run == s.run
            && Round(g, s) == PullListedAll(g.Order(n), dict, s1)
            && Reached(Round(g, s)) == Meets(g, Reached(s), n) && Reached(s).seen == dict.Keys + Names(s1.run)
  {
    var n, dict := s.tasks[0].name, Dict(s.tasks);
    hide PullAll, PullListedAll, Dict, Settled, Names, NamesOf;
    PullAllFacts(g.Deps(n), dict, s);
    assert Round(g, s) == PullListedAll(g.Order(n), dict, PullAll(g.Deps(n), dict, s));
    hide Round;
    PulledFacts(g, s);
    MeetsMissing(g, s, Round(g, s));
  }

  lemma MeetsMissing(g: Graph, s: State, s': State)
    requires s.tasks != [] && s'.run == s.run
    requires Names(s'.tasks) == Names(s.tasks) + Missing(g.Deps(s.tasks[0].name), s.run)
    ensures Reached(s') == Meets(g, Reached(s), s.tasks[0].name)
  {
    hide NamesOf, Names;
  }

  lemma BoundsHold(g: Graph, rank: Name -> nat, ts: seq<Task>, seen: set<Name>, k: nat)
    requires Acyclic(g, rank) && ts != [] && Below(rank, NamesOf(ts), k)
    ensures var n := ts[0].name;
            && Below(rank, g.Deps(n), k) && Below(rank, g.Order(n), k)
            && Below(rank, Reversed(g.Deps(n)), k) && Below(rank, Reversed(Only(g.Order(n), seen)), k)
  {
    assert NamesOf(ts)[0] == ts[0].name;
  }

  /** A turn that pulls. */
  lemma PullingTurn(g: Graph, rank: Name -> nat, s: State, k: nat)
    requires Acyclic(g, rank) && s.tasks != [] && !Settled(g, s) && Below(rank, NamesOf(s.tasks), k)
    ensures var s', n := Round(g, s), s.tasks[0].name;
            && Reached(s') == Meets(g, Reached(s), n)
            && SameWalk(g, rank, Reached(s'), NamesOf(s'.tasks), InFront(g, Reached(s), n), NamesOf(s.tasks), k)
  {
    RoundPulls(g, s);
    var n, dict, w, w' := s.tasks[0].name, Dict(s.tasks), Reached(s), Reached(Round(g, s));
    var s1, ns := PullAll(g.Deps(n), dict, s), Reversed(Only(g.Order(n), w.seen));
    BoundsHold(g, rank, s.tasks, w.seen, k);
    assert forall m :: m in Names(s.run) ==> m in w'.done;
    VisitFacts(g, rank, w', ns, k);
    hide PullAll, PullListedAll, Round, Settled, Acyclic, Visit, Below, Dict, NamesOf, Names, Meets;
    PullAllVisit(g, rank, w', g.Deps(n), dict, s, k);
    PullListedAllVisit(g, rank, w', g.Order(n), dict, s1, k, w.seen);
    PullAllVisit(g, rank, Visit(g, rank, w', ns, k), g.Deps(n), dict, s, k);
    SameWalkOn(g, rank, w', NamesOf(Round(g, s).tasks), ns, NamesOf(s1.tasks), Reversed(g.Deps(n)),
               NamesOf(s.tasks), k);
  }

  /** One turn of the loop does not change where the walk ends. */
  lemma RoundWalks(g: Graph, rank: Name -> nat, s: State, k: nat)
    requires Acyclic(g, rank) && QueueOk(g, s) && s.tasks != [] && Below(rank, NamesOf(s.tasks), k)
    ensures var s' := Round(g, s);
            && Below(rank, NamesOf(s'.tasks), k)
            && Visit(g, rank, Reached(s'), NamesOf(s'.tasks), k) == Visit(g, rank, Reached(s), NamesOf(s.tasks), k)
  {
    var n, rest, w := s.tasks[0].name, NamesOf(s.tasks[1..]), Reached(s);
    assert s.tasks == [s.tasks[0]] + s.tasks[1..];
    NamesCons(s.tasks[0], s.tasks[1..]);
    InFrontLower(g, rank, w, n);
    if Settled(g, s) {
      SettledWalks(g, rank, s, k);
    } else {
      var s', ns := Round(g, s), InFront(g, w, n);
      PullingTurn(g, rank, s, k);
      assert n !in w.done by {
        if n in w.done {
          FrontSettled(g, s);
        }
      }
      hide Round, Settled, NamesOf, QueueOk, Visit, Reached, InFront, Acyclic;
      VisitCat(g, rank, Reached(s'), ns, NamesOf(s.tasks), k);
      AnyBound(g, rank, Reached(s'), ns, k, rank(n));
      VisitAgain(g, rank, w, n, rest, k);
    }
  }

  lemma SettledWalks(g: Graph, rank: Name -> nat, s: State, k: nat)
    requires Acyclic(g, rank) && s.tasks != [] && Settled(g, s) && Below(rank, NamesOf(s.tasks), k)
    ensures var s' := Round(g, s);
            && Below(rank, NamesOf(s'.tasks), k)
            && Visit(g, rank, Reached(s'), NamesOf(s'.tasks), k) == Visit(g, rank, Reached(s), NamesOf(s.tasks), k)
  {
    hide Round, Settled, NamesOf, Names, Visit, Reached;
    var n, rest, w := s.tasks[0].name, NamesOf(s.tasks[1..]), Reached(s);
    assert s.tasks == [s.tasks[0]] + s.tasks[1..];
    NamesCons(s.tasks[0], s.tasks[1..]);
    SettledReached(g, s);
    if n in w.done {
      VisitSkip(g, rank, w, n, rest, k);
    } else {
      InFrontLower(g, rank, w, n);
      hide Acyclic, InFront, Meets;
      VisitSettled(g, rank, w, InFront(g, w, n), rank(n));
      VisitFirst(g, rank, w, n, rest, k);
    }
  }

  lemma VisitSkip(g: Graph, rank: Name -> nat, w: Walk, n: Name, rest: seq<Name>, k: nat)
    requires Acyclic(g, rank) && Below(rank, [n] + rest, k) && n in w.done
    ensures Below(rank, rest, k) && Visit(g, rank, w, [n] + rest, k) == Visit(g, rank, w, rest, k)
  {
    assert ([n] + rest)[1..] == rest && ([n] + rest)[0] == n;
    assert forall m :: m in rest ==> m in [n] + rest;
  }

  lemma SettledReached(g: Graph, s: State)
    requires s.tasks != [] && Settled(g, s)
    ensures var s', n, w := Round(g, s), s.tasks[0].name, Reached(s);
            && s'.tasks == s.tasks[1..] && Meets(g, w, n) == w
            && (forall d :: d in InFront(g, w, n) ==> d in w.done)
            && Reached(s') == if n in w.done then w else Walk(w.seen, w.done + [n])
  {
    hide Settled, Round, Names, NamesOf;
    NothingLate(g, s);
    SettledNames(g, s);
    SettledRun(g, s);
    MetAlready(g, s);
  }

  lemma SettledRun(g: Graph, s: State)
    requires s.tasks != [] && Settled(g, s)
    ensures var s', n := Round(g, s), s.tasks[0].name;
            NamesOf(s'.run) == if n in NamesOf(s.run) then NamesOf(s.run) else NamesOf(s.run) + [n]
  {
    var task := s.tasks[0];
    assert Round(g, s).run == if task.name in Names(s.run) then s.run else s.run + [task];
    NamesCat(s.run, [task]);
    assert NamesOf([task]) == [task.name];
    hide Settled, Round;
  }

  /** Nothing that a command waits for is open. */
  lemma MetAlready(g: Graph, s: State)
    requires s.tasks != []
    requires forall d :: d in g.Deps(s.tasks[0].name) ==> d in Names(s.run)
    requires forall o :: o in g.Order(s.tasks[0].name) && o in Names(s.tasks) ==> o in Names(s.run)
    ensures var n, w := s.tasks[0].name, Reached(s);
            Meets(g, w, n) == w && forall d :: d in InFront(g, w, n) ==> d in w.done
  {
    hide Names, NamesOf;
  }

  /** The run queue is the depth-first walk over the request. */
  lemma {:induction false} ScheduleWalks(g: Graph, rank: Name -> nat, all: set<Name>, s: State, k: nat)
    requires Acyclic(g, rank) && Closed(g, all) && Names(s.tasks) <= all && QueueOk(g, s)
    requires Below(rank, NamesOf(s.tasks), k)
    ensures NamesOf(Schedule(g, rank, all, s)) == Visit(g, rank, Reached(s), NamesOf(s.tasks), k).done
    decreases Unseen(all, s), |s.tasks|, Height(rank, s)
  {
    if s.tasks != [] {
      RoundProgress(g, rank, all, s);
      RoundKeepsQueue(g, s);
      RoundWalks(g, rank, s, k);
      hide Round, QueueOk, Visit, NamesOf, Acyclic, Closed;
      ScheduleWalks(g, rank, all, Round(g, s), k);
    }
  }

  /** The order in which `idf.py` runs what was requested, added dependencies included. */
  lemma RunsDepthFirst(g: Graph, rank: Name -> nat, all: set<Name>, requested: seq<Task>, firstId: nat, k: nat)
    requires Acyclic(g, rank) && Closed(g, all) && Names(requested) <= all && Below(rank, NamesOf(requested), k)
    ensures NamesOf(Schedule(g, rank, all, State(requested, [], firstId)))
         == Visit(g, rank, Walk(Names(requested), []), NamesOf(requested), k).done
  {
    var s := State(requested, [], firstId);
    assert Reached(s) == Walk(Names(requested), []);
    ScheduleWalks(g, rank, all, s, k);
  }

  /** Each command of a request stands behind what it depends on, and behind what it follows if requested. */
  ghost predicate InOrder(g: Graph, w: Walk, ns: seq<Name>) {
    && (forall i :: 0 <= i < |ns| ==> ns[i] in w.seen && ns[i] !in w.done && ns[i] !in ns[..i])
    && (forall i, d :: 0 <= i < |ns| && d in g.Deps(ns[i]) ==> d in w.seen && (d in w.done || d in ns[..i]))
    && (forall i, o :: 0 <= i < |ns| && o in g.Order(ns[i]) && o in w.seen ==> o in w.done || o in ns[..i])
  }

  /** A request in order stays as it is. */
  lemma {:induction false} InOrderStays(g: Graph, rank: Name -> nat, w: Walk, ns: seq<Name>, k: nat)
    requires Acyclic(g, rank) && Below(rank, ns, k) && InOrder(g, w, ns)
    ensures Visit(g, rank, w, ns, k) == Walk(w.seen, w.done + ns)
    decreases |ns|
  {
    if ns == [] {
      assert w.done + ns == w.done;
    } else {
      var n, rest := ns[0], ns[1..];
      var w1 := Walk(w.seen, w.done + [n]);
      assert ns == [n] + rest && w1.done + rest == w.done + ns;
      hide InOrder, Acyclic, InFront, Visit, Meets;
      InFrontLower(g, rank, w, n);
      FirstInOrder(g, w, ns);
      RestInOrder(g, w, ns);
      VisitSettled(g, rank, w, InFront(g, w, n), rank(n));
      VisitFirst(g, rank, w, n, rest, k);
      InOrderStays(g, rank, w1, rest, k);
    }
  }

  lemma FirstInOrder(g: Graph, w: Walk, ns: seq<Name>)
    requires ns != [] && InOrder(g, w, ns)
    ensures ns[0] !in w.done && Meets(g, w, ns[0]) == w && forall d :: d in InFront(g, w, ns[0]) ==> d in w.done
  {
    assert ns[..0] == [];
  }

  lemma RestInOrder(g: Graph, w: Walk, ns: seq<Name>)
    requires ns != [] && InOrder(g, w, ns)
    ensures InOrder(g, Walk(w.seen, w.done + [ns[0]]), ns[1..])
  {
    var n, rest := ns[0], ns[1..];
    forall i | 0 <= i < |rest|
      ensures rest[i] == ns[i + 1] && forall m :: m in ns[..i + 1] <==> m == n || m in rest[..i]
    {
      assert ns[..i + 1] == [n] + rest[..i];
    }
  }
}
