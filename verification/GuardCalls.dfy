/**
 What the guard functions mean to their callers: guards that are claimed, released or aborted in one instant.
 That object is driven by the calls in the schedule alone, so it says when a guard counts as initialised.
 */
module GuardCalls {
  import opened Bytes
  import opened StaticGuards

  /** A call that has not returned, with its outcome once it has taken effect. */
  datatype Call = Call(act: Act, outcome: Option<bool>)

  datatype Object = Object(ready: set<Guard>, owner: map<Guard, Task>, calls: map<Task, Call>)

  /** An acquire claims the guard unless it is ready; a release makes it ready; an abort gives it back as it was. */
  function Effect(o: Object, t: Task, act: Act): (o': Object) {
    match act
    case Acquire(g) =>
      if g in o.ready then o.(calls := o.calls[t := Call(act, Some(false))])
      else o.(owner := o.owner[g := t], calls := o.calls[t := Call(act, Some(true))])
    case Finish(g, true) =>
      o.(ready := o.ready + {g}, owner := o.owner - {g}, calls := o.calls[t := Call(act, Some(true))])
    case Finish(g, false) =>
      o.(owner := o.owner - {g}, calls := o.calls[t := Call(act, Some(false))])
    case Go => o
  }

  /** The steps at which a call takes effect. */
  predicate Deciding(pc: Pc) {
    pc.AcqDecide? || pc.FinBody?
  }

  /** The steps with which a call returns. */
  predicate Returning(pc: Pc) {
    pc.AcqUnlock? || pc.FinUnlock?
  }

  /** One entry of the schedule: a call starts, takes effect, returns, or goes on unseen. */
  function Observe(o: Object, s: State, t: Task, a: Act): (o': Object) {
    if !Enabled(s, t, a) then o
    else if !a.Go? then o.(calls := o.calls[t := Call(a, None)])
    else if Returning(s.pc[t]) then o.(calls := o.calls - {t})
    else if Deciding(s.pc[t]) && t in o.calls then Effect(o, t, o.calls[t].act)
    else o
  }

  function Seen(tasks: set<Task>, schedule: seq<(Task, Act)>): (o: Object)
    decreases |schedule|
  {
    if schedule == [] then Object({}, map[], map[])
    else
      var n := |schedule| - 1;
      Observe(Seen(tasks, schedule[..n]), Exec(Init(tasks), schedule[..n]), schedule[n].0, schedule[n].1)
  }

  function Running(o: Object, t: Task): (c: Option<Call>) {
    if t in o.calls then Some(o.calls[t]) else None
  }

  /** Where a task stands is where its call stands: in front of its effect, or behind it with its outcome. */
  predicate CallOk(pc: Pc, c: Option<Call>) {
    match pc
    case Idle => c == None
    case AcqLock(g) => c == Some(Call(Acquire(g), None))
    case AcqCheck(g) => c == Some(Call(Acquire(g), None))
    case WaitCount(g) => c == Some(Call(Acquire(g), None))
    case WaitUnlock(g) => c == Some(Call(Acquire(g), None))
    case WaitSem(g) => c == Some(Call(Acquire(g), None))
    case WaitLock(g) => c == Some(Call(Acquire(g), None))
    case WaitCheck(g) => c == Some(Call(Acquire(g), None))
    case AcqDecide(g) => c == Some(Call(Acquire(g), None))
    case AcqUnlock(g, won) => c == Some(Call(Acquire(g), Some(won)))
    case FinLock(g, done) => c == Some(Call(Finish(g, done), None))
    case FinBody(g, done) => c == Some(Call(Finish(g, done), None))
    case _ => c.Some? && c.value.act.Finish? && c.value.outcome == Some(c.value.act.done)
  }

  /** The code's state shows the guards of the object: initialised, or pending with their owner. */
  ghost predicate Shows(s: State, o: Object) {
    GuardsShow(s, o) && forall t :: t in s.pc ==> CallOk(s.pc[t], Running(o, t))
  }

  ghost predicate GuardsShow(s: State, o: Object) {
    && s.ready == o.ready && s.pending == o.owner.Keys
    && (forall t, g :: t in s.held ==> (g in s.held[t] <==> g in o.owner && o.owner[g] == t))
  }

  /** The call of the task that moves. */
  lemma MoverShows(s: State, o: Object, t: Task, a: Act)
    requires Shows(s, o) && PcInv(s) && Enabled(s, t, a)
    ensures CallOk(Step(s, t, a).pc[t], Running(Observe(o, s, t, a), t))
  {
    assert CallOk(s.pc[t], Running(o, t)) && PcOk(s, t);
  }

  lemma OthersCalls(s: State, o: Object, t: Task, a: Act, u: Task)
    requires u != t
    ensures Running(Observe(o, s, t, a), u) == Running(o, u)
  {
  }

  /** The guards, through any step that is not an effect. */
  lemma QuietStep(s: State, o: Object, t: Task, a: Act)
    requires Enabled(s, t, a) && (a.Go? ==> !Deciding(s.pc[t]))
    ensures var s', o' := Step(s, t, a), Observe(o, s, t, a);
            && s'.ready == s.ready && s'.pending == s.pending && s'.held == s.held
            && o'.ready == o.ready && o'.owner == o.owner
  {
  }

  lemma AcquireEffect(s: State, o: Object, t: Task)
    requires Enabled(s, t, Go) && s.pc[t].AcqDecide? && CallOk(s.pc[t], Running(o, t)) && s.ready == o.ready
    ensures var s', o', g := Step(s, t, Go), Observe(o, s, t, Go), s.pc[t].g;
            && s'.ready == s.ready && o'.ready == o.ready
            && (g in s.ready ==> s'.pending == s.pending && s'.held == s.held && o'.owner == o.owner)
            && (g !in s.ready ==>
                  && s'.pending == s.pending + {g} && s'.held == s.held[t := s.held[t] + {g}]
                  && o'.owner == o.owner[g := t])
  {
  }

  lemma FinishEffect(s: State, o: Object, t: Task)
    requires Enabled(s, t, Go) && s.pc[t].FinBody? && CallOk(s.pc[t], Running(o, t)) && s.ready == o.ready
    ensures var s', o', g := Step(s, t, Go), Observe(o, s, t, Go), s.pc[t].g;
            && s'.ready == o'.ready && s'.pending == s.pending - {g} && s'.held == s.held[t := s.held[t] - {g}]
            && o'.owner == o.owner - {g}
  {
  }

  lemma GuardsStep(s: State, o: Object, t: Task, a: Act)
    requires OwnInv(s) && PcInv(s) && GuardsShow(s, o) && Enabled(s, t, a) && CallOk(s.pc[t], Running(o, t))
    ensures GuardsShow(Step(s, t, a), Observe(o, s, t, a))
  {
    assert PcOk(s, t);
    if a.Go? && s.pc[t].AcqDecide? {
      AcquireEffect(s, o, t);
    } else if a.Go? && s.pc[t].FinBody? {
      FinishEffect(s, o, t);
    } else {
      QuietStep(s, o, t, a);
    }
    hide Step, Observe, PcInv, PcOk, CallOk, Running, Enabled;
  }

  lemma ObserveShows(s: State, o: Object, t: Task, a: Act)
    requires PcInv(s) && OwnInv(s) && Shows(s, o) && Enabled(s, t, a)
    ensures Shows(Step(s, t, a), Observe(o, s, t, a))
  {
    var s', o' := Step(s, t, a), Observe(o, s, t, a);
    hide Step, Observe, OwnInv, PcInv, CallOk, Running, GuardsShow;
    GuardsStep(s, o, t, a);
    OthersStay(s, t, a);
    MoverShows(s, o, t, a);
    hide Enabled;
    forall u | u in s'.pc
      ensures CallOk(s'.pc[u], Running(o', u))
    {
      if u != t {
        OthersCalls(s, o, t, a, u);
      }
    }
  }

  lemma {:induction false} ExecSnoc(s: State, schedule: seq<(Task, Act)>)
    requires schedule != []
    ensures var n := |schedule| - 1; Exec(s, schedule) == Turn(Exec(s, schedule[..n]), schedule[n])
  {
    var n := |schedule| - 1;
    ExecCat(s, schedule[..n], [schedule[n]]);
    assert schedule == schedule[..n] + [schedule[n]];
    ExecNone(Turn(Exec(s, schedule[..n]), schedule[n]));
    assert [schedule[n]] == [schedule[n]] + [];
    Single(Exec(s, schedule[..n]), schedule[n], []);
  }

  /**
   Every run of any number of tasks: each call takes effect once, between its start and its return, and what it
   returns is the outcome of that effect.
   */
  lemma {:induction false} CallsAreAtomic(tasks: set<Task>, schedule: seq<(Task, Act)>)
    requires |tasks| <= SEM_MAX
    ensures Shows(Exec(Init(tasks), schedule), Seen(tasks, schedule))
    decreases |schedule|
  {
    if schedule != [] {
      var n := |schedule| - 1;
      CallsAreAtomic(tasks, schedule[..n]);
      Reachable(tasks, schedule[..n]);
      ExecSnoc(Init(tasks), schedule);
      var s, x := Exec(Init(tasks), schedule[..n]), schedule[n];
      hide Exec, Shows;
      if Enabled(s, x.0, x.1) {
        ObserveShows(s, Seen(tasks, schedule[..n]), x.0, x.1);
      }
    }
  }

  /** Step `i` of the schedule is the one in which a release (`done`) or abort of `g` by `t` takes effect. */
  ghost predicate Ends(tasks: set<Task>, schedule: seq<(Task, Act)>, i: nat, t: Task, g: Guard, done: bool)
    requires i < |schedule|
  {
    var s := Exec(Init(tasks), schedule[..i]);
    && schedule[i] == (t, Go) && Known(s, t) && s.pc[t].FinBody?
    && Running(Seen(tasks, schedule[..i]), t) == Some(Call(Finish(g, done), None))
  }

  /** A guard has been released. */
  ghost predicate Released(tasks: set<Task>, schedule: seq<(Task, Act)>, g: Guard) {
    exists i, t :: 0 <= i < |schedule| && Ends(tasks, schedule, i, t, g, true)
  }

  lemma EndsInFront(tasks: set<Task>, schedule: seq<(Task, Act)>, n: nat, i: nat, t: Task, g: Guard, done: bool)
    requires i < n <= |schedule|
    ensures Ends(tasks, schedule[..n], i, t, g, done) <==> Ends(tasks, schedule, i, t, g, done)
  {
    assert schedule[..n][..i] == schedule[..i];
  }

  lemma ReleasedStep(tasks: set<Task>, schedule: seq<(Task, Act)>, g: Guard)
    requires schedule != []
    ensures var n := |schedule| - 1;
            Released(tasks, schedule, g)
            <==> Released(tasks, schedule[..n], g) || Ends(tasks, schedule, n, schedule[n].0, g, true)
  {
    var n := |schedule| - 1;
    hide Ends;
    forall i, t | 0 <= i < n
      ensures Ends(tasks, schedule[..n], i, t, g, true) <==> Ends(tasks, schedule, i, t, g, true)
    {
      EndsInFront(tasks, schedule, n, i, t, g, true);
    }
    assert forall t :: Ends(tasks, schedule, n, t, g, true) ==> t == schedule[n].0 by {
      forall t | Ends(tasks, schedule, n, t, g, true)
        ensures t == schedule[n].0
      {
        EndsAt(tasks, schedule, n, t, g, true);
      }
    }
  }

  lemma EndsAt(tasks: set<Task>, schedule: seq<(Task, Act)>, i: nat, t: Task, g: Guard, done: bool)
    requires i < |schedule| && Ends(tasks, schedule, i, t, g, done)
    ensures schedule[i] == (t, Go)
  {
  }

  /** A guard counts as initialised if and only if a release of it has taken effect; an abort never makes it so. */
  lemma {:induction false} ReadyIffReleased(tasks: set<Task>, schedule: seq<(Task, Act)>, g: Guard)
    requires |tasks| <= SEM_MAX
    ensures g in Exec(Init(tasks), schedule).ready <==> Released(tasks, schedule, g)
    decreases |schedule|
  {
    CallsAreAtomic(tasks, schedule);
    if schedule != [] {
      var n := |schedule| - 1;
      ReadyIffReleased(tasks, schedule[..n], g);
      CallsAreAtomic(tasks, schedule[..n]);
      ReleasedStep(tasks, schedule, g);
      var s, o, x := Exec(Init(tasks), schedule[..n]), Seen(tasks, schedule[..n]), schedule[n];
      hide Exec, Released;
      ReadyStep(s, o, x.0, x.1, g);
    }
  }

  lemma ReadyStep(s: State, o: Object, t: Task, a: Act, g: Guard)
    requires Shows(s, o)
    ensures g in Observe(o, s, t, a).ready
       <==> g in o.ready
            || (a == Go && Known(s, t) && s.pc[t].FinBody? && Running(o, t) == Some(Call(Finish(g, true), None)))
  {
    if t in s.pc {
      assert CallOk(s.pc[t], Running(o, t));
    }
  }

  /** What every reachable state says about a task. */
  lemma Standing(tasks: set<Task>, schedule: seq<(Task, Act)>, t: Task)
    requires |tasks| <= SEM_MAX && t in Exec(Init(tasks), schedule).pc
    ensures var s, o := Exec(Init(tasks), schedule), Seen(tasks, schedule);
            t in s.held && PcOk(s, t) && CallOk(s.pc[t], Running(o, t)) && GuardsShow(s, o) && OwnInv(s)
  {
    CallsAreAtomic(tasks, schedule);
    Reachable(tasks, schedule);
    hide Exec, Seen, PcOk, CallOk, Running, GuardsShow, OwnInv, WaitInv;
  }

  /** The effects of calls are legal: a guard is claimed by one task at a time and ended by the one that claimed it. */
  lemma EffectsAreLegal(tasks: set<Task>, schedule: seq<(Task, Act)>, t: Task)
    requires |tasks| <= SEM_MAX && t in Exec(Init(tasks), schedule).pc
    ensures var p, o := Exec(Init(tasks), schedule).pc[t], Seen(tasks, schedule);
            && (p.AcqDecide? ==> Running(o, t) == Some(Call(Acquire(p.g), None)) && p.g !in o.owner)
            && (p.FinBody? ==> p.g !in o.ready && p.g in o.owner && o.owner[p.g] == t)
  {
    Standing(tasks, schedule, t);
    hide Exec, Seen;
  }

  lemma EndsOwned(tasks: set<Task>, schedule: seq<(Task, Act)>, i: nat, t: Task, g: Guard, done: bool)
    requires |tasks| <= SEM_MAX && i < |schedule| && Ends(tasks, schedule, i, t, g, done)
    ensures var s, s' := Exec(Init(tasks), schedule[..i]), Exec(Init(tasks), schedule[..i + 1]);
            && Known(s, t) && g in s.held[t] && g !in s.ready
            && s'.ready == (if done then s.ready + {g} else s.ready) && s'.pending == s.pending - {g}
  {
    Standing(tasks, schedule[..i], t);
    ExecSnoc(Init(tasks), schedule[..i + 1]);
    assert schedule[..i + 1][..i] == schedule[..i];
    hide Exec, Seen, GuardsShow;
    FinishStep(Exec(Init(tasks), schedule[..i]), t, g, done);
  }

  lemma FinishStep(s: State, t: Task, g: Guard, done: bool)
    requires Known(s, t) && s.pc[t] == FinBody(g, done)
    ensures var s' := Turn(s, (t, Go));
            s'.ready == (if done then s.ready + {g} else s.ready) && s'.pending == s.pending - {g}
  {
  }

  lemma LaterReady(tasks: set<Task>, schedule: seq<(Task, Act)>, i: nat, j: nat)
    requires i <= j <= |schedule|
    ensures Exec(Init(tasks), schedule[..i]).ready <= Exec(Init(tasks), schedule[..j]).ready
  {
    assert schedule[..j] == schedule[..i] + schedule[i..j];
    ExecCat(Init(tasks), schedule[..i], schedule[i..j]);
    ReadyGrows(Exec(Init(tasks), schedule[..i]), schedule[i..j]);
  }

  /** Along every run a guard that is ready stays ready, and it is released at most once in all. */
  lemma ReadyOnceAndForever(tasks: set<Task>, schedule: seq<(Task, Act)>, i: nat, j: nat, t: Task, u: Task, g: Guard,
                            done: bool)
    requires |tasks| <= SEM_MAX && i < j < |schedule| && Ends(tasks, schedule, i, t, g, true)
    ensures g in Exec(Init(tasks), schedule[..j]).ready && g in Exec(Init(tasks), schedule).ready
    ensures !Ends(tasks, schedule, j, u, g, done)
  {
    EndsOwned(tasks, schedule, i, t, g, true);
    LaterReady(tasks, schedule, i + 1, j);
    LaterReady(tasks, schedule, j, |schedule|);
    assert schedule[..|schedule|] == schedule;
    if Ends(tasks, schedule, j, u, g, done) {
      EndsOwned(tasks, schedule, j, u, g, done);
    }
  }

  /** Once an abort has taken effect the guard is neither initialised nor pending. */
  lemma AbortReopens(tasks: set<Task>, schedule: seq<(Task, Act)>, i: nat, t: Task, g: Guard)
    requires |tasks| <= SEM_MAX && i < |schedule| && Ends(tasks, schedule, i, t, g, false)
    ensures var s := Exec(Init(tasks), schedule[..i + 1]); g !in s.ready && g !in s.pending
  {
    EndsOwned(tasks, schedule, i, t, g, false);
  }

  /** Acquire answers "already done" if and only if the guard has been released, and "your turn" only to the one
      task that then holds the guard. */
  lemma AcquireAnswers(tasks: set<Task>, schedule: seq<(Task, Act)>, t: Task)
    requires |tasks| <= SEM_MAX
    requires t in Exec(Init(tasks), schedule).pc && Exec(Init(tasks), schedule).pc[t].AcqUnlock?
    ensures var s := Exec(Init(tasks), schedule);
            var g := s.pc[t].g;
            && Running(Seen(tasks, schedule), t) == Some(Call(Acquire(g), Some(s.pc[t].won)))
            && (!s.pc[t].won <==> Released(tasks, schedule, g))
            && (s.pc[t].won <==> t in s.held && g in s.held[t])
  {
    Standing(tasks, schedule, t);
    ReadyIffReleased(tasks, schedule, Exec(Init(tasks), schedule).pc[t].g);
    hide Exec, Seen, Released, GuardsShow;
  }

  /** After an abort that nothing interrupts, the next undisturbed acquire gets the guard; after a release it
      does not. */
  lemma NextAcquire(s: State, t: Task, u: Task, g: Guard, done: bool)
    requires OwnInv(s) && Resting(s, t) && g in s.held[t] && s.waiting >= 0 && Resting(s, u)
    ensures var s' := Exec(s, FinishSteps(t, g, done, s.waiting) + ([(u, Acquire(g))] + Gos(u, 3)));
            && u in s'.pc && s'.pc[u] == AcqUnlock(g, !done)
            && (g in s'.ready <==> done) && (g in s'.pending <==> !done)
  {
    FinishRuns(s, t, g, done, [(u, Acquire(g))] + Gos(u, 3));
    var s1 := Finished(s, t, g, done);
    assert g in s.pending && g !in s.ready;
    AcquireDecides(s1, u, g);
  }

  /** An acquire that nothing interrupts, of a guard that is not pending, up to its return. */
  lemma AcquireDecides(s: State, u: Task, g: Guard)
    requires Resting(s, u) && g !in s.pending
    ensures var s' := Exec(s, [(u, Acquire(g))] + Gos(u, 3));
            && u in s'.pc && s'.pc[u].AcqUnlock? && s'.pc[u].g == g && (s'.pc[u].won <==> g !in s.ready)
            && s'.ready == s.ready
            && s'.pending == if g in s.ready then s.pending else s.pending + {g}
  {
    hide Exec, Gos;
    var s1 := Turn(s, (u, Acquire(g)));
    Single(s, (u, Acquire(g)), Gos(u, 3));
    Turn3(s1, u);
    Overwritten(s.pc, u, AcqLock(g), AcqCheck(g));
    assert Turn(s1, (u, Go)) == s.(mutex := Some(u), pc := s.pc[u := AcqCheck(g)]);
    Overwritten(s.pc, u, AcqCheck(g), AcqDecide(g));
    assert Turn(Turn(s1, (u, Go)), (u, Go)) == s.(mutex := Some(u), pc := s.pc[u := AcqDecide(g)]);
  }
}
