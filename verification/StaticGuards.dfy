/**
 One-time construction guards (Itanium C++ ABI, section 3.3.2) shared by any number of tasks.
 Every mutex or semaphore operation, and the code between two of them, is one step of one task.
 */
module StaticGuards {
  import opened Bytes

  type Task = nat
  type Guard = nat

  /** Largest count of the waiting semaphore (INT_MAX). */
  const SEM_MAX: nat := 0x7FFF_FFFF

  /** Where a task stands; the comment tells what its next step does. */
  datatype Pc =
    | Idle                               // outside the guard functions
    | AcqLock(g: Guard)                  // take the mutex
    | AcqCheck(g: Guard)                 // is the guard pending?
    | WaitCount(g: Guard)                // enter wait_for_guard_obj, count one more waiter
    | WaitUnlock(g: Guard)               // give the mutex
    | WaitSem(g: Guard)                  // take the semaphore
    | WaitLock(g: Guard)                 // take the mutex again
    | WaitCheck(g: Guard)                // wait again, or leave and count one waiter less
    | AcqDecide(g: Guard)                // already initialised, or the task's turn
    | AcqUnlock(g: Guard, won: bool)     // give the mutex and return
    | FinLock(g: Guard, done: bool)      // release (done) or abort: take the mutex
    | FinBody(g: Guard, done: bool)      // check the guard and clear pending
    | FinCount                           // read the number of waiters
    | Signal(left: int)                  // give the semaphore once more, or stop
    | FinUnlock                          // give the mutex and return

  datatype Act = Acquire(g: Guard) | Finish(g: Guard, done: bool) | Go

  datatype State = State(
    ready: set<Guard>,
    pending: set<Guard>,
    mutex: Option<Task>,
    sem: nat,
    waiting: int,
    pc: map<Task, Pc>,
    held: map<Task, set<Guard>>)     // guards a task is initialising

  function Init(tasks: set<Task>): (s: State) {
    State({}, {}, None, 0, 0, map t | t in tasks :: Idle, map t | t in tasks :: {})
  }

  predicate Known(s: State, t: Task) {
    t in s.pc && t in s.held
  }

  /** Can task `t` take this step now?  Finish is only called by the task that owns the guard. */
  predicate Enabled(s: State, t: Task, a: Act) {
    Known(s, t) &&
    match a
    case Acquire(_) => s.pc[t].Idle?
    case Finish(g, _) => s.pc[t].Idle? && g in s.held[t]
    case Go =>
      match s.pc[t]
      case Idle => false
      case AcqLock(_) => s.mutex.None?
      case WaitSem(_) => s.sem > 0
      case WaitLock(_) => s.mutex.None?
      case FinLock(_, _) => s.mutex.None?
      case _ => true
  }

  function Goto(s: State, t: Task, pc: Pc): (s': State) {
    s.(pc := s.pc[t := pc])
  }

  function Step(s: State, t: Task, a: Act): (s': State)
    requires Enabled(s, t, a)
  {
    match a
    case Acquire(g) => Goto(s, t, AcqLock(g))
    case Finish(g, done) => Goto(s, t, FinLock(g, done))
    case Go =>
      match s.pc[t]
      case AcqLock(g) => Goto(s.(mutex := Some(t)), t, AcqCheck(g))
      case AcqCheck(g) => Goto(s, t, if g in s.pending then WaitCount(g) else AcqDecide(g))
      case WaitCount(g) => Goto(s.(waiting := s.waiting + 1), t, WaitUnlock(g))
      case WaitUnlock(g) => Goto(s.(mutex := None), t, WaitSem(g))
      case WaitSem(g) => Goto(s.(sem := s.sem - 1), t, WaitLock(g))
      case WaitLock(g) => Goto(s.(mutex := Some(t)), t, WaitCheck(g))
      case WaitCheck(g) =>
        if g in s.pending then Goto(s, t, WaitUnlock(g))
        else Goto(s.(waiting := s.waiting - 1), t, AcqDecide(g))
      case AcqDecide(g) =>
        if g in s.ready then Goto(s, t, AcqUnlock(g, false))
        else Goto(s.(pending := s.pending + {g}, held := s.held[t := s.held[t] + {g}]), t, AcqUnlock(g, true))
      case AcqUnlock(_, _) => Goto(s.(mutex := None), t, Idle)
      case FinLock(g, done) => Goto(s.(mutex := Some(t)), t, FinBody(g, done))
      case FinBody(g, done) =>
        var s1 := s.(pending := s.pending - {g}, held := s.held[t := s.held[t] - {g}]);
        Goto(if done then s1.(ready := s.ready + {g}) else s1, t, FinCount)
      case FinCount => Goto(s, t, Signal(s.waiting))
      case Signal(k) =>
        if k == 0 then Goto(s, t, FinUnlock)
        else Goto(s.(sem := if s.sem < SEM_MAX then s.sem + 1 else s.sem), t, Signal(k - 1))
      case FinUnlock => Goto(s.(mutex := None), t, Idle)
  }

  // ---- Invariant ----

  /** Steps whose code runs between taking and giving the mutex. */
  predicate Critical(pc: Pc) {
    pc.AcqCheck? || pc.WaitCount? || pc.WaitUnlock? || pc.WaitCheck? || pc.AcqDecide? || pc.AcqUnlock?
    || pc.FinBody? || pc.FinCount? || pc.Signal? || pc.FinUnlock?
  }

  /** Counted in the waiting count. */
  predicate Counted(pc: Pc) {
    pc.WaitUnlock? || pc.WaitSem? || pc.WaitLock? || pc.WaitCheck?
  }

  ghost function Waiters(s: State): (w: set<Task>) {
    set t | t in s.pc && Counted(s.pc[t])
  }

  /** Tasks about to take the semaphore. */
  ghost function Takers(s: State): (w: set<Task>) {
    set t | t in s.pc && s.pc[t].WaitSem?
  }

  /** Semaphore gives that the running release or abort still owes. */
  function Owed(s: State): (n: int) {
    if s.mutex.Some? && s.mutex.value in s.pc then OwedAt(s.pc[s.mutex.value], s.waiting) else 0
  }

  function OwedAt(pc: Pc, waiting: int): (n: int) {
    if pc.FinCount? then waiting else if pc.Signal? then pc.left else 0
  }

  ghost predicate LockInv(s: State) {
    && s.pc.Keys == s.held.Keys
    && (s.mutex.Some? ==> s.mutex.value in s.pc)
    && forall t :: t in s.pc ==> (Critical(s.pc[t]) <==> s.mutex == Some(t))
  }

  /** What a task's position says about its guard. */
  ghost predicate PcOk(s: State, t: Task)
    requires t in s.pc && t in s.held
  {
    match s.pc[t]
    case WaitCount(g) => g in s.pending
    case WaitUnlock(g) => g in s.pending
    case AcqDecide(g) => g !in s.pending
    case AcqUnlock(g, won) => if won then g in s.held[t] else g in s.ready
    case FinLock(g, _) => g in s.held[t]
    case FinBody(g, _) => g in s.held[t]
    case _ => true
  }

  /** Pending guards have exactly one owner, and ready guards have none. */
  ghost predicate OwnInv(s: State) {
    && s.ready !! s.pending
    && (forall t :: t in s.held ==> s.held[t] <= s.pending)
    && (forall g :: g in s.pending ==> exists t :: t in s.held && g in s.held[t])
    && (forall t, u :: t in s.held && u in s.held && t != u ==> s.held[t] !! s.held[u])
  }

  ghost predicate PcInv(s: State) {
    forall t :: t in s.pc && t in s.held ==> PcOk(s, t)
  }

  /** No task waits for a guard that is still pending. */
  ghost predicate NoneBlocked(s: State) {
    forall t :: t in s.pc && Counted(s.pc[t]) ==> s.pc[t].g !in s.pending
  }

  ghost predicate WaitInv(s: State) {
    && |s.pc| <= SEM_MAX
    && s.waiting == |Waiters(s)|
    && Owed(s) >= 0
    && (NoneBlocked(s) ==> s.sem + Owed(s) >= |Takers(s)|)
  }

  ghost predicate Inv(s: State) {
    LockInv(s) && OwnInv(s) && PcInv(s) && WaitInv(s)
  }

  lemma InitInv(tasks: set<Task>)
    requires |tasks| <= SEM_MAX
    ensures Inv(Init(tasks))
  {
    var s := Init(tasks);
    assert s.pc.Keys == tasks == s.held.Keys;
    assert Waiters(s) == {} && Takers(s) == {};
  }

  lemma StepKeepsLockInv(s: State, t: Task, a: Act)
    requires LockInv(s) && Enabled(s, t, a)
    ensures LockInv(Step(s, t, a))
  {
    var s' := Step(s, t, a);
    assert s'.mutex == (if Critical(s'.pc[t]) then Some(t) else if Critical(s.pc[t]) then None else s.mutex);
    forall u | u in s'.pc
      ensures Critical(s'.pc[u]) <==> s'.mutex == Some(u)
    {
      assert u != t ==> s'.pc[u] == s.pc[u];
    }
  }

  lemma ClaimKeepsOwnInv(s: State, t: Task, g: Guard, s': State)
    requires OwnInv(s) && t in s.held && g !in s.pending && g !in s.ready
    requires s'.ready == s.ready
    requires s'.pending == s.pending + {g} && s'.held == s.held[t := s.held[t] + {g}]
    ensures OwnInv(s')
  {
    assert g in s'.held[t];
    forall h | h in s'.pending
      ensures exists u :: u in s'.held && h in s'.held[u]
    {
      if h in s.pending {
        var u :| u in s.held && h in s.held[u];
        assert h in s'.held[u];
      }
    }
  }

  lemma FinishKeepsOwnInv(s: State, t: Task, g: Guard, done: bool, s': State)
    requires OwnInv(s) && t in s.held && g in s.held[t]
    requires s'.pending == s.pending - {g} && s'.held == s.held[t := s.held[t] - {g}]
    requires s'.ready == if done then s.ready + {g} else s.ready
    ensures OwnInv(s')
  {
    assert g in s.pending && g !in s.ready;
    forall h | h in s'.pending
      ensures exists u :: u in s'.held && h in s'.held[u]
    {
      var u :| u in s.held && h in s.held[u];
      assert h in s'.held[u];
    }
  }

  lemma StepKeepsOwnInv(s: State, t: Task, a: Act)
    requires LockInv(s) && OwnInv(s) && PcInv(s) && Enabled(s, t, a)
    ensures OwnInv(Step(s, t, a))
  {
    var s' := Step(s, t, a);
    assert PcOk(s, t);
    if a.Go? && s.pc[t].AcqDecide? && s.pc[t].g !in s.ready {
      hide OwnInv;
      ClaimKeepsOwnInv(s, t, s.pc[t].g, s');
    } else if a.Go? && s.pc[t].FinBody? {
      hide OwnInv;
      FinishKeepsOwnInv(s, t, s.pc[t].g, s.pc[t].done, s');
    } else {
      assert s'.ready == s.ready && s'.pending == s.pending && s'.held == s.held;
    }
  }

  lemma StepKeepsPcInv(s: State, t: Task, a: Act)
    requires LockInv(s) && OwnInv(s) && PcInv(s) && Enabled(s, t, a)
    ensures PcInv(Step(s, t, a))
  {
    hide OwnInv;
    var s' := Step(s, t, a);
    assert PcOk(s, t);
    forall u | u in s'.pc && u in s'.held
      ensures PcOk(s', u)
    {
      if u != t {
        assert PcOk(s, u);
        assert s'.pc[u] == s.pc[u] && s'.held[u] == s.held[u];
        assert Critical(s.pc[t]) ==> !Critical(s.pc[u]);
      }
    }
  }

  /** Moving one task changes the number of tasks at a set of positions by that task alone. */
  lemma CountMoves(before: set<Task>, after: set<Task>, t: Task)
    requires before - {t} == after - {t}
    ensures |after| == |before| - (if t in before then 1 else 0) + (if t in after then 1 else 0)
  {
    assert |before - {t}| == |before| - (if t in before then 1 else 0);
    assert |after - {t}| == |after| - (if t in after then 1 else 0);
  }

  /** How moving one task changes the two populations of the wait loop. */
  lemma PopulationAfter(s: State, t: Task, p: Pc, s': State)
    requires t in s.pc && s'.pc == s.pc[t := p]
    ensures |s'.pc| == |s.pc|
    ensures |Waiters(s')| == |Waiters(s)| - (if Counted(s.pc[t]) then 1 else 0) + (if Counted(p) then 1 else 0)
    ensures |Takers(s')| == |Takers(s)| - (if s.pc[t].WaitSem? then 1 else 0) + (if p.WaitSem? then 1 else 0)
    ensures |Takers(s')| <= |Waiters(s')| <= |s'.pc|
  {
    assert s'.pc.Keys == s.pc.Keys;
    assert |s'.pc| == |s'.pc.Keys| && |s.pc| == |s.pc.Keys|;
    assert Waiters(s) - {t} == Waiters(s') - {t};
    assert Takers(s) - {t} == Takers(s') - {t};
    CountMoves(Waiters(s), Waiters(s'), t);
    CountMoves(Takers(s), Takers(s'), t);
    SubsetSize(Takers(s'), Waiters(s'));
    SubsetSize(Waiters(s'), s'.pc.Keys);
  }

  lemma OwedAfter(s: State, t: Task, a: Act)
    requires LockInv(s) && Enabled(s, t, a)
    ensures var s' := Step(s, t, a);
            if Critical(s.pc[t]) || Critical(s'.pc[t])
            then Owed(s) == OwedAt(s.pc[t], s.waiting) && Owed(s') == OwedAt(s'.pc[t], s'.waiting)
            else Owed(s') == Owed(s)
  {
  }

  lemma PendingGrows(s: State, t: Task, a: Act)
    requires Enabled(s, t, a)
    ensures !(a.Go? && s.pc[t].FinBody?) ==> s.pending <= Step(s, t, a).pending
  {
  }

  /** A waiting task that moves on waits for the same guard, or leaves because its guard is no longer pending. */
  lemma MoverWaits(s: State, t: Task, a: Act)
    requires Enabled(s, t, a) && Counted(s.pc[t]) && s.pc[t].g in s.pending
    ensures var s' := Step(s, t, a); Counted(s'.pc[t]) && s'.pc[t].g == s.pc[t].g
  {
  }

  lemma OthersStay(s: State, t: Task, a: Act)
    requires Enabled(s, t, a)
    ensures Step(s, t, a).pc == s.pc[t := Step(s, t, a).pc[t]]
  {
  }

  /** Only the end of an initialisation can unblock a waiting task. */
  lemma BlockedAfter(s: State, t: Task, a: Act)
    requires Enabled(s, t, a)
    ensures var s' := Step(s, t, a);
            NoneBlocked(s') ==>
              && (Counted(s'.pc[t]) ==> s'.pc[t].g !in s'.pending)
              && (NoneBlocked(s) || (a.Go? && s.pc[t].FinBody?))
  {
    var s' := Step(s, t, a);
    PendingGrows(s, t, a);
    OthersStay(s, t, a);
    if Counted(s.pc[t]) && s.pc[t].g in s.pending {
      MoverWaits(s, t, a);
    }
    hide Step, Enabled;
    if NoneBlocked(s') && !(a.Go? && s.pc[t].FinBody?) {
      forall u | u in s.pc && Counted(s.pc[u])
        ensures s.pc[u].g !in s.pending
      {
        assert u in s'.pc && (u != t ==> s'.pc[u] == s.pc[u]);
      }
    }
  }

  /** The waiting count follows the tasks in and out of the wait loop. */
  lemma WaitingAfter(s: State, t: Task, a: Act)
    requires Enabled(s, t, a)
    ensures var s' := Step(s, t, a);
            s'.waiting == s.waiting - (if Counted(s.pc[t]) then 1 else 0) + (if Counted(s'.pc[t]) then 1 else 0)
  {
  }

  /** What one step does to the semaphore and to the gives still owed, against the tasks that need them. */
  lemma GivesAfter(s: State, t: Task, a: Act)
    requires Enabled(s, t, a) && s.waiting >= 0 && OwedAt(s.pc[t], s.waiting) >= 0
    ensures var s' := Step(s, t, a);
            && OwedAt(s'.pc[t], s'.waiting) >= 0
            && (s.sem < SEM_MAX && !(a.Go? && s.pc[t].FinBody?) && !(a.Go? && s.pc[t].WaitUnlock?) ==>
                  s'.sem + OwedAt(s'.pc[t], s'.waiting) + (if s.pc[t].WaitSem? then 1 else 0)
                  == s.sem + OwedAt(s.pc[t], s.waiting) + (if s'.pc[t].WaitSem? then 1 else 0))
            && (s.sem >= SEM_MAX ==> s'.sem >= SEM_MAX - (if s.pc[t].WaitSem? then 1 else 0))
            && (a.Go? && s.pc[t].FinBody? ==> OwedAt(s'.pc[t], s'.waiting) == s.waiting && s'.sem == s.sem)
  {
  }

  /** The invariant of the wait loop, over the sizes of the populations. */
  lemma StepKeepsWaitInv(s: State, t: Task, a: Act)
    requires Inv(s) && Enabled(s, t, a)
    ensures WaitInv(Step(s, t, a))
  {
    var s' := Step(s, t, a);
    assert PcOk(s, t);
    OthersStay(s, t, a);
    OwedAfter(s, t, a);
    BlockedAfter(s, t, a);
    PopulationAfter(s, t, s'.pc[t], s');
    WaitingAfter(s, t, a);
    OwedHere(s, t);
    GivesAfter(s, t, a);
    assert a.Go? && s.pc[t].WaitUnlock? ==> s.pc[t].g in s'.pending && s'.pc[t] == WaitSem(s.pc[t].g);
    hide Waiters, Takers, OwnInv, LockInv, Owed, NoneBlocked, Step, Enabled, PcInv, OwedAt, PcOk;
  }

  /** A task in a critical section is the one whose gives are owed; any other owes none. */
  lemma OwedHere(s: State, t: Task)
    requires LockInv(s) && WaitInv(s) && t in s.pc
    ensures s.waiting >= 0 && OwedAt(s.pc[t], s.waiting) >= 0
  {
    hide NoneBlocked, Takers, Waiters;
  }

  // ---- Whole runs ----

  /** One turn of the scheduler; choosing a task that cannot proceed changes nothing. */
  function Turn(s: State, x: (Task, Act)): (s': State) {
    if Enabled(s, x.0, x.1) then Step(s, x.0, x.1) else s
  }

  function Exec(s: State, schedule: seq<(Task, Act)>): (s': State)
    decreases |schedule|
  {
    if schedule == [] then s else Exec(Turn(s, schedule[0]), schedule[1..])
  }

  lemma {:induction false} ExecKeepsInv(s: State, schedule: seq<(Task, Act)>)
    requires Inv(s)
    ensures Inv(Exec(s, schedule))
    decreases |schedule|
  {
    if schedule != [] {
      var (t, a) := schedule[0];
      assert Inv(Turn(s, schedule[0])) by {
        if Enabled(s, t, a) {
          hide OwnInv, PcInv, WaitInv, Step;
          StepKeepsLockInv(s, t, a);
          StepKeepsOwnInv(s, t, a);
          StepKeepsPcInv(s, t, a);
          StepKeepsWaitInv(s, t, a);
        }
      }
      ExecKeepsInv(Turn(s, schedule[0]), schedule[1..]);
    }
  }

  /** Every state of every run of any number of tasks on any guards. */
  lemma Reachable(tasks: set<Task>, schedule: seq<(Task, Act)>)
    requires |tasks| <= SEM_MAX
    ensures Inv(Exec(Init(tasks), schedule))
  {
    InitInv(tasks);
    ExecKeepsInv(Init(tasks), schedule);
  }

  /** A guard is pending exactly when one task, and only one, is initialising it. */
  lemma PendingIffOneOwner(tasks: set<Task>, schedule: seq<(Task, Act)>, g: Guard)
    requires |tasks| <= SEM_MAX
    ensures var s := Exec(Init(tasks), schedule);
            && (g in s.pending <==> exists t :: t in s.held && g in s.held[t])
            && (forall t, u :: t in s.held && u in s.held && g in s.held[t] && g in s.held[u] ==> t == u)
  {
    Reachable(tasks, schedule);
    hide Exec;
  }

  /** No assert of acquire, release or abort can fail for callers that own the guard they finish. */
  lemma AssertsHold(tasks: set<Task>, schedule: seq<(Task, Act)>, t: Task)
    requires |tasks| <= SEM_MAX && t in Exec(Init(tasks), schedule).pc
    ensures var s := Exec(Init(tasks), schedule);
            && (s.pc[t].FinBody? ==> s.pc[t].g in s.pending && s.pc[t].g !in s.ready)
            && (s.pc[t].AcqUnlock? || s.pc[t].WaitUnlock? || s.pc[t].FinUnlock? ==> s.mutex == Some(t))
            && (s.pc[t].WaitCheck? ==> s.waiting > 0)
  {
    Reachable(tasks, schedule);
    var s := Exec(Init(tasks), schedule);
    hide Exec;
    assert t in s.held && PcOk(s, t);
    if s.pc[t].WaitCheck? {
      assert t in Waiters(s);
    }
  }

  lemma {:induction false} ExecCat(s: State, a: seq<(Task, Act)>, b: seq<(Task, Act)>)
    ensures Exec(s, a + b) == Exec(Exec(s, a), b)
    decreases |a|
  {
    if a == [] {
      assert a + b == b;
    } else {
      assert (a + b)[1..] == a[1..] + b;
      ExecCat(Turn(s, a[0]), a[1..], b);
    }
  }

  lemma {:induction false} ReadyGrows(s: State, schedule: seq<(Task, Act)>)
    ensures s.ready <= Exec(s, schedule).ready
    decreases |schedule|
  {
    if schedule != [] {
      ReadyGrows(Turn(s, schedule[0]), schedule[1..]);
    }
  }

  /** When the mutex is free the waiting count is the number of tasks inside `wait_for_guard_obj`. */
  lemma WaitingCountExact(tasks: set<Task>, schedule: seq<(Task, Act)>)
    requires |tasks| <= SEM_MAX && Exec(Init(tasks), schedule).mutex.None?
    ensures var s := Exec(Init(tasks), schedule);
            s.waiting == |set t | t in s.pc && (Counted(s.pc[t]) || s.pc[t].WaitCount?)|
  {
    Reachable(tasks, schedule);
    var s := Exec(Init(tasks), schedule);
    hide Exec;
    assert (set t | t in s.pc && (Counted(s.pc[t]) || s.pc[t].WaitCount?)) == Waiters(s);
  }

  /** Every task about to take the semaphore finds a count waiting for it. */
  ghost predicate EnoughWakeUps(s: State) {
    s.sem >= |Takers(s)|
  }

  /** No lost wake-up: with the mutex free, and while no task waits for a guard that is pending. */
  lemma NoLostWakeUp(tasks: set<Task>, schedule: seq<(Task, Act)>)
    requires |tasks| <= SEM_MAX
    requires Exec(Init(tasks), schedule).mutex.None? && NoneBlocked(Exec(Init(tasks), schedule))
    ensures EnoughWakeUps(Exec(Init(tasks), schedule))
  {
    Reachable(tasks, schedule);
    var s := Exec(Init(tasks), schedule);
    hide Exec;
  }

  /** No deadlock: while no task waits for a pending guard, some task inside the guard functions can take a step. */
  lemma NeverStuck(tasks: set<Task>, schedule: seq<(Task, Act)>, t: Task)
    requires |tasks| <= SEM_MAX && NoneBlocked(Exec(Init(tasks), schedule))
    requires t in Exec(Init(tasks), schedule).pc && !Exec(Init(tasks), schedule).pc[t].Idle?
    ensures exists u :: Enabled(Exec(Init(tasks), schedule), u, Go)
  {
    Reachable(tasks, schedule);
    var s := Exec(Init(tasks), schedule);
    hide Exec, OwnInv, NoneBlocked, Enabled, PcInv;
    if s.mutex.Some? {
      HolderCanGo(s);
    } else {
      assert s.sem >= |Takers(s)|;
      OutsiderCanGo(s, t);
    }
  }

  lemma HolderCanGo(s: State)
    requires LockInv(s) && s.mutex.Some?
    ensures Enabled(s, s.mutex.value, Go)
  {
    assert Critical(s.pc[s.mutex.value]);
  }

  lemma OutsiderCanGo(s: State, t: Task)
    requires LockInv(s) && s.mutex.None? && t in s.pc && !s.pc[t].Idle? && s.sem >= |Takers(s)|
    ensures Enabled(s, t, Go)
  {
    assert !Critical(s.pc[t]);
    if s.pc[t].WaitSem? {
      assert t in Takers(s);
    }
  }

  // ---- The semaphore is shared by all guards: a task that waits for a pending one can use up every wake-up ----

  lemma Exec4(s: State, a: (Task, Act), b: (Task, Act), c: (Task, Act), d: (Task, Act))
    ensures Exec(s, [a, b, c, d]) == Turn(Turn(Turn(Turn(s, a), b), c), d)
  {
    hide Turn;
    var s1, s2, s3 := Turn(s, a), Turn(Turn(s, a), b), Turn(Turn(Turn(s, a), b), c);
    assert [a, b, c, d][1..] == [b, c, d] && [b, c, d][1..] == [c, d] && [c, d][1..] == [d] && |[d][1..]| == 0;
    assert Exec(s3, [d]) == Exec(Turn(s3, d), []) == Turn(s3, d);
    assert Exec(s2, [c, d]) == Exec(s3, [d]);
    assert Exec(s1, [b, c, d]) == Exec(s2, [c, d]);
  }

  function Four(t: Task): (schedule: seq<(Task, Act)>) {
    [(t, Go), (t, Go), (t, Go), (t, Go)]
  }

  lemma Single(s: State, x: (Task, Act), a: seq<(Task, Act)>)
    ensures Exec(s, [x] + a) == Exec(Turn(s, x), a)
  {
  }

  /** The start of a call followed by four more steps of its task. */
  lemma CallAndFour(s: State, first: Act, t: Task, rest: seq<(Task, Act)>)
    ensures Exec(s, [(t, first)] + Four(t) + rest) == Exec(Exec(Turn(s, (t, first)), Four(t)), rest)
  {
    hide Turn;
    assert [(t, first)] + Four(t) + rest == [(t, first)] + (Four(t) + rest);
    Single(s, (t, first), Four(t) + rest);
    ExecCat(Turn(s, (t, first)), Four(t), rest);
  }

  predicate Resting(s: State, t: Task) {
    Known(s, t) && s.pc[t].Idle? && s.mutex.None?
  }

  lemma Overwritten(pc: map<Task, Pc>, t: Task, p: Pc, q: Pc)
    ensures pc[t := p][t := q] == pc[t := q]
    ensures t in pc ==> pc[t := pc[t]] == pc
  {
  }

  /** A task takes a free guard. */
  lemma Wins(s: State, t: Task, g: Guard, rest: seq<(Task, Act)>)
    requires Resting(s, t) && g !in s.pending && g !in s.ready
    ensures Exec(s, [(t, Acquire(g))] + Four(t) + rest)
            == Exec(s.(pending := s.pending + {g}, held := s.held[t := s.held[t] + {g}]), rest)
  {
    hide Exec;
    CallAndFour(s, Acquire(g), t, rest);
    var x := (t, Go);
    var s1 := Turn(s, (t, Acquire(g)));
    Exec4(s1, x, x, x, x);
    var s2, s3 := Turn(s1, x), Turn(Turn(s1, x), x);
    Overwritten(s.pc, t, AcqLock(g), AcqCheck(g));
    assert s2 == s.(mutex := Some(t), pc := s.pc[t := AcqCheck(g)]);
    Overwritten(s.pc, t, AcqCheck(g), AcqDecide(g));
    assert s3 == s.(mutex := Some(t), pc := s.pc[t := AcqDecide(g)]);
    Overwritten(s.pc, t, AcqDecide(g), AcqUnlock(g, true));
    Overwritten(s.pc, t, AcqUnlock(g, true), Idle);
  }

  /** A task finds the guard pending and goes to sleep. */
  lemma Sleeps(s: State, t: Task, g: Guard, rest: seq<(Task, Act)>)
    requires Resting(s, t) && g in s.pending
    ensures Exec(s, [(t, Acquire(g))] + Four(t) + rest)
            == Exec(s.(waiting := s.waiting + 1, pc := s.pc[t := WaitSem(g)]), rest)
  {
    hide Exec;
    CallAndFour(s, Acquire(g), t, rest);
    var x := (t, Go);
    var s1 := Turn(s, (t, Acquire(g)));
    Exec4(s1, x, x, x, x);
    var s2, s3 := Turn(s1, x), Turn(Turn(s1, x), x);
    Overwritten(s.pc, t, AcqLock(g), AcqCheck(g));
    assert s2 == s.(mutex := Some(t), pc := s.pc[t := AcqCheck(g)]);
    Overwritten(s.pc, t, AcqCheck(g), WaitCount(g));
    assert s3 == s.(mutex := Some(t), pc := s.pc[t := WaitCount(g)]);
    Overwritten(s.pc, t, WaitCount(g), WaitUnlock(g));
    assert Turn(s3, x) == s.(mutex := Some(t), waiting := s.waiting + 1, pc := s.pc[t := WaitUnlock(g)]);
    Overwritten(s.pc, t, WaitUnlock(g), WaitSem(g));
  }

  function Gos(t: Task, n: nat): (schedule: seq<(Task, Act)>) {
    if n == 0 then [] else [(t, Go)] + Gos(t, n - 1)
  }

  lemma {:induction false} MoreGos(s: State, t: Task, n: nat, k: nat)
    ensures Exec(s, Gos(t, n + k)) == Exec(Exec(s, Gos(t, n)), Gos(t, k))
    decreases n
  {
    if n > 0 {
      var s1 := Turn(s, (t, Go));
      hide Turn;
      Single(s, (t, Go), Gos(t, n - 1 + k));
      Single(s, (t, Go), Gos(t, n - 1));
      MoreGos(s1, t, n - 1, k);
    }
  }

  /** The semaphore's count after `k` gives. */
  function Given(sem: nat, k: nat): (n: nat) {
    if sem + k <= SEM_MAX then sem + k else if sem < SEM_MAX then SEM_MAX else sem
  }

  lemma {:induction false} Signals(s: State, t: Task, k: nat)
    requires Known(s, t) && s.pc[t] == Signal(k)
    ensures Exec(s, Gos(t, k)) == s.(sem := Given(s.sem, k), pc := s.pc[t := Signal(0)])
    decreases k
  {
    if k > 0 {
      var s1 := Turn(s, (t, Go));
      assert s1 == s.(sem := Given(s.sem, 1), pc := s.pc[t := Signal(k - 1)]);
      Single(s, (t, Go), Gos(t, k - 1));
      hide Exec, Turn;
      Signals(s1, t, k - 1);
      Overwritten(s.pc, t, Signal(k - 1), Signal(0));
    } else {
      Overwritten(s.pc, t, Idle, Idle);
    }
  }

  lemma NextGo(t: Task, n: nat)
    ensures Gos(t, 0) == [] && Gos(t, n + 1) == [(t, Go)] + Gos(t, n)
  {
  }

  lemma Turn3(s: State, t: Task)
    ensures Exec(s, Gos(t, 3)) == Turn(Turn(Turn(s, (t, Go)), (t, Go)), (t, Go))
    ensures Exec(s, Gos(t, 2)) == Turn(Turn(s, (t, Go)), (t, Go))
  {
    hide Turn;
    var x := (t, Go);
    NextGo(t, 0);
    NextGo(t, 1);
    NextGo(t, 2);
    var s1, s2, s3 := Turn(s, x), Turn(Turn(s, x), x), Turn(Turn(Turn(s, x), x), x);
    ExecNone(s2);
    ExecNone(s3);
    Single(s, x, Gos(t, 2));
    Single(s1, x, Gos(t, 1));
    Single(s2, x, []);
    Single(s, x, Gos(t, 1));
    Single(s1, x, []);
  }

  /** The state after a whole release or abort: the guard is free again, ready only after a release, and
      the semaphore has been given once for every waiting task. */
  function Finished(s: State, t: Task, g: Guard, done: bool): (s': State)
    requires Known(s, t) && s.waiting >= 0
  {
    s.(pending := s.pending - {g}, held := s.held[t := s.held[t] - {g}],
       ready := if done then s.ready + {g} else s.ready, sem := Given(s.sem, s.waiting))
  }

  /** The steps of a whole release or abort, when `waiting` tasks wait. */
  function FinishSteps(t: Task, g: Guard, done: bool, waiting: nat): (schedule: seq<(Task, Act)>) {
    [(t, Finish(g, done))] + Gos(t, 3 + (waiting + 2))
  }

  /** ... up to the count of the waiting tasks, ... */
  lemma FinishBegins(s: State, t: Task, g: Guard, done: bool)
    requires Resting(s, t) && g in s.held[t] && s.waiting >= 0
    ensures Exec(Turn(s, (t, Finish(g, done))), Gos(t, 3))
            == Finished(s, t, g, done).(sem := s.sem, mutex := Some(t), pc := s.pc[t := Signal(s.waiting)])
  {
    hide Exec;
    var s1 := Turn(s, (t, Finish(g, done)));
    Turn3(s1, t);
    Overwritten(s.pc, t, FinLock(g, done), FinBody(g, done));
    var s2 := Turn(s1, (t, Go));
    assert s2 == s.(mutex := Some(t), pc := s.pc[t := FinBody(g, done)]);
    Overwritten(s.pc, t, FinBody(g, done), FinCount);
    var s3 := Turn(s2, (t, Go));
    assert s3 == Finished(s, t, g, done).(sem := s.sem, mutex := Some(t), pc := s.pc[t := FinCount]);
    Overwritten(s.pc, t, FinCount, Signal(s.waiting));
  }

  /** ... and from there to its end. */
  lemma FinishEnds(s: State, t: Task)
    requires Known(s, t) && s.pc[t] == Signal(0)
    ensures Exec(s, Gos(t, 2)) == s.(mutex := None, pc := s.pc[t := Idle])
  {
    hide Exec;
    Turn3(s, t);
    Overwritten(s.pc, t, FinUnlock, Idle);
  }

  /** A whole release or abort that no other task interrupts. */
  lemma FinishRuns(s: State, t: Task, g: Guard, done: bool, rest: seq<(Task, Act)>)
    requires Resting(s, t) && g in s.held[t] && s.waiting >= 0
    ensures Exec(s, FinishSteps(t, g, done, s.waiting) + rest) == Exec(Finished(s, t, g, done), rest)
  {
    var x, w := (t, Finish(g, done)), s.waiting;
    hide Exec, Turn, Gos;
    Single(s, x, Gos(t, 3 + (w + 2)) + rest);
    ExecCat(Turn(s, x), Gos(t, 3 + (w + 2)), rest);
    assert FinishSteps(t, g, done, w) + rest == [x] + (Gos(t, 3 + (w + 2)) + rest);
    FinishWhole(s, t, g, done);
  }

  lemma FinishWhole(s: State, t: Task, g: Guard, done: bool)
    requires Resting(s, t) && g in s.held[t] && s.waiting >= 0
    ensures Exec(Turn(s, (t, Finish(g, done))), Gos(t, 3 + (s.waiting + 2))) == Finished(s, t, g, done)
  {
    hide Exec, Turn, Gos, Given;
    var w, s1 := s.waiting, Turn(s, (t, Finish(g, done)));
    MoreGos(s1, t, 3, w + 2);
    FinishBegins(s, t, g, done);
    var s2 := Finished(s, t, g, done).(sem := s.sem, mutex := Some(t), pc := s.pc[t := Signal(w)]);
    MoreGos(s2, t, w, 2);
    Signals(s2, t, w);
    Overwritten(s.pc, t, Signal(w), Signal(0));
    var s3 := Finished(s, t, g, done).(mutex := Some(t), pc := s.pc[t := Signal(0)]);
    assert Exec(s2, Gos(t, w)) == s3;
    FinishEnds(s3, t);
    Overwritten(s.pc, t, Signal(0), Idle);
    Overwritten(s.pc, t, Idle, Idle);
  }

  /** A task woken for a guard that is still pending goes back to the semaphore. */
  lemma WakesInVain(s: State, t: Task, g: Guard)
    requires Known(s, t) && s.pc[t] == WaitSem(g) && s.mutex.None? && s.sem > 0 && g in s.pending
    ensures Exec(s, Four(t)) == s.(sem := s.sem - 1)
  {
    Exec4(s, (t, Go), (t, Go), (t, Go), (t, Go));
    assert s.pc[t := WaitLock(g)][t := WaitCheck(g)][t := WaitUnlock(g)][t := WaitSem(g)] == s.pc;
  }

  function Rounds(t: Task, n: nat): (schedule: seq<(Task, Act)>) {
    if n == 0 then [] else Four(t) + Rounds(t, n - 1)
  }

  /** One such task uses up all wake-ups. */
  lemma {:induction false} UsesUp(s: State, t: Task, g: Guard)
    requires Known(s, t) && s.pc[t] == WaitSem(g) && s.mutex.None? && g in s.pending
    ensures Exec(s, Rounds(t, s.sem)) == s.(sem := 0)
    decreases s.sem
  {
    if s.sem > 0 {
      WakesInVain(s, t, g);
      ExecCat(s, Four(t), Rounds(t, s.sem - 1));
      hide Exec, Four;
      UsesUp(s.(sem := s.sem - 1), t, g);
    }
  }

  /** A task on its way from the semaphore gets back to it. */
  lemma ReturnsToSemaphore(s: State, t: Task, g: Guard)
    requires Known(s, t) && s.pc[t] == WaitLock(g) && s.mutex.None? && g in s.pending
    ensures Exec(s, [(t, Go)] + ([(t, Go)] + [(t, Go)])) == s.(pc := s.pc[t := WaitSem(g)])
  {
    var x := (t, Go);
    assert [x] == [x] + [];
    ExecNone(Turn(Turn(Turn(s, x), x), x));
    hide Exec;
    Single(s, x, [x] + [x]);
    Single(Turn(s, x), x, [x]);
    Single(Turn(Turn(s, x), x), x, []);
    assert s.pc[t := WaitCheck(g)][t := WaitUnlock(g)][t := WaitSem(g)] == s.pc[t := WaitSem(g)];
  }

  /** The mutex is free again, the same guards are pending and the same tasks wait for the same guards. */
  ghost predicate SameWaits(s: State, s': State) {
    && s'.mutex.None? && s'.pending == s.pending && s'.pc.Keys == s.pc.Keys
    && forall t :: t in s.pc ==>
         (Counted(s'.pc[t]) <==> Counted(s.pc[t])) && (Counted(s.pc[t]) ==> s'.pc[t].g == s.pc[t].g)
  }

  lemma BlockedUsesUp(s: State, t: Task) returns (later: seq<(Task, Act)>)
    requires Inv(s) && s.mutex.None? && t in s.pc && Counted(s.pc[t]) && s.pc[t].g in s.pending
    ensures SameWaits(s, Exec(s, later)) && !EnoughWakeUps(Exec(s, later))
  {
    hide OwnInv, PcInv, WaitInv;
    var g := s.pc[t].g;
    assert !Critical(s.pc[t]) && Known(s, t);
    var s1, first := s, [];
    if s.pc[t].WaitLock? {
      first := [(t, Go)] + ([(t, Go)] + [(t, Go)]);
      s1 := s.(pc := s.pc[t := WaitSem(g)]);
      ReturnsToSemaphore(s, t, g);
    }
    hide Exec, LockInv;
    assert Exec(s, first) == s1 by {
      if !s.pc[t].WaitLock? {
        ExecNone(s);
      }
    }
    UsesUp(s1, t, g);
    later := first + Rounds(t, s1.sem);
    ExecCat(s, first, Rounds(t, s1.sem));
    var s' := s1.(sem := 0);
    assert t in Takers(s') && SameWaits(s, s');
  }

  lemma ExecNone(s: State)
    ensures Exec(s, []) == s
  {
  }

  /**
   The exact condition: in a reachable state with the mutex free, every waiting task is sure of its wake-up, however the
   waiting tasks come round the loop, if and only if none of them waits for a guard that is pending.
   */
  lemma WakeUpsCertainIff(tasks: set<Task>, schedule: seq<(Task, Act)>)
    requires |tasks| <= SEM_MAX && Exec(Init(tasks), schedule).mutex.None?
    ensures var s := Exec(Init(tasks), schedule);
            NoneBlocked(s) <==> forall later :: SameWaits(s, Exec(s, later)) ==> EnoughWakeUps(Exec(s, later))
  {
    var s := Exec(Init(tasks), schedule);
    Reachable(tasks, schedule);
    hide Exec, Inv, EnoughWakeUps;
    if NoneBlocked(s) {
      forall later | SameWaits(s, Exec(s, later))
        ensures EnoughWakeUps(Exec(s, later))
      {
        ExecCat(Init(tasks), schedule, later);
        NoLostWakeUp(tasks, schedule + later);
      }
    } else {
      var t :| t in s.pc && Counted(s.pc[t]) && s.pc[t].g in s.pending;
      var later := BlockedUsesUp(s, t);
    }
  }

  /** Task 3, waiting for guard 1, uses up both wake-ups of guard 0's completion. */
  function StealingSchedule(): (schedule: seq<(Task, Act)>) {
    [(0, Acquire(0))] + Four(0) +
    ([(1, Acquire(1))] + Four(1) +
     ([(2, Acquire(0))] + Four(2) +
      ([(3, Acquire(1))] + Four(3) +
       (FinishSteps(0, 0, true, 2) + Rounds(3, 2)))))
  }

  /** While another guard is pending a wake-up can be lost: guard 0 is ready and the mutex is free, yet
      task 2, which waits for it, finds the semaphore empty. */
  lemma WakeUpStolenWhilePending()
    ensures var s := Exec(Init({0, 1, 2, 3}), StealingSchedule());
            && s.mutex.None? && 0 in s.ready && s.pending == {1}
            && 2 in s.pc && s.pc[2] == WaitSem(0) && s.sem == 0
  {
    hide Exec, Step, Enabled, Four, Rounds, FinishSteps;
    var s0 := Init({0, 1, 2, 3});
    var r5 := Rounds(3, 2);
    var r4 := FinishSteps(0, 0, true, 2) + r5;
    var r3 := [(3, Acquire(1))] + Four(3) + r4;
    var r2 := [(2, Acquire(0))] + Four(2) + r3;
    var r1 := [(1, Acquire(1))] + Four(1) + r2;
    Wins(s0, 0, 0, r1);
    var s1 := s0.(pending := {0}, held := s0.held[0 := {0}]);
    assert s0.pending + {0} == {0} && s0.held[0] + {0} == {0};
    Wins(s1, 1, 1, r2);
    var s2 := s1.(pending := {0, 1}, held := s1.held[1 := {1}]);
    assert s1.pending + {1} == {0, 1} && s1.held[1] + {1} == {1};
    Sleeps(s2, 2, 0, r3);
    var s3 := s2.(waiting := 1, pc := s2.pc[2 := WaitSem(0)]);
    Sleeps(s3, 3, 1, r4);
    var s4 := s3.(waiting := 2, pc := s3.pc[3 := WaitSem(1)]);
    FinishRuns(s4, 0, 0, true, r5);
    UsesUp(Finished(s4, 0, 0, true), 3, 1);
  }
}
