/**
  The database task queue: one worker thread, any number of threads that add tasks, flush or
  shut down, one mutex and one condition variable.  Every step below is one atomic action of one
  thread; a run interleaves them in any order, with spurious wake-ups.
 */
module DatabaseTasks {

  datatype ThreadState = Running | Closing | Terminated

  // Where the worker stands in threadMain.  Tasks are named by the order in which they were accepted.
  datatype Worker =
    | AtCheck                 // before testing the thread state
    | WantLock                // inside the loop, before locking
    | FirstTest               // holds the lock, before the first emptiness test
    | Waiting                 // asleep on the condition variable
    | Woken                   // awake, has to take the lock again
    | SecondTest              // holds the lock, before the second emptiness test
    | InHand(task: nat)       // runs a task without the lock
    | Exited

  // Where any other thread stands in addTask, flush or shutdown
  datatype Client =
    | Idle
    | AddLock                 // addTask, before locking
    | AddIn                   // addTask, holds the lock
    | AddNotify               // addTask, has unlocked and owes a notification
    | FlushLock(last: bool)   // flush, before locking; `last` when shutdown called it
    | FlushIn(last: bool)     // flush, holds the lock
    | FlushRun(task: nat, last: bool)
    | ShutLock
    | ShutIn
    | ShutNotify              // shutdown, after its flush

  datatype Owner = Free | ByWorker | ByClient(id: nat)

  datatype System = System(
    state: ThreadState,
    lock: Owner,
    queue: seq<nat>,
    accepted: nat,            // how many tasks addTask has accepted so far
    done: seq<nat>,           // the tasks run, in the order they were finished
    worker: Worker,
    clients: map<nat, Client>,
    drained: bool)            // a flush of shutdown has seen the queue empty

  predicate Init(s: System)
  {
    && s.state == Running && s.lock == Free && s.queue == [] && s.accepted == 0 && s.done == []
    && s.worker == AtCheck && !s.drained && forall c <- s.clients :: s.clients[c] == Idle
  }

  // ---------- the worker ----------

  function AfterTest(s: System): System
  {
    if s.queue == [] then s.(lock := Free, worker := AtCheck)
    else s.(lock := Free, worker := InHand(s.queue[0]), queue := s.queue[1..])
  }

  predicate WorkerStep(s: System, t: System)
  {
    match s.worker
    case AtCheck => t == s.(worker := if s.state == Terminated then Exited else WantLock)
    case WantLock => s.lock == Free && t == s.(lock := ByWorker, worker := FirstTest)
    case FirstTest => t == if s.queue == [] then s.(lock := Free, worker := Waiting) else s.(worker := SecondTest)
    case Waiting => t == s.(worker := Woken)   // a spurious wake-up
    case Woken => s.lock == Free && t == s.(lock := ByWorker, worker := SecondTest)
    case SecondTest => t == AfterTest(s)
    case InHand(task) => t == s.(done := s.done + [task], worker := AtCheck)
    case Exited => false
  }

  // ---------- the other threads ----------

  function Move(s: System, c: nat, next: Client): System
  {
    s.(clients := s.clients[c := next])
  }

  function Notified(s: System): System
  {
    if s.worker == Waiting then s.(worker := Woken) else s
  }

  function Pushed(s: System, c: nat): System
  {
    if s.state == Running then
      Move(s.(lock := Free, queue := s.queue + [s.accepted], accepted := s.accepted + 1), c,
        if s.queue == [] then AddNotify else Idle)
    else Move(s.(lock := Free), c, Idle)
  }

  function FlushTest(s: System, c: nat, last: bool): System
  {
    if s.queue == [] then Move(s.(lock := Free, drained := s.drained || last), c, if last then ShutNotify else Idle)
    else Move(s.(lock := Free, queue := s.queue[1..]), c, FlushRun(s.queue[0], last))
  }

  predicate ClientStep(s: System, t: System, c: nat)
  {
    c in s.clients &&
    match s.clients[c]
    case Idle =>
      t == Move(s, c, AddLock) || t == Move(s, c, FlushLock(false)) || t == Move(s, c, ShutLock)
        || t == s.(state := Closing)
    case AddLock => s.lock == Free && t == Move(s.(lock := ByClient(c)), c, AddIn)
    case AddIn => t == Pushed(s, c)
    case AddNotify => t == Move(Notified(s), c, Idle)
    case FlushLock(last) => s.lock == Free && t == Move(s.(lock := ByClient(c)), c, FlushIn(last))
    case FlushIn(last) => t == FlushTest(s, c, last)
    case FlushRun(task, last) => t == Move(s.(done := s.done + [task]), c, FlushLock(last))
    case ShutLock => s.lock == Free && t == Move(s.(lock := ByClient(c)), c, ShutIn)
    case ShutIn => t == Move(s.(lock := Free, state := Terminated), c, FlushLock(true))
    case ShutNotify => t == Move(Notified(s), c, Idle)
  }

  ghost predicate Step(s: System, t: System)
  {
    WorkerStep(s, t) || exists c: nat :: ClientStep(s, t, c)
  }

  ghost predicate Run(run: seq<System>)
  {
    run != [] && Init(run[0]) && forall i | 0 <= i < |run| - 1 :: Step(run[i], run[i + 1])
  }

  // ---------- the invariant ----------

  predicate Holds(c: Client)
  {
    c.AddIn? || c.FlushIn? || c.ShutIn?
  }

  ghost predicate MutualExclusion(s: System)
  {
    && (s.lock == ByWorker <==> s.worker.FirstTest? || s.worker.SecondTest?)
    && (forall c: nat :: (c in s.clients && Holds(s.clients[c])) <==> s.lock == ByClient(c))
  }

  function Taken(s: System): int
  {
    s.accepted - |s.queue|
  }

  ghost predicate HeldByClient(s: System, task: nat, c: nat)
  {
    c in s.clients && s.clients[c].FlushRun? && s.clients[c].task == task
  }

  ghost predicate InSomeHand(s: System, task: nat)
  {
    s.worker == InHand(task) || exists c: nat :: HeldByClient(s, task, c)
  }

  // Each accepted task is queued, in exactly one hand, or run exactly once; the queue keeps the order.
  ghost predicate NothingLostOrTwice(s: System)
  {
    && |s.queue| <= s.accepted
    && (forall i | 0 <= i < |s.queue| :: s.queue[i] == Taken(s) + i)
    && (forall i, j | 0 <= i < j < |s.done| :: s.done[i] != s.done[j])
    && (forall task: nat :: task < Taken(s) <==> task in s.done || InSomeHand(s, task))
    && (forall task: nat | InSomeHand(s, task) :: task !in s.done)
    && (forall c: nat, task: nat :: HeldByClient(s, task, c) ==> s.worker != InHand(task))
    && (forall c: nat, d: nat, task: nat :: HeldByClient(s, task, c) && HeldByClient(s, task, d) ==> c == d)
  }

  // A sleeping worker with work to do is about to be woken.
  ghost predicate NoLostWakeup(s: System)
  {
    s.worker == Waiting && s.queue != [] ==> exists c <- s.clients :: s.clients[c] == AddNotify
  }

  // Once shutdown's flush has seen the queue empty it is empty for good.
  ghost predicate ShutdownFinal(s: System)
  {
    && (s.drained ==> s.state != Running && s.queue == [])
    && (forall c <- s.clients :: s.clients[c] == ShutNotify ==> s.drained)
    && (forall c <- s.clients :: s.clients[c] in {FlushLock(true), FlushIn(true)} ==> s.state != Running)
    && (forall c <- s.clients :: s.clients[c].FlushRun? && s.clients[c].last ==> s.state != Running)
  }

  ghost predicate Inv(s: System)
  {
    MutualExclusion(s) && NothingLostOrTwice(s) && NoLostWakeup(s) && ShutdownFinal(s)
  }

  lemma {:induction false} InitInv(s: System)
    requires Init(s)
    ensures Inv(s)
  {
  }

  lemma {:induction false} WorkerKeepsLock(s: System, t: System)
    requires MutualExclusion(s) && WorkerStep(s, t)
    ensures MutualExclusion(t)
  {
  }

  lemma {:induction false} ClientKeepsLock(s: System, t: System, c: nat)
    requires MutualExclusion(s) && ClientStep(s, t, c)
    ensures MutualExclusion(t)
  {
    assert Holds(s.clients[c]) ==> s.lock == ByClient(c);
  }

  lemma {:induction false} WorkerKeepsWakeup(s: System, t: System)
    requires NoLostWakeup(s) && WorkerStep(s, t)
    ensures NoLostWakeup(t)
  {
  }

  lemma {:induction false} ClientKeepsWakeup(s: System, t: System, c: nat)
    requires NoLostWakeup(s) && ClientStep(s, t, c)
    ensures NoLostWakeup(t)
  {
    if t.worker == Waiting && t.queue != [] {
      if s.queue == [] {
        assert t.clients[c] == AddNotify;
      } else {
        var d :| d in s.clients && s.clients[d] == AddNotify;
        assert t.clients[d] == AddNotify;
      }
    }
  }

  lemma {:induction false} WorkerKeepsShutdown(s: System, t: System)
    requires ShutdownFinal(s) && WorkerStep(s, t)
    ensures ShutdownFinal(t)
  {
  }

  lemma {:induction false} ClientKeepsShutdown(s: System, t: System, c: nat)
    requires ShutdownFinal(s) && ClientStep(s, t, c)
    ensures ShutdownFinal(t)
  {
    assert forall d <- t.clients :: d != c ==> t.clients[d] == s.clients[d];
  }

  // ---------- tasks: every way a step can touch them ----------

  predicate SameTasks(s: System, t: System)
  {
    s.queue == t.queue && s.accepted == t.accepted && s.done == t.done
  }

  lemma {:induction false} Untouched(s: System, t: System)
    requires NothingLostOrTwice(s) && SameTasks(s, t)
    requires forall task: nat :: s.worker == InHand(task) <==> t.worker == InHand(task)
    requires forall c: nat, task: nat :: HeldByClient(s, task, c) <==> HeldByClient(t, task, c)
    ensures NothingLostOrTwice(t)
  {
    assert forall task: nat :: InSomeHand(s, task) <==> InSomeHand(t, task);
  }

  // A task in somebody's hand has been taken from the queue.
  lemma {:induction false} HandsTaken(s: System)
    requires NothingLostOrTwice(s)
    ensures forall c: nat, task: nat :: HeldByClient(s, task, c) ==> task < Taken(s)
    ensures forall task: nat :: s.worker == InHand(task) ==> task < Taken(s)
    ensures forall task <- s.done :: task < Taken(s)
  {
    assert forall c: nat, task: nat :: HeldByClient(s, task, c) ==> InSomeHand(s, task);
    assert forall task: nat :: s.worker == InHand(task) ==> InSomeHand(s, task);
  }

  lemma {:induction false} TasksWorker(s: System, t: System)
    requires NothingLostOrTwice(s) && WorkerStep(s, t)
    ensures NothingLostOrTwice(t)
  {
    assert forall c: nat, task: nat :: HeldByClient(s, task, c) <==> HeldByClient(t, task, c);
    if s.worker.InHand? {
      WorkerRan(s, t, s.worker.task);
    } else if s.worker == SecondTest && s.queue != [] {
      WorkerTook(s, t);
    } else {
      Untouched(s, t);
    }
  }

  lemma {:induction false} WorkerRan(s: System, t: System, task: nat)
    requires NothingLostOrTwice(s) && s.worker == InHand(task) && t == s.(done := s.done + [task], worker := AtCheck)
    ensures NothingLostOrTwice(t)
  {
    assert InSomeHand(s, task);
    assert forall c: nat, k: nat :: HeldByClient(s, k, c) <==> HeldByClient(t, k, c);
    assert forall k: nat :: InSomeHand(s, k) <==> InSomeHand(t, k) || k == task;
    assert forall k: nat :: k in t.done <==> k in s.done || k == task;
  }

  lemma {:induction false} WorkerTook(s: System, t: System)
    requires NothingLostOrTwice(s) && !s.worker.InHand? && s.queue != []
    requires t == s.(lock := Free, worker := InHand(s.queue[0]), queue := s.queue[1..])
    ensures NothingLostOrTwice(t)
  {
    assert forall c: nat, k: nat :: HeldByClient(s, k, c) <==> HeldByClient(t, k, c);
    assert forall k: nat :: InSomeHand(t, k) <==> InSomeHand(s, k) || k == s.queue[0];
    HandsTaken(s);
    assert s.queue[0] == Taken(s) && Taken(t) == Taken(s) + 1;
  }

  lemma {:induction false} TasksClient(s: System, t: System, c: nat)
    requires NothingLostOrTwice(s) && ClientStep(s, t, c)
    ensures NothingLostOrTwice(t)
  {
    match s.clients[c]
    case AddIn => ClientAdded(s, t, c);
    case FlushRun(task, last) => ClientRan(s, t, c, task, last);
    case FlushIn(last) =>
      if s.queue != [] {
        ClientTook(s, t, c, last);
      } else {
        Untouched(s, t);
      }
    case _ =>
      Untouched(s, t);
  }

  lemma {:induction false} ClientAdded(s: System, t: System, c: nat)
    requires NothingLostOrTwice(s) && c in s.clients && s.clients[c] == AddIn && t == Pushed(s, c)
    ensures NothingLostOrTwice(t)
  {
    assert forall d: nat, task: nat :: HeldByClient(s, task, d) <==> HeldByClient(t, task, d);
    assert forall task: nat :: InSomeHand(s, task) <==> InSomeHand(t, task);
  }

  lemma {:induction false} ClientRan(s: System, t: System, c: nat, task: nat, last: bool)
    requires NothingLostOrTwice(s) && c in s.clients && s.clients[c] == FlushRun(task, last)
    requires t == Move(s.(done := s.done + [task]), c, FlushLock(last))
    ensures NothingLostOrTwice(t)
  {
    assert HeldByClient(s, task, c) && InSomeHand(s, task);
    assert forall d: nat, k: nat :: HeldByClient(t, k, d) <==> HeldByClient(s, k, d) && d != c;
    assert forall k: nat :: InSomeHand(s, k) <==> InSomeHand(t, k) || k == task;
    assert forall k: nat :: k in t.done <==> k in s.done || k == task;
  }

  lemma {:induction false} ClientTook(s: System, t: System, c: nat, last: bool)
    requires NothingLostOrTwice(s) && c in s.clients && s.clients[c] == FlushIn(last) && s.queue != []
    requires t == FlushTest(s, c, last)
    ensures NothingLostOrTwice(t)
  {
    var task := s.queue[0];
    assert forall d: nat, k: nat :: HeldByClient(t, k, d) <==> HeldByClient(s, k, d) || (d == c && k == task);
    assert HeldByClient(t, task, c);
    assert forall k: nat :: InSomeHand(t, k) <==> InSomeHand(s, k) || k == task;
    HandsTaken(s);
    assert task == Taken(s) && Taken(t) == Taken(s) + 1;
  }

  lemma {:induction false} StepKeeps(s: System, t: System)
    requires Inv(s) && Step(s, t)
    ensures Inv(t)
  {
    hide MutualExclusion, NothingLostOrTwice, NoLostWakeup, ShutdownFinal, WorkerStep, ClientStep;
    if WorkerStep(s, t) {
      WorkerKeepsLock(s, t);
      WorkerKeepsWakeup(s, t);
      WorkerKeepsShutdown(s, t);
      TasksWorker(s, t);
    } else {
      var c: nat :| ClientStep(s, t, c);
      ClientKeepsLock(s, t, c);
      ClientKeepsWakeup(s, t, c);
      ClientKeepsShutdown(s, t, c);
      TasksClient(s, t, c);
    }
  }

  /** In every run, at every moment, no accepted task is lost or run twice and no wake-up is missing. */
  lemma {:induction false} RunSafe(run: seq<System>, i: nat)
    requires Run(run) && i < |run|
    ensures Inv(run[i])
  {
    if i == 0 {
      InitInv(run[0]);
    } else {
      RunSafe(run, i - 1);
      assert Step(run[i - 1], run[i - 1 + 1]);
      StepKeeps(run[i - 1], run[i]);
    }
  }

  // ---------- every call of addTask counts ----------

  // In this step a thread passes the locked section of addTask.
  ghost predicate PassesAdd(s: System, t: System)
  {
    exists c: nat :: c in s.clients && c in t.clients && s.clients[c] == AddIn && t.clients[c] != AddIn
  }

  // A call that passes while tasks are accepted puts exactly one task at the end of the queue, and owes a notification
  // if and only if the queue was empty; any other call and any other step adds nothing.
  lemma {:induction false} OneCallOneTask(s: System, t: System)
    requires Step(s, t)
    ensures t.accepted == s.accepted + if PassesAdd(s, t) && s.state == Running then 1 else 0
    ensures PassesAdd(s, t) ==> t.queue == if s.state == Running then s.queue + [s.accepted] else s.queue
    ensures PassesAdd(s, t) ==>
      exists c: nat :: c in s.clients && s.clients[c] == AddIn && c in t.clients
        && t.clients[c] == if s.state == Running && s.queue == [] then AddNotify else Idle
    ensures !PassesAdd(s, t) ==> |t.queue| <= |s.queue|
  {
    hide WorkerStep, ClientStep;
    if WorkerStep(s, t) {
      WorkerCalls(s, t);
    } else {
      var c: nat :| ClientStep(s, t, c);
      ClientCalls(s, t, c);
      assert PassesAdd(s, t) <==> s.clients[c] == AddIn;
    }
  }

  lemma {:induction false} WorkerCalls(s: System, t: System)
    requires WorkerStep(s, t)
    ensures t.clients == s.clients && t.accepted == s.accepted && |t.queue| <= |s.queue|
  {
  }

  lemma {:induction false} ClientCalls(s: System, t: System, c: nat)
    requires ClientStep(s, t, c)
    ensures c in s.clients && t.clients == s.clients[c := t.clients[c]]
    ensures s.clients[c] == AddIn ==>
      && t.clients[c] == (if s.state == Running && s.queue == [] then AddNotify else Idle)
      && t.queue == (if s.state == Running then s.queue + [s.accepted] else s.queue)
      && t.accepted == s.accepted + if s.state == Running then 1 else 0
    ensures s.clients[c] != AddIn ==> t.accepted == s.accepted && |t.queue| <= |s.queue|
  {
  }

  // How many calls of addTask have passed while tasks were accepted
  ghost function Calls(run: seq<System>): nat
  {
    if |run| < 2 then 0
    else
      var s, t := run[|run| - 2], run[|run| - 1];
      Calls(run[..|run| - 1]) + if PassesAdd(s, t) && s.state == Running then 1 else 0
  }

  /** Over every run, every call of addTask under a running queue is accepted, and no other: each has its own task,
      which is queued, in one hand, or run exactly once. */
  lemma {:induction false} EveryCallAccepted(run: seq<System>)
    requires Run(run)
    ensures var s := run[|run| - 1];
      && s.accepted == Calls(run) && Inv(s)
      && forall task: nat :: task < Calls(run) <==> task in s.queue || task in s.done || InSomeHand(s, task)
    decreases |run|
  {
    hide Inv, Step, PassesAdd, NothingLostOrTwice, InSomeHand;
    var n := |run| - 1;
    RunSafe(run, n);
    CountAccepted(run);
    QueuedOrTaken(run[n]);
  }

  lemma {:induction false} CountAccepted(run: seq<System>)
    requires Run(run)
    ensures run[|run| - 1].accepted == Calls(run)
    decreases |run|
  {
    hide Step, PassesAdd;
    var n := |run| - 1;
    if n > 0 {
      assert Step(run[n - 1], run[n - 1 + 1]);
      CountAccepted(run[..n]);
      OneCallOneTask(run[n - 1], run[n]);
    }
  }

  lemma {:induction false} QueuedOrTaken(s: System)
    requires Inv(s)
    ensures forall task: nat :: task < s.accepted <==> task in s.queue || task in s.done || InSomeHand(s, task)
  {
    hide InSomeHand, MutualExclusion, NoLostWakeup, ShutdownFinal;
    forall task: nat
      ensures task < s.accepted <==> task in s.queue || task in s.done || InSomeHand(s, task)
    {
      if Taken(s) <= task < s.accepted {
        assert s.queue[task - Taken(s)] == task;
      }
    }
  }

  // ---------- flushing ----------

  predicate InFlush(c: Client)
  {
    c.FlushLock? || c.FlushIn? || c.FlushRun?
  }

  /** A flush ends only when it has seen the queue empty. */
  lemma {:induction false} FlushEndsEmpty(s: System, t: System, c: nat)
    requires ClientStep(s, t, c) && InFlush(s.clients[c]) && !InFlush(t.clients[c])
    ensures s.queue == [] && t.queue == [] && s.clients[c].FlushIn?
  {
  }

  lemma {:induction false} StaysDrained(s: System, t: System)
    requires s.drained && s.state != Running && Step(s, t)
    ensures t.drained && t.accepted == s.accepted
  {
  }

  /** After the flush of shutdown every accepted task, for good, has run once or is in one hand. */
  lemma {:induction false} AfterShutdown(run: seq<System>, i: nat, j: nat)
    requires Run(run) && i <= j < |run| && run[i].drained
    ensures run[j].drained && run[j].queue == [] && run[j].accepted == run[i].accepted
    ensures forall task: nat :: task < run[j].accepted <==> task in run[j].done || InSomeHand(run[j], task)
    decreases j
  {
    hide MutualExclusion, NoLostWakeup, Step, Init, InSomeHand;
    RunSafe(run, j);
    if i < j {
      AfterShutdown(run, i, j - 1);
      RunSafe(run, j - 1);
      assert Step(run[j - 1], run[j - 1 + 1]);
      StaysDrained(run[j - 1], run[j]);
    }
  }

  // ---------- the worker at shutdown ----------

  // Places from which a worker that finds the state Terminated leaves without sleeping again
  predicate Leaving(w: Worker)
  {
    w.AtCheck? || w.Woken? || w.SecondTest? || w.InHand? || w.Exited?
  }

  // No thread will ever notify: nobody else is inside addTask, flush or shutdown.
  predicate Quiet(s: System)
  {
    s.state == Terminated && s.drained && s.queue == [] && forall c <- s.clients :: s.clients[c] == Idle
  }

  // Steps of the worker alone, without spurious wake-ups
  ghost predicate WorkerRun(run: seq<System>)
  {
    run != [] && forall i | 0 <= i < |run| - 1 :: !run[i].worker.Waiting? && WorkerStep(run[i], run[i + 1])
  }

  // The worker does nothing more of its own accord.
  ghost predicate AtRest(s: System)
  {
    s.worker.Waiting? || forall t :: !WorkerStep(s, t)
  }

  // How many steps the worker still makes
  function StepsLeft(w: Worker): nat
  {
    match w
    case Woken => 3
    case SecondTest | InHand(_) | WantLock => 2
    case AtCheck | FirstTest => 1
    case Waiting | Exited => 0
  }

  lemma {:induction false} QuietStep(s: System, t: System)
    requires Quiet(s) && !s.worker.Waiting? && WorkerStep(s, t)
    ensures Quiet(t) && (Leaving(t.worker) <==> Leaving(s.worker)) && StepsLeft(t.worker) == StepsLeft(s.worker) - 1
  {
  }

  lemma {:induction false} QuietGoesOn(s: System)
    requires Quiet(s) && MutualExclusion(s)
    ensures AtRest(s) <==> s.worker.Waiting? || s.worker.Exited?
  {
    match s.worker {
      case AtCheck =>
        assert WorkerStep(s, s.(worker := Exited));
      case WantLock =>
        assert WorkerStep(s, s.(lock := ByWorker, worker := FirstTest));
      case FirstTest =>
        assert WorkerStep(s, s.(lock := Free, worker := Waiting));
      case Woken =>
        assert WorkerStep(s, s.(lock := ByWorker, worker := SecondTest));
      case SecondTest =>
        assert WorkerStep(s, AfterTest(s));
      case InHand(task) =>
        assert WorkerStep(s, s.(done := s.done + [task], worker := AtCheck));
      case Waiting =>
      case Exited =>
    }
  }

  /**
    Once shutdown is over the worker comes to rest after at most three steps, by itself: it has left if it was at one
    of the places from which it sees the state again, and otherwise sleeps, without a notification to come.
   */
  lemma {:induction false} SleepsAfterShutdown(run: seq<System>)
    requires WorkerRun(run) && Quiet(run[0]) && Inv(run[0])
    ensures var s, t := run[0], run[|run| - 1];
      && Quiet(t) && Inv(t) && StepsLeft(t.worker) == StepsLeft(s.worker) - (|run| - 1)
      && (AtRest(t) <==> t.worker == if Leaving(s.worker) then Exited else Waiting)
    decreases |run|
  {
    LeavesOrSleeps(run);
    QuietGoesOn(run[|run| - 1]);
  }

  lemma {:induction false} LeavesOrSleeps(run: seq<System>)
    requires WorkerRun(run) && Quiet(run[0]) && Inv(run[0])
    ensures var s, t := run[0], run[|run| - 1];
      && Quiet(t) && Inv(t) && StepsLeft(t.worker) == StepsLeft(s.worker) - (|run| - 1)
      && (Leaving(t.worker) <==> Leaving(s.worker))
    decreases |run|
  {
    hide Inv, WorkerStep;
    var n := |run| - 1;
    if n > 0 {
      LeavesOrSleeps(run[..n]);
      assert WorkerStep(run[n - 1], run[n - 1 + 1]);
      QuietStep(run[n - 1], run[n]);
      StepKeeps(run[n - 1], run[n]);
    }
  }

  // A system with one other thread and no tasks
  function One(state: ThreadState, lock: Owner, worker: Worker, client: Client, drained: bool): System
  {
    System(state, lock, [], 0, [], worker, map[0 := client], drained)
  }

  lemma {:induction false} OneMoves(s: System, client: Client, next: Client)
    requires s.clients == map[0 := client]
    ensures Move(s, 0, next) == s.(clients := map[0 := next])
  {
  }

  lemma {:induction false} ShutdownBegun() returns (run: seq<System>)
    ensures Run(run) && run != [] && run[|run| - 1] == One(Terminated, Free, WantLock, FlushLock(true), false)
  {
    hide Run, Step;
    var s0, s1 := One(Running, Free, AtCheck, Idle, false), One(Running, Free, WantLock, Idle, false);
    var s2, s3 := One(Running, Free, WantLock, ShutLock, false), One(Running, ByClient(0), WantLock, ShutIn, false);
    FirstState(s0);
    run := Grown([s0], s1, 0);
    OneMoves(s1, Idle, ShutLock);
    run := Grown(run, s2, 0);
    OneMoves(s2.(lock := ByClient(0)), ShutLock, ShutIn);
    run := Grown(run, s3, 0);
    OneMoves(s3.(lock := Free, state := Terminated), ShutIn, FlushLock(true));
    run := Grown(run, One(Terminated, Free, WantLock, FlushLock(true), false), 0);
  }

  lemma {:induction false} ShutdownFlushed() returns (run: seq<System>)
    ensures Run(run) && run != [] && run[|run| - 1] == One(Terminated, Free, WantLock, Idle, true)
  {
    hide Run, Step;
    var s4, s5 := One(Terminated, Free, WantLock, FlushLock(true), false),
      One(Terminated, ByClient(0), WantLock, FlushIn(true), false);
    var s6 := One(Terminated, Free, WantLock, ShutNotify, true);
    run := ShutdownBegun();
    OneMoves(s4.(lock := ByClient(0)), FlushLock(true), FlushIn(true));
    run := Grown(run, s5, 0);
    OneMoves(s5.(lock := Free, drained := true), FlushIn(true), ShutNotify);
    run := Grown(run, s6, 0);
    OneMoves(s6, ShutNotify, Idle);
    run := Grown(run, One(Terminated, Free, WantLock, Idle, true), 0);
  }

  /** Such a run exists: the notification of shutdown can come before the worker falls asleep. */
  lemma {:induction false} ShutdownCanMissTheWorker() returns (run: seq<System>)
    ensures Run(run) && run != [] && Quiet(run[|run| - 1]) && run[|run| - 1].worker == Waiting
  {
    hide Run, Step;
    run := ShutdownFlushed();
    run := Grown(run, One(Terminated, ByWorker, FirstTest, Idle, true), 0);
    run := Grown(run, One(Terminated, Free, Waiting, Idle, true), 0);
  }

  lemma {:induction false} FirstState(s: System)
    requires Init(s)
    ensures Run([s])
  {
  }

  lemma {:induction false} Grown(run: seq<System>, t: System, c: nat) returns (longer: seq<System>)
    requires Run(run) && run != [] && (WorkerStep(run[|run| - 1], t) || ClientStep(run[|run| - 1], t, c))
    ensures longer == run + [t] && Run(longer)
  {
    longer := run + [t];
    forall i | 0 <= i < |longer| - 1
      ensures Step(longer[i], longer[i + 1])
    {
      if i < |run| - 1 {
        assert Step(run[i], run[i + 1]);
      }
    }
  }
}
