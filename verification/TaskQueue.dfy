/**
  The task queue of utils/src/hdf_task_queue.c as a step system: any number of producers,
  one lazily started worker thread, the mutex and the counting semaphore, until the queue is
  destroyed. Tasks act on a world W through `effect`; they run with the mutex held. A task that
  enqueues on its own queue waits for that mutex for good: its effect is None. Other threads
  may change the world directly at any time.
 */
module TaskQueue {
  import opened Bytes
  import opened Maps

  datatype Producer<T> =
    | WantsLock(task: T)
    | Locked(task: T)       // mutex held, threadRunFlag not yet looked at
    | Started(task: T)      // mutex held, worker known to be started
    | Inserted              // mutex held, task in the list
    | ToPost                // mutex released, semaphore not yet posted

  datatype Worker<T> =
    | NotStarted
    | AtCheck               // while (queue->threadRunFlag)
    | AtWait
    | WantsQueue
    | Draining              // mutex held, about to dequeue
    | Running(task: T)      // mutex held
    | ToUnlock              // mutex held, queue found empty
    | Hung(task: T)         // mutex held, and wanted again by the task itself
    | Failed                // the thread could not be started, and is not started again

  datatype Mutex = Free | ByProducer(p: nat) | ByWorker

  /** A change of the world, in the order of the changes: by a task, or directly by another thread. */
  datatype Act<T> = Ran(change: T) | Direct(change: T)

  datatype State<T, W> = State(
    mutex: Mutex,
    semaphore: nat,
    runFlag: bool,
    queue: seq<T>,
    producers: map<nat, Producer<T>>,
    worker: Worker<T>,
    world: W,
    // what happened
    starts: nat,
    inserted: seq<T>,
    executed: seq<T>,
    acts: seq<Act<T>>)

  datatype Step<T> =
    | Change(change: T)     // by another thread
    | Begin(p: nat, task: T)
    | Lock(p: nat)
    | EnsureStarted(p: nat, threadStarts: bool)
    | Insert(p: nat)
    | Unlock(p: nat)
    | Post(p: nat)
    | Check
    | Wait
    | LockQueue
    | Dequeue
    | Execute
    | UnlockQueue

  function Initial<T, W>(world: W): State<T, W> {
    State(Free, 0, false, [], map[], NotStarted, world, 0, [], [], [])
  }

  predicate Enabled<T, W>(s: State<T, W>, step: Step<T>, effect: (W, T) -> Option<W>) {
    match step
    case Change(change) => effect(s.world, change).Some?
    case Begin(p, _) => p !in s.producers
    case Lock(p) => p in s.producers && s.producers[p].WantsLock? && s.mutex == Free
    case EnsureStarted(p, _) => p in s.producers && s.producers[p].Locked?
    case Insert(p) => p in s.producers && s.producers[p].Started?
    case Unlock(p) => p in s.producers && s.producers[p].Inserted?
    case Post(p) => p in s.producers && s.producers[p].ToPost?
    case Check => s.worker.AtCheck? && s.runFlag
    case Wait => s.worker.AtWait? && s.semaphore > 0
    case LockQueue => s.worker.WantsQueue? && s.mutex == Free
    case Dequeue => s.worker.Draining?
    case Execute => s.worker.Running?
    case UnlockQueue => s.worker.ToUnlock?
  }

  function Apply<T, W>(s: State<T, W>, step: Step<T>, effect: (W, T) -> Option<W>): State<T, W>
    requires Enabled(s, step, effect)
  {
    match step
    case Change(change) => s.(world := effect(s.world, change).value, acts := s.acts + [Direct(change)])
    case Begin(p, task) => s.(producers := s.producers[p := WantsLock(task)])
    case Lock(p) => s.(producers := s.producers[p := Locked(s.producers[p].task)], mutex := ByProducer(p))
    case EnsureStarted(p, threadStarts) =>
      var u := s.(producers := s.producers[p := Started(s.producers[p].task)]);
      // hdfQueueStartThread, which sets the flag whether or not the thread starts
      if s.runFlag then u
      else if !threadStarts then u.(runFlag := true, worker := Failed)
      else u.(runFlag := true, starts := s.starts + 1, worker := AtCheck)
    case Insert(p) =>
      var task := s.producers[p].task;
      s.(producers := s.producers[p := Inserted], queue := s.queue + [task], inserted := s.inserted + [task])
    case Unlock(p) => s.(producers := s.producers[p := ToPost], mutex := Free)
    case Post(p) => s.(producers := s.producers - {p}, semaphore := s.semaphore + 1)
    case Check => s.(worker := AtWait)
    case Wait => s.(worker := WantsQueue, semaphore := s.semaphore - 1)
    case LockQueue => s.(worker := Draining, mutex := ByWorker)
    case Dequeue =>
      if s.queue == [] then s.(worker := ToUnlock) else s.(worker := Running(s.queue[0]), queue := s.queue[1..])
    case Execute =>
      var task := s.worker.task;
      var after := effect(s.world, task);
      if after.None? then s.(worker := Hung(task))
      else s.(worker := Draining, world := after.value, executed := s.executed + [task], acts := s.acts + [Ran(task)])
    case UnlockQueue => s.(worker := AtCheck, mutex := Free)
  }

  /** The state after the steps, if each can be taken when its turn comes. */
  function After<T, W>(world: W, steps: seq<Step<T>>, effect: (W, T) -> Option<W>): Option<State<T, W>> {
    if steps == [] then Some(Initial(world))
    else
      var before := After(world, steps[..|steps| - 1], effect);
      if before.Some? && Enabled(before.value, steps[|steps| - 1], effect)
      then Some(Apply(before.value, steps[|steps| - 1], effect)) else None
  }

  /** What the changes make of the world, as long as each comes to an end. */
  function Fold<T, W>(world: W, changes: seq<T>, effect: (W, T) -> Option<W>): Option<W> {
    if changes == [] then Some(world)
    else
      var before := Fold(world, changes[..|changes| - 1], effect);
      if before.None? then None else effect(before.value, changes[|changes| - 1])
  }

  function ChangesOf<T>(acts: seq<Act<T>>): (r: seq<T>)
    ensures |r| == |acts| && forall i :: 0 <= i < |acts| ==> r[i] == acts[i].change
  {
    seq(|acts|, i requires 0 <= i < |acts| => acts[i].change)
  }

  /** The tasks among the changes, in order. */
  function TasksOf<T>(acts: seq<Act<T>>): seq<T> {
    if acts == [] then []
    else TasksOf(acts[..|acts| - 1]) + if acts[|acts| - 1].Ran? then [acts[|acts| - 1].change] else []
  }

  // ---------------------------------------------------------------- invariants

  function InHand<T>(w: Worker<T>): seq<T> {
    if w.Running? || w.Hung? then [w.task] else []
  }

  /** Executed, running and queued tasks are the inserted ones, in order. */
  ghost predicate FifoInv<T, W>(s: State<T, W>) {
    s.executed + InHand(s.worker) + s.queue == s.inserted
  }

  ghost predicate MutexInv<T, W>(s: State<T, W>) {
    && (forall p :: p in s.producers ==>
          ((s.producers[p].Locked? || s.producers[p].Started? || s.producers[p].Inserted?) <==> s.mutex == ByProducer(p)))
    && (s.mutex.ByProducer? ==> s.mutex.p in s.producers)
    && ((s.worker.Draining? || s.worker.Running? || s.worker.ToUnlock? || s.worker.Hung?) <==> s.mutex == ByWorker)
  }

  /** At most one worker is started, and it is started before anything is queued. */
  ghost predicate StartInv<T, W>(s: State<T, W>) {
    && s.starts == (if s.runFlag && !s.worker.Failed? then 1 else 0)
    && (s.runFlag <==> !s.worker.NotStarted?)
    && (s.inserted != [] || s.executed != [] ==> s.runFlag)
    && (forall p :: p in s.producers && !s.producers[p].WantsLock? && !s.producers[p].Locked? ==> s.runFlag)
    && (s.worker.Failed? ==> s.executed == [] && (s.inserted != [] || exists p :: Starting(s, p)))
  }

  /** The producer whose enqueue started the worker, or tried to, and has yet to insert its task. */
  ghost predicate Starting<T, W>(s: State<T, W>, p: nat) {
    p in s.producers && s.producers[p].Started?
  }

  ghost predicate Outstanding<T, W>(s: State<T, W>, p: nat) {
    p in s.producers && (s.producers[p].Inserted? || s.producers[p].ToPost?)
  }

  /** A non-empty queue has a post in the semaphore or on its way, or the worker already up. */
  ghost predicate WakeInv<T, W>(s: State<T, W>) {
    && ((s.queue != [] && s.semaphore == 0 && !s.worker.WantsQueue? && !s.worker.Draining? && !s.worker.Running?
         && !s.worker.Hung? && !s.worker.Failed?)
        ==> exists p :: Outstanding(s, p))
    && (s.worker.ToUnlock? ==> s.queue == [])
  }

  /** The executed tasks are those among the changes; the worker hangs only in a task that can hang. */
  ghost predicate ActsInv<T, W(!new)>(s: State<T, W>, effect: (W, T) -> Option<W>) {
    && TasksOf(s.acts) == s.executed
    && (s.worker.Hung? ==> exists w :: effect(w, s.worker.task).None?)
  }

  ghost predicate Invariant<T, W(!new)>(s: State<T, W>, effect: (W, T) -> Option<W>) {
    FifoInv(s) && MutexInv(s) && StartInv(s) && WakeInv(s) && ActsInv(s, effect)
  }

  lemma {:induction false} FifoKept<T, W>(s: State<T, W>, step: Step<T>, effect: (W, T) -> Option<W>)
    requires FifoInv(s) && StartInv(s) && Enabled(s, step, effect)
    ensures FifoInv(Apply(s, step, effect))
  {
    var u := Apply(s, step, effect);
    match step {
      case Insert(p) =>
        assert u.executed + InHand(u.worker) + u.queue == s.executed + InHand(s.worker) + s.queue + [s.producers[p].task];
      case Dequeue =>
        if s.queue != [] {
          assert s.queue == [s.queue[0]] + s.queue[1..];
          assert s.executed + [] + s.queue == s.executed + [s.queue[0]] + s.queue[1..];
        }
      case Execute =>
        if !u.worker.Hung? {
          assert s.executed + [s.worker.task] + s.queue == u.executed + [] + u.queue;
        }
      case _ =>
        assert InHand(u.worker) == InHand(s.worker);
    }
  }

  lemma MutexKept<T, W>(s: State<T, W>, step: Step<T>, effect: (W, T) -> Option<W>)
    requires MutexInv(s) && Enabled(s, step, effect)
    ensures MutexInv(Apply(s, step, effect))
  {
  }

  lemma StartKept<T, W>(s: State<T, W>, step: Step<T>, effect: (W, T) -> Option<W>)
    requires StartInv(s) && Enabled(s, step, effect)
    ensures StartInv(Apply(s, step, effect))
  {
    var u := Apply(s, step, effect);
    if step.EnsureStarted? {
      assert Starting(u, step.p);
    } else if s.worker.Failed? && s.inserted == [] && !step.Insert? {
      var p :| Starting(s, p);
      assert Starting(u, p);
    }
  }

  lemma {:induction false} WakeKept<T, W>(s: State<T, W>, step: Step<T>, effect: (W, T) -> Option<W>)
    requires MutexInv(s) && StartInv(s) && WakeInv(s) && Enabled(s, step, effect)
    ensures WakeInv(Apply(s, step, effect))
  {
    var u := Apply(s, step, effect);
    if exists p :: Outstanding(s, p) {
      var p :| Outstanding(s, p);
      assert u.semaphore > 0 || Outstanding(u, p);
    }
    if step.Insert? {
      assert Outstanding(u, step.p);
    }
  }

  lemma {:induction false} ActsKept<T, W(!new)>(s: State<T, W>, step: Step<T>, effect: (W, T) -> Option<W>)
    requires ActsInv(s, effect) && Enabled(s, step, effect)
    ensures ActsInv(Apply(s, step, effect), effect)
  {
    hide TasksOf;
    match step {
      case Change(change) => TasksSnoc(s.acts, Direct(change));
      case Execute =>
        if effect(s.world, s.worker.task).Some? {
          TasksSnoc(s.acts, Ran(s.worker.task));
        }
      case _ =>
        assert Apply(s, step, effect).acts == s.acts;
    }
  }

  lemma {:induction false} TasksSnoc<T>(acts: seq<Act<T>>, act: Act<T>)
    ensures TasksOf(acts + [act]) == if act.Ran? then TasksOf(acts) + [act.change] else TasksOf(acts)
  {
    assert (acts + [act])[..|acts|] == acts;
  }

  lemma {:induction false} Reachable<T, W(!new)>(world: W, steps: seq<Step<T>>, effect: (W, T) -> Option<W>)
    requires After(world, steps, effect).Some?
    ensures Invariant(After(world, steps, effect).value, effect)
  {
    if steps != [] {
      var n := |steps| - 1;
      Reachable(world, steps[..n], effect);
      var s := After(world, steps[..n], effect).value;
      FifoKept(s, steps[n], effect);
      MutexKept(s, steps[n], effect);
      StartKept(s, steps[n], effect);
      WakeKept(s, steps[n], effect);
      ActsKept(s, steps[n], effect);
    }
  }

  // ---------------------------------------------------------------- results

  /** First in, first out and exactly once, with at most one worker, in every interleaving. */
  lemma {:induction false} TasksInOrderOnce<T, W(!new)>(world: W, steps: seq<Step<T>>, effect: (W, T) -> Option<W>)
    requires After(world, steps, effect).Some?
    ensures var s := After(world, steps, effect).value;
            s.executed + InHand(s.worker) + s.queue == s.inserted && s.starts <= 1
  {
    Reachable(world, steps, effect);
  }

  /** A worker waiting on a zero semaphore while tasks are queued has a post on its way. */
  lemma {:induction false} NoLostWakeUp<T, W(!new)>(world: W, steps: seq<Step<T>>, effect: (W, T) -> Option<W>)
    requires After(world, steps, effect).Some?
    requires var s := After(world, steps, effect).value;
             s.worker.AtWait? && s.semaphore == 0 && s.queue != []
    ensures exists p :: Outstanding(After(world, steps, effect).value, p)
  {
    Reachable(world, steps, effect);
  }

  /**
    The world is what the changes make of it, one after the other, and the tasks among them are
    the executed ones.
   */
  lemma {:induction false} WorldIsFold<T, W(!new)>(world: W, steps: seq<Step<T>>, effect: (W, T) -> Option<W>)
    requires After(world, steps, effect).Some?
    ensures var s := After(world, steps, effect).value;
            Fold(world, ChangesOf(s.acts), effect) == Some(s.world) && TasksOf(s.acts) == s.executed
  {
    hide Fold, Enabled, Apply;
    if steps == [] {
      FoldNone(world, effect);
    } else {
      var n := |steps| - 1;
      var s := After(world, steps[..n], effect).value;
      WorldIsFold(world, steps[..n], effect);
      FoldStep(world, s, steps[n], effect);
      Reachable(world, steps, effect);
    }
  }

  lemma FoldNone<T, W>(world: W, effect: (W, T) -> Option<W>)
    ensures Fold(world, ChangesOf([]), effect) == Some(world)
  {
  }

  lemma {:induction false} FoldStep<T, W>(world: W, s: State<T, W>, step: Step<T>, effect: (W, T) -> Option<W>)
    requires Enabled(s, step, effect) && Fold(world, ChangesOf(s.acts), effect) == Some(s.world)
    ensures Fold(world, ChangesOf(Apply(s, step, effect).acts), effect) == Some(Apply(s, step, effect).world)
  {
    var u := Apply(s, step, effect);
    if u.acts != s.acts {
      assert ChangesOf(u.acts)[..|s.acts|] == ChangesOf(s.acts);
    }
  }

  /** The steps that are not up to the queue: new enqueues and direct changes. */
  predicate FromOutside<T>(step: Step<T>) {
    step.Begin? || step.Change?
  }

  /**
    No deadlock but a task's own: while a task is queued, running or being enqueued and the
    worker does not hang, some step of the queue can be taken. If the thread of the worker could
    not be started, this holds for enqueues only.
   */
  lemma {:induction false} NeverStuck<T, W(!new)>(world: W, steps: seq<Step<T>>, effect: (W, T) -> Option<W>)
    returns (step: Step<T>)
    requires After(world, steps, effect).Some?
    requires var s := After(world, steps, effect).value;
             && !s.worker.Hung? && (s.worker.Failed? ==> s.producers != map[])
             && (s.executed != s.inserted || s.producers != map[])
    ensures !FromOutside(step) && Enabled(After(world, steps, effect).value, step, effect)
  {
    Reachable(world, steps, effect);
    step := NextStep(After(world, steps, effect).value, effect);
  }

  lemma {:induction false} NextStep<T, W(!new)>(s: State<T, W>, effect: (W, T) -> Option<W>) returns (step: Step<T>)
    requires Invariant(s, effect) && !s.worker.Hung? && (s.worker.Failed? ==> s.producers != map[])
    requires s.executed != s.inserted || s.producers != map[]
    ensures !FromOutside(step) && Enabled(s, step, effect)
  {
    if s.mutex.ByProducer? {
      step := HolderStep(s, effect);
    } else if s.worker.Draining? || s.worker.Running? || s.worker.ToUnlock? || s.worker.AtCheck? || s.worker.WantsQueue? {
      step := match s.worker
        case Draining => Dequeue
        case Running(_) => Execute
        case ToUnlock => UnlockQueue
        case AtCheck => Check
        case _ => LockQueue;
    } else if s.producers != map[] {
      var p :| p in s.producers;
      step := if s.producers[p].WantsLock? then Lock(p) else Post(p);
    } else {
      assert s.executed + [] + s.queue == s.executed + s.queue;
      assert s.queue != [];
      step := Wait;
    }
  }

  lemma {:induction false} HolderStep<T, W>(s: State<T, W>, effect: (W, T) -> Option<W>) returns (step: Step<T>)
    requires MutexInv(s) && s.mutex.ByProducer?
    ensures !FromOutside(step) && Enabled(s, step, effect)
  {
    var p := s.mutex.p;
    step := match s.producers[p]
      case Locked(_) => EnsureStarted(p, true)
      case Started(_) => Insert(p)
      case _ => Unlock(p);
  }

  /** After a failed start of the thread no task is ever executed. */
  lemma FailedForGood<T, W>(s: State<T, W>, step: Step<T>, effect: (W, T) -> Option<W>)
    requires StartInv(s) && s.worker.Failed? && Enabled(s, step, effect)
    ensures Apply(s, step, effect).worker == s.worker && Apply(s, step, effect).executed == []
  {
  }

  /** A worker that hangs does so for good: no task is executed, and none gets into the queue, any more. */
  lemma HungForGood<T, W>(s: State<T, W>, step: Step<T>, effect: (W, T) -> Option<W>)
    requires MutexInv(s) && s.worker.Hung? && Enabled(s, step, effect)
    ensures var u := Apply(s, step, effect);
            u.worker == s.worker && u.executed == s.executed && u.queue == s.queue && u.inserted == s.inserted
  {
  }

  /**
    When nothing but outside steps can happen, every task has been executed, in order, if and
    only if the worker does not hang and its thread did not fail to start.
   */
  lemma {:induction false} QuietMeansDone<T, W(!new)>(world: W, steps: seq<Step<T>>, effect: (W, T) -> Option<W>)
    requires After(world, steps, effect).Some?
    requires forall step :: Enabled(After(world, steps, effect).value, step, effect) ==> FromOutside(step)
    ensures var s := After(world, steps, effect).value;
            && (s.executed == s.inserted <==> !s.worker.Hung? && !s.worker.Failed?)
            && (s.executed == s.inserted ==>
                  TasksOf(s.acts) == s.inserted && Fold(world, ChangesOf(s.acts), effect) == Some(s.world))
  {
    var s := After(world, steps, effect).value;
    Reachable(world, steps, effect);
    WorldIsFold(world, steps, effect);
    if s.worker.Hung? {
      assert |s.executed + [s.worker.task] + s.queue| > |s.executed|;
    } else if s.worker.Failed? {
      if s.producers != map[] {
        var step := NeverStuck(world, steps, effect);
      }
    } else if s.executed != s.inserted {
      var step := NeverStuck(world, steps, effect);
    }
  }

  /**
    Without direct changes the tasks alone decide: when nothing but outside steps can happen, all
    inserted tasks have been executed if and only if the thread of the worker did not fail to start
    and each task, run after those before it, comes to an end.
   */
  lemma {:induction false} DoneExactlyWhenTasksEnd<T, W(!new)>(world: W, steps: seq<Step<T>>, effect: (W, T) -> Option<W>)
    requires After(world, steps, effect).Some?
    requires forall i :: 0 <= i < |steps| ==> !steps[i].Change?
    requires forall step :: Enabled(After(world, steps, effect).value, step, effect) ==> FromOutside(step)
    ensures var s := After(world, steps, effect).value;
            s.executed == s.inserted <==> !s.worker.Failed? && Fold(world, s.inserted, effect).Some?
  {
    hide Enabled, Fold;
    var s := After(world, steps, effect).value;
    QuietMeansDone(world, steps, effect);
    TasksAlone(world, steps, effect);
    Reachable(world, steps, effect);
    if s.worker.Hung? {
      FoldStops(world, s.executed, s.worker.task, s.queue, effect);
    }
  }

  lemma {:induction false} TasksAlone<T, W(!new)>(world: W, steps: seq<Step<T>>, effect: (W, T) -> Option<W>)
    requires After(world, steps, effect).Some?
    requires forall i :: 0 <= i < |steps| ==> !steps[i].Change?
    ensures var s := After(world, steps, effect).value;
            && Fold(world, s.executed, effect) == Some(s.world)
            && (s.worker.Hung? ==> effect(s.world, s.worker.task).None?)
  {
    hide Fold;
    if steps == [] {
      FoldNone<T, W>(world, effect);
      assert ChangesOf<T>([]) == [];
    } else {
      var n := |steps| - 1;
      var s := After(world, steps[..n], effect).value;
      TasksAlone(world, steps[..n], effect);
      if steps[n].Execute? && effect(s.world, s.worker.task).Some? {
        FoldSnoc(world, s.executed, s.worker.task, effect);
      }
    }
  }

  lemma {:induction false} FoldSnoc<T, W>(world: W, tasks: seq<T>, task: T, effect: (W, T) -> Option<W>)
    ensures Fold(world, tasks + [task], effect)
            == if Fold(world, tasks, effect).None? then None else effect(Fold(world, tasks, effect).value, task)
  {
    assert (tasks + [task])[..|tasks|] == tasks;
  }

  /** A task that does not end stops the fold, whatever follows. */
  lemma {:induction false} FoldStops<T, W>(world: W, before: seq<T>, task: T, after: seq<T>, effect: (W, T) -> Option<W>)
    requires Fold(world, before, effect).Some? && effect(Fold(world, before, effect).value, task).None?
    ensures Fold(world, before + [task] + after, effect).None?
  {
    if after == [] {
      FoldSnoc(world, before, task, effect);
      assert before + [task] + [] == before + [task];
    } else {
      var n := |after| - 1;
      FoldStops(world, before, task, after[..n], effect);
      FoldSnoc(world, before + [task] + after[..n], after[n], effect);
      assert before + [task] + after == before + [task] + after[..n] + [after[n]];
    }
  }

  // ---------------------------------------------------------------- progress

  /** How many steps a producer has still to take, at most. */
  function Stage<T>(p: Producer<T>): nat {
    match p
    case WantsLock(_) => 18
    case Locked(_) => 15
    case Started(_) => 12
    case Inserted => 9
    case ToPost => 6
  }

  function Rank<T>(w: Worker<T>): nat {
    match w
    case NotStarted => 0
    case AtCheck => 1
    case AtWait => 0
    case WantsQueue => 4
    case Draining => 3
    case Running(_) => 4
    case ToUnlock => 2
    case Hung(_) => 0
    case Failed => 0
  }

  ghost function Measure<T(!new), W>(s: State<T, W>): nat {
    Total(s.producers, Stage) + 5 * s.semaphore + 2 * |s.queue| + Rank(s.worker)
  }

  /** Every step of the queue uses up some of the work left. */
  lemma {:induction false} WorkShrinks<T(!new), W>(s: State<T, W>, step: Step<T>, effect: (W, T) -> Option<W>)
    requires StartInv(s) && Enabled(s, step, effect) && !FromOutside(step)
    ensures Measure(Apply(s, step, effect)) < Measure(s)
  {
    match step {
      case Lock(_) => ProducerStep(s, step, effect);
      case EnsureStarted(_, _) => ProducerStep(s, step, effect);
      case Insert(_) => ProducerStep(s, step, effect);
      case Unlock(_) => ProducerStep(s, step, effect);
      case Post(p) => TotalSplit(s.producers, Stage, p);
      case _ =>
    }
  }

  lemma {:induction false} ProducerStep<T(!new), W>(s: State<T, W>, step: Step<T>, effect: (W, T) -> Option<W>)
    requires StartInv(s) && Enabled(s, step, effect)
    requires step.Lock? || step.EnsureStarted? || step.Insert? || step.Unlock?
    ensures Measure(Apply(s, step, effect)) < Measure(s)
  {
    hide StartInv;
    var u := Apply(s, step, effect);
    StartedOnce(s);
    TotalChange(s.producers, Stage, step.p, u.producers[step.p]);
    assert u.producers == s.producers[step.p := u.producers[step.p]];
  }

  lemma StartedOnce<T, W>(s: State<T, W>)
    requires StartInv(s)
    ensures s.runFlag || s.worker.NotStarted?
  {
  }

  /** A change from outside leaves the work of the queue as it is, a new enqueue adds a bounded amount. */
  lemma {:induction false} WorkAdded<T(!new), W>(s: State<T, W>, step: Step<T>, effect: (W, T) -> Option<W>)
    requires Enabled(s, step, effect) && FromOutside(step)
    ensures Measure(Apply(s, step, effect)) == Measure(s) + if step.Begin? then 18 else 0
  {
    if step.Begin? {
      var u := Apply(s, step, effect);
      TotalSplit(u.producers, Stage, step.p);
      assert u.producers - {step.p} == s.producers;
    }
  }

  /** How many steps of the queue are among the steps. */
  function OwnSteps<T>(steps: seq<Step<T>>): nat {
    if steps == [] then 0 else OwnSteps(steps[..|steps| - 1]) + if FromOutside(steps[|steps| - 1]) then 0 else 1
  }

  /** A run without new enqueues has no more steps of the queue than the work at its start. */
  lemma {:induction false} RunsOut<T(!new), W(!new)>(world: W, steps: seq<Step<T>>, more: seq<Step<T>>,
                                                     effect: (W, T) -> Option<W>)
    requires After(world, steps + more, effect).Some?
    requires forall i :: 0 <= i < |more| ==> !more[i].Begin?
    ensures After(world, steps, effect).Some?
    ensures OwnSteps(more) + Measure(After(world, steps + more, effect).value)
            <= Measure(After(world, steps, effect).value)
  {
    hide Measure, Enabled, Apply;
    if more == [] {
      assert steps + more == steps;
    } else {
      var n := |more| - 1;
      assert (steps + more)[..|steps + more| - 1] == steps + more[..n];
      RunsOut(world, steps, more[..n], effect);
      var s := After(world, steps + more[..n], effect).value;
      Reachable(world, steps + more[..n], effect);
      if FromOutside(more[n]) {
        WorkAdded(s, more[n], effect);
      } else {
        WorkShrinks(s, more[n], effect);
      }
    }
  }

  /**
    Every task gets done: from any reachable state, however the steps of the queue are scheduled
    and whatever is changed from outside, they run out, and when they do all inserted tasks have
    been executed in order, unless one of them hangs or the thread of the worker could not be started.
   */
  lemma {:induction false} EverythingGetsDone<T(!new), W(!new)>(world: W, steps: seq<Step<T>>, more: seq<Step<T>>,
                                                                effect: (W, T) -> Option<W>)
    requires After(world, steps + more, effect).Some?
    requires forall i :: 0 <= i < |more| ==> !more[i].Begin?
    ensures After(world, steps, effect).Some? && OwnSteps(more) <= Measure(After(world, steps, effect).value)
    ensures var s := After(world, steps + more, effect).value;
            || (s.executed == s.inserted && TasksOf(s.acts) == s.inserted
                && Fold(world, ChangesOf(s.acts), effect) == Some(s.world))
            || (s.worker.Hung? && exists w :: effect(w, s.worker.task).None?)
            || s.worker.Failed?
            || exists step :: Enabled(s, step, effect) && !FromOutside(step)
  {
    RunsOut(world, steps, more, effect);
    var s := After(world, steps + more, effect).value;
    WorldIsFold(world, steps + more, effect);
    Reachable(world, steps + more, effect);
    if s.executed != s.inserted && !s.worker.Hung? && !s.worker.Failed? {
      var step := NeverStuck(world, steps + more, effect);
    }
  }

  // ---------------------------------------------------------------- a run that hangs

  /** The states of a run that enqueues a single task and then lets the worker run. */
  function OneTask<T, W>(world: W, task: T, queue: seq<T>, semaphore: nat, mutex: Mutex, worker: Worker<T>): State<T, W> {
    State(mutex, semaphore, true, queue, map[], worker, world, 1, [task], [], [])
  }

  lemma {:induction false} AfterSnoc<T, W>(world: W, steps: seq<Step<T>>, s: State<T, W>, step: Step<T>,
                                           effect: (W, T) -> Option<W>)
    requires After(world, steps, effect) == Some(s) && Enabled(s, step, effect)
    ensures After(world, steps + [step], effect) == Some(Apply(s, step, effect))
  {
    assert (steps + [step])[..|steps|] == steps;
  }

  lemma {:induction false} EnqueueOne<T, W>(world: W, task: T, effect: (W, T) -> Option<W>) returns (steps: seq<Step<T>>)
    ensures After(world, steps, effect) == Some(OneTask(world, task, [task], 1, Free, AtCheck))
  {
    var s0 := Initial<T, W>(world);
    var s1 := s0.(producers := map[0 := WantsLock(task)]);
    var s2 := s0.(producers := map[0 := Locked(task)], mutex := ByProducer(0));
    var s3 := s0.(producers := map[0 := Started(task)], mutex := ByProducer(0), runFlag := true, starts := 1,
                  worker := AtCheck);
    var s4 := s3.(producers := map[0 := Inserted], queue := [task], inserted := [task]);
    var s5 := s4.(producers := map[0 := ToPost], mutex := Free);
    assert Apply(s0, Begin(0, task), effect) == s1 && Apply(s1, Lock(0), effect) == s2;
    assert Apply(s2, EnsureStarted(0, true), effect) == s3;
    assert Apply(s3, Insert(0), effect) == s4 && Apply(s4, Unlock(0), effect) == s5;
    assert Apply(s5, Post(0), effect) == OneTask(world, task, [task], 1, Free, AtCheck);
    AfterSnoc(world, [], s0, Begin(0, task), effect);
    AfterSnoc(world, [] + [Begin(0, task)], s1, Lock(0), effect);
    steps := [] + [Begin(0, task)] + [Lock(0)];
    AfterSnoc(world, steps, s2, EnsureStarted(0, true), effect);
    AfterSnoc(world, steps + [EnsureStarted(0, true)], s3, Insert(0), effect);
    steps := steps + [EnsureStarted(0, true)] + [Insert(0)];
    AfterSnoc(world, steps, s4, Unlock(0), effect);
    AfterSnoc(world, steps + [Unlock(0)], s5, Post(0), effect);
    steps := steps + [Unlock(0)] + [Post(0)];
  }

  /** Every task that would enqueue on its own queue hangs the worker in a run that enqueues it alone. */
  lemma {:induction false} TaskHangs<T, W>(world: W, task: T, effect: (W, T) -> Option<W>) returns (steps: seq<Step<T>>)
    requires effect(world, task).None?
    ensures After(world, steps, effect) == Some(OneTask(world, task, [], 0, ByWorker, Hung(task)))
  {
    steps := EnqueueOne(world, task, effect);
    var s0 := OneTask(world, task, [task], 1, Free, AtCheck);
    var s1 := s0.(worker := AtWait);
    var s2 := s0.(worker := WantsQueue, semaphore := 0);
    var s3 := s2.(worker := Draining, mutex := ByWorker);
    var s4 := s3.(worker := Running(task), queue := []);
    assert Apply(s0, Check, effect) == s1 && Apply(s1, Wait, effect) == s2 && Apply(s2, LockQueue, effect) == s3;
    assert Apply(s3, Dequeue, effect) == s4;
    assert Apply(s4, Execute, effect) == OneTask(world, task, [], 0, ByWorker, Hung(task));
    AfterSnoc(world, steps, s0, Check, effect);
    AfterSnoc(world, steps + [Check], s1, Wait, effect);
    AfterSnoc(world, steps + [Check] + [Wait], s2, LockQueue, effect);
    AfterSnoc(world, steps + [Check] + [Wait] + [LockQueue], s3, Dequeue, effect);
    AfterSnoc(world, steps + [Check] + [Wait] + [LockQueue] + [Dequeue], s4, Execute, effect);
    steps := steps + [Check] + [Wait] + [LockQueue] + [Dequeue] + [Execute];
  }
}
