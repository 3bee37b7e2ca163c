/**
  What a run of the task queue means, told from its steps alone: which calls put which tasks into
  the queue, which changes came from outside, and whether the worker was started.
 */
module TaskQueueRuns {
  import opened Bytes
  import opened Seqs
  import opened TaskQueue

  function Count<T>(steps: seq<Step<T>>, counts: Step<T> -> bool): nat {
    |Filter(steps, counts)|
  }

  predicate IsInsert<T>(step: Step<T>) {
    step.Insert?
  }

  predicate IsPost<T>(step: Step<T>) {
    step.Post?
  }

  predicate IsWait<T>(step: Step<T>) {
    step.Wait?
  }

  /** The step at u put the n-th task into the queue, in a call that began with the step at t. */
  ghost predicate SentAt<T>(steps: seq<Step<T>>, n: nat, t: nat, u: nat) {
    && t < u < |steps| && steps[u].Insert? && Count(steps[..u], IsInsert) == n
    && steps[t].Begin? && steps[t].p == steps[u].p
    && forall v :: t < v < u ==> !(steps[v].Begin? && steps[v].p == steps[u].p)
  }

  /** The producer's call under way began with the step at t. */
  ghost predicate BegunAt<T>(steps: seq<Step<T>>, p: nat, task: T, t: nat) {
    && t < |steps| && steps[t] == Begin(p, task)
    && forall v :: t < v < |steps| ==> !(steps[v].Begin? && steps[v].p == p)
  }

  ghost predicate Recorded<T>(steps: seq<Step<T>>, n: nat, task: T) {
    exists t: nat, u: nat :: SentAt(steps, n, t, u) && steps[t].task == task
  }

  /** Whether the first attempt to start the worker succeeded, if there was one. */
  function FirstStart<T>(steps: seq<Step<T>>): Option<bool> {
    if steps == [] then None
    else
      var before, last := FirstStart(steps[..|steps| - 1]), steps[|steps| - 1];
      if before.None? && last.EnsureStarted? then Some(last.threadStarts) else before
  }

  /** The changes made from outside, in order. */
  function OutsideChanges<T>(steps: seq<Step<T>>): seq<T> {
    if steps == [] then []
    else
      var last := steps[|steps| - 1];
      OutsideChanges(steps[..|steps| - 1]) + if last.Change? then [last.change] else []
  }

  function DirectsOf<T>(acts: seq<Act<T>>): seq<T> {
    if acts == [] then []
    else DirectsOf(acts[..|acts| - 1]) + if acts[|acts| - 1].Direct? then [acts[|acts| - 1].change] else []
  }

  /** The task of a producer whose call has not got it into the queue yet. */
  function Carried<T>(p: Producer<T>): Option<T> {
    if p.WantsLock? || p.Locked? || p.Started? then Some(p.task) else None
  }

  ghost predicate History<T, W>(steps: seq<Step<T>>, s: State<T, W>) {
    && |s.inserted| == Count(steps, IsInsert) && s.semaphore + Count(steps, IsWait) == Count(steps, IsPost)
    && (forall n :: 0 <= n < |s.inserted| ==> Recorded(steps, n, s.inserted[n]))
    && (forall p :: p in s.producers && Carried(s.producers[p]).Some? ==>
          exists t: nat :: BegunAt(steps, p, Carried(s.producers[p]).value, t))
  }

  ghost predicate Outside<T, W>(steps: seq<Step<T>>, s: State<T, W>) {
    && DirectsOf(s.acts) == OutsideChanges(steps)
    && (s.worker.NotStarted? <==> FirstStart(steps).None?)
    && (s.worker.Failed? <==> FirstStart(steps) == Some(false))
    && s.starts == (if FirstStart(steps) == Some(true) then 1 else 0)
  }

  lemma {:induction false} CountSnoc<T>(steps: seq<Step<T>>, step: Step<T>, counts: Step<T> -> bool)
    ensures Count(steps + [step], counts) == Count(steps, counts) + if counts(step) then 1 else 0
  {
    FilterSnoc(steps, step, counts);
  }

  lemma {:induction false} CountsKept<T, W>(steps: seq<Step<T>>, s: State<T, W>, step: Step<T>, effect: (W, T) -> Option<W>)
    requires History(steps, s) && Enabled(s, step, effect)
    ensures var u, more := Apply(s, step, effect), steps + [step];
            |u.inserted| == Count(more, IsInsert) && u.semaphore + Count(more, IsWait) == Count(more, IsPost)
  {
    hide Count, Recorded, BegunAt;
    CountSnoc(steps, step, IsInsert);
    CountSnoc(steps, step, IsPost);
    CountSnoc(steps, step, IsWait);
  }

  lemma {:induction false} RecordedGrows<T>(steps: seq<Step<T>>, step: Step<T>, n: nat, task: T)
    requires Recorded(steps, n, task)
    ensures Recorded(steps + [step], n, task)
  {
    var t: nat, u: nat :| SentAt(steps, n, t, u) && steps[t].task == task;
    var more := steps + [step];
    assert more[..u] == steps[..u];
    assert SentAt(more, n, t, u) && more[t].task == task;
  }

  lemma {:induction false} JustRecorded<T>(steps: seq<Step<T>>, p: nat, n: nat, task: T, t: nat)
    requires BegunAt(steps, p, task, t) && Count(steps, IsInsert) == n
    ensures Recorded(steps + [Insert(p)], n, task)
  {
    var more := steps + [Insert(p)];
    assert more[..|steps|] == steps;
    assert SentAt(more, n, t, |steps|) && more[t].task == task;
  }

  lemma {:induction false} RecordsKept<T, W>(steps: seq<Step<T>>, s: State<T, W>, step: Step<T>, effect: (W, T) -> Option<W>)
    requires History(steps, s) && Enabled(s, step, effect)
    ensures forall n :: 0 <= n < |Apply(s, step, effect).inserted| ==>
              Recorded(steps + [step], n, Apply(s, step, effect).inserted[n])
  {
    hide Count, Recorded, BegunAt;
    forall n | 0 <= n < |Apply(s, step, effect).inserted|
      ensures Recorded(steps + [step], n, Apply(s, step, effect).inserted[n])
    {
      if n < |s.inserted| {
        RecordedGrows(steps, step, n, s.inserted[n]);
      } else {
        var t: nat :| BegunAt(steps, step.p, s.producers[step.p].task, t);
        JustRecorded(steps, step.p, n, s.producers[step.p].task, t);
      }
    }
  }

  lemma {:induction false} BegunKept<T, W>(steps: seq<Step<T>>, s: State<T, W>, step: Step<T>, effect: (W, T) -> Option<W>,
                                           p: nat)
    requires History(steps, s) && Enabled(s, step, effect)
    requires var u := Apply(s, step, effect); p in u.producers && Carried(u.producers[p]).Some?
    ensures exists t: nat :: BegunAt(steps + [step], p, Carried(Apply(s, step, effect).producers[p]).value, t)
  {
    hide Count, Recorded;
    var u, more := Apply(s, step, effect), steps + [step];
    if step.Begin? && step.p == p {
      assert BegunAt(more, p, Carried(u.producers[p]).value, |steps|);
    } else {
      var t: nat :| BegunAt(steps, p, Carried(s.producers[p]).value, t);
      assert BegunAt(more, p, Carried(u.producers[p]).value, t);
    }
  }

  lemma {:induction false} OutsideKept<T, W>(steps: seq<Step<T>>, s: State<T, W>, step: Step<T>, effect: (W, T) -> Option<W>)
    requires Outside(steps, s) && Enabled(s, step, effect) && StartInv(s)
    ensures Outside(steps + [step], Apply(s, step, effect))
  {
    var u, more := Apply(s, step, effect), steps + [step];
    assert more[..|steps|] == steps;
    assert u.acts == s.acts || (|u.acts| == |s.acts| + 1 && u.acts[..|s.acts|] == s.acts);
  }

  lemma {:induction false} AlwaysHistory<T, W(!new)>(world: W, steps: seq<Step<T>>, effect: (W, T) -> Option<W>)
    requires After(world, steps, effect).Some?
    ensures History(steps, After(world, steps, effect).value) && Outside(steps, After(world, steps, effect).value)
  {
    if steps != [] {
      var n := |steps| - 1;
      var before, step := steps[..n], steps[n];
      AlwaysHistory(world, before, effect);
      HistoryKept(world, before, step, effect);
      assert before + [step] == steps;
    }
  }

  lemma {:induction false} HistoryKept<T, W(!new)>(world: W, steps: seq<Step<T>>, step: Step<T>, effect: (W, T) -> Option<W>)
    requires After(world, steps, effect).Some? && Enabled(After(world, steps, effect).value, step, effect)
    requires History(steps, After(world, steps, effect).value) && Outside(steps, After(world, steps, effect).value)
    ensures var u := Apply(After(world, steps, effect).value, step, effect);
            History(steps + [step], u) && Outside(steps + [step], u)
  {
    hide Count, Recorded, BegunAt, Outside, Apply, Enabled, After;
    var s := After(world, steps, effect).value;
    var u := Apply(s, step, effect);
    CountsKept(steps, s, step, effect);
    RecordsKept(steps, s, step, effect);
    forall p | p in u.producers && Carried(u.producers[p]).Some?
      ensures exists t: nat :: BegunAt(steps + [step], p, Carried(u.producers[p]).value, t)
    {
      BegunKept(steps, s, step, effect, p);
    }
    Reachable(world, steps, effect);
    OutsideKept(steps, s, step, effect);
  }

  // ---------------------------------------------------------------- results

  /** The n-th task put into the queue is the one of the call that put it there; a call puts in one task. */
  lemma {:induction false} TaskOfCall<T, W(!new)>(world: W, steps: seq<Step<T>>, effect: (W, T) -> Option<W>, n: nat)
    returns (t: nat, u: nat)
    requires After(world, steps, effect).Some? && n < |After(world, steps, effect).value.inserted|
    ensures SentAt(steps, n, t, u) && steps[t].task == After(world, steps, effect).value.inserted[n]
  {
    AlwaysHistory(world, steps, effect);
    var task := After(world, steps, effect).value.inserted[n];
    assert Recorded(steps, n, task);
    t, u :| SentAt(steps, n, t, u) && steps[t].task == task;
  }

  /**
    No call is forgotten and nothing is made up: the tasks put into the queue are as many as the
    calls that reached the list, the semaphore has what was posted and not waited for, the direct
    changes of the world are those from outside in their order, and the worker runs, or failed,
    according to the first attempt to start it.
   */
  lemma {:induction false} NothingForgotten<T, W(!new)>(world: W, steps: seq<Step<T>>, effect: (W, T) -> Option<W>)
    requires After(world, steps, effect).Some?
    ensures var s := After(world, steps, effect).value;
            && |s.inserted| == Count(steps, IsInsert)
            && s.semaphore + Count(steps, IsWait) == Count(steps, IsPost)
            && DirectsOf(s.acts) == OutsideChanges(steps)
            && (s.worker.NotStarted? <==> FirstStart(steps).None?)
            && (s.worker.Failed? <==> FirstStart(steps) == Some(false))
  {
    AlwaysHistory(world, steps, effect);
  }
  // ---------------------------------------------------------------- the calls of one producer

  function BeginsOf<T>(p: nat): Step<T> -> bool {
    (step: Step<T>) => step.Begin? && step.p == p
  }

  function InsertsOf<T>(p: nat): Step<T> -> bool {
    (step: Step<T>) => step.Insert? && step.p == p
  }

  function PostsOf<T>(p: nat): Step<T> -> bool {
    (step: Step<T>) => step.Post? && step.p == p
  }

  ghost predicate CallInv<T, W>(steps: seq<Step<T>>, s: State<T, W>, p: nat) {
    && Count(steps, BeginsOf(p)) == Count(steps, PostsOf(p)) + (if p in s.producers then 1 else 0)
    && Count(steps, InsertsOf(p))
       == Count(steps, PostsOf(p)) + if p in s.producers && Carried(s.producers[p]).None? then 1 else 0
  }

  lemma {:induction false} CallKept<T, W>(steps: seq<Step<T>>, s: State<T, W>, step: Step<T>,
                                              effect: (W, T) -> Option<W>, p: nat)
    requires CallInv(steps, s, p) && Enabled(s, step, effect)
    ensures CallInv(steps + [step], Apply(s, step, effect), p)
  {
    hide Count;
    CountSnoc(steps, step, BeginsOf(p));
    CountSnoc(steps, step, InsertsOf(p));
    CountSnoc(steps, step, PostsOf(p));
  }

  /**
    Every call is carried through: a producer that is not in a call has put one task into the queue
    for each of its calls and posted once for each.
   */
  lemma {:induction false} CallsCarriedThrough<T, W(!new)>(world: W, steps: seq<Step<T>>, effect: (W, T) -> Option<W>,
                                                           p: nat)
    requires After(world, steps, effect).Some?
    ensures var s := After(world, steps, effect).value;
            && Count(steps, BeginsOf(p)) == Count(steps, PostsOf(p)) + (if p in s.producers then 1 else 0)
            && (p !in s.producers ==> Count(steps, BeginsOf(p)) == Count(steps, InsertsOf(p)))
    ensures CallInv(steps, After(world, steps, effect).value, p)
  {
    hide Apply, Enabled;
    if steps != [] {
      var n := |steps| - 1;
      CallsCarriedThrough(world, steps[..n], effect, p);
      CallKept(steps[..n], After(world, steps[..n], effect).value, steps[n], effect, p);
      assert steps[..n] + [steps[n]] == steps;
    }
  }
}
