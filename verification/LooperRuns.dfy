/**
  What a run of the message looper means, told from its steps alone: when a message was sent and
  with which delay, what had been sent before, what time the looper looked at, and what became of
  the messages. Nothing here relies on what the states of Looper.dfy remember.
 */
module LooperRuns {
  import opened Bytes
  import opened Seqs
  import opened MessageQueue
  import opened Looper

  /** The time after the steps. */
  function Now(steps: seq<Step>): nat {
    if steps == [] then 0
    else Now(steps[..|steps| - 1]) + match steps[|steps| - 1] case Tick(ms) => ms case _ => 0
  }

  function Count(steps: seq<Step>, counts: Step -> bool): nat {
    |Filter(steps, counts)|
  }

  predicate IsInsert(step: Step) {
    step.Insert?
  }

  predicate IsPost(step: Step) {
    step.Post?
  }

  predicate IsWait(step: Step) {
    step.Wait?
  }

  /** The step at u put message n into the list, and the sender's call began with the step at t. */
  ghost predicate SentAt(steps: seq<Step>, n: nat, t: nat, u: nat) {
    && t < u < |steps| && steps[u].Insert? && Count(steps[..u], IsInsert) == n
    && steps[t].Begin? && steps[t].p == steps[u].p
    && forall v :: t < v < u ==> !(steps[v].Begin? && steps[v].p == steps[u].p)
  }

  /** Message n has been sent to the end: its sender has posted after putting it into the list. */
  ghost predicate SentToEnd(steps: seq<Step>, n: nat) {
    exists u, v :: 0 <= u < v < |steps| && steps[u].Insert? && Count(steps[..u], IsInsert) == n
                   && steps[v] == Post(steps[u].p)
  }

  /** What the sender with a message on its way has: the letter of its call and the circumstances of its begin. */
  ghost predicate BegunAt(steps: seq<Step>, p: nat, m: Stamped, t: nat) {
    && t < |steps| && steps[t] == Begin(p, m.letter) && m.began == Now(steps[..t])
    && (forall k :: k in m.before <==> SentToEnd(steps[..t], k))
    && forall v :: t < v < |steps| ==> !(steps[v].Begin? && steps[v].p == p)
  }

  ghost predicate InsertedBy(steps: seq<Step>, p: nat, n: nat, u: nat) {
    && u < |steps| && steps[u] == Insert(p) && Count(steps[..u], IsInsert) == n
    && forall v :: u < v < |steps| ==> steps[v] != Post(p)
  }

  /** The record of message n says when and how it was sent. */
  ghost predicate Recorded(steps: seq<Step>, n: nat, m: Stamped) {
    exists t: nat, u: nat :: SentAt(steps, n, t, u) && m.letter == steps[t].letter && m.began == Now(steps[..t])
                   && forall k :: k in m.before <==> SentToEnd(steps[..t], k)
  }

  ghost predicate OnItsWay(s: State, p: nat, n: nat) {
    p in s.producers && (s.producers[p] == Looper.Inserted(n) || s.producers[p] == ToPost(n))
  }

  ghost predicate History(steps: seq<Step>, s: State) {
    && s.clock == Now(steps) && |s.inserted| == Count(steps, IsInsert)
    && s.semaphore + Count(steps, IsWait) == Count(steps, IsPost)
    && (forall n :: 0 <= n < |s.inserted| ==> Recorded(steps, n, s.inserted[n]))
    && (forall n :: n in s.posted <==> SentToEnd(steps, n))
    && (forall p :: p in s.producers && (s.producers[p].WantsLock? || s.producers[p].Locked?) ==>
          exists t: nat :: BegunAt(steps, p, s.producers[p].m, t))
    && (forall p :: p in s.producers && (s.producers[p].Inserted? || s.producers[p].ToPost?) ==>
          exists u: nat :: InsertedBy(steps, p, s.producers[p].number, u))
    && (forall p: nat, n: nat, u: nat :: InsertedBy(steps, p, n, u) ==> OnItsWay(s, p, n))
  }

  lemma {:induction false} CountSnoc(steps: seq<Step>, step: Step, counts: Step -> bool)
    ensures Count(steps + [step], counts) == Count(steps, counts) + if counts(step) then 1 else 0
  {
    FilterSnoc(steps, step, counts);
  }

  lemma {:induction false} NowSnoc(steps: seq<Step>, step: Step)
    ensures Now(steps + [step]) == Now(steps) + if step.Tick? then step.ms else 0
  {
    assert (steps + [step])[..|steps|] == steps;
  }

  lemma Prefix(steps: seq<Step>, step: Step, t: nat)
    requires t <= |steps|
    ensures (steps + [step])[..t] == steps[..t]
  {
  }

  lemma {:induction false} SentAtGrows(steps: seq<Step>, step: Step, n: nat, t: nat, u: nat)
    requires SentAt(steps, n, t, u)
    ensures SentAt(steps + [step], n, t, u)
  {
    Prefix(steps, step, u);
  }

  lemma {:induction false} RecordedGrows(steps: seq<Step>, step: Step, n: nat, m: Stamped)
    requires Recorded(steps, n, m)
    ensures Recorded(steps + [step], n, m)
  {
    hide SentToEnd;
    var t: nat, u: nat :| SentAt(steps, n, t, u) && m.letter == steps[t].letter && m.began == Now(steps[..t])
                && forall k :: k in m.before <==> SentToEnd(steps[..t], k);
    SentAtGrows(steps, step, n, t, u);
    Prefix(steps, step, t);
  }

  lemma {:induction false} BegunGrows(steps: seq<Step>, step: Step, p: nat, m: Stamped, t: nat)
    requires BegunAt(steps, p, m, t) && !(step.Begin? && step.p == p)
    ensures BegunAt(steps + [step], p, m, t)
  {
    Prefix(steps, step, t);
  }

  lemma {:induction false} InsertedGrows(steps: seq<Step>, step: Step, p: nat, n: nat, u: nat)
    requires InsertedBy(steps, p, n, u) && step != Post(p)
    ensures InsertedBy(steps + [step], p, n, u)
  {
    Prefix(steps, step, u);
  }

  /** One more step finishes the sending of a message only if it is the post of its sender. */
  lemma {:induction false} SentToEndGrows(steps: seq<Step>, step: Step, n: nat)
    ensures SentToEnd(steps + [step], n) <==>
            SentToEnd(steps, n)
            || (step.Post? && exists u :: 0 <= u < |steps| && steps[u] == Insert(step.p) && Count(steps[..u], IsInsert) == n)
  {
    hide Count;
    var more := steps + [step];
    assert forall u :: 0 <= u < |steps| ==> more[..u] == steps[..u];
    if SentToEnd(more, n) {
      var u, v :| 0 <= u < v < |more| && more[u].Insert? && Count(more[..u], IsInsert) == n && more[v] == Post(more[u].p);
      if v == |steps| {
        assert steps[u] == Insert(step.p) && Count(steps[..u], IsInsert) == n;
      } else {
        assert steps[u].Insert? && Count(steps[..u], IsInsert) == n && steps[v] == Post(steps[u].p);
      }
    }
    if SentToEnd(steps, n) {
      var u, v :| 0 <= u < v < |steps| && steps[u].Insert? && Count(steps[..u], IsInsert) == n
                  && steps[v] == Post(steps[u].p);
      assert more[u].Insert? && more[v] == Post(more[u].p);
    }
    if step.Post? && exists u :: 0 <= u < |steps| && steps[u] == Insert(step.p) && Count(steps[..u], IsInsert) == n {
      var u :| 0 <= u < |steps| && steps[u] == Insert(step.p) && Count(steps[..u], IsInsert) == n;
      assert more[u] == Insert(step.p) && more[|steps|] == Post(more[u].p) && Count(more[..u], IsInsert) == n;
    }
  }

  lemma {:induction false} CountsKept(steps: seq<Step>, s: State, step: Step)
    requires History(steps, s) && Enabled(s, step)
    ensures var u, more := Apply(s, step), steps + [step];
            && u.clock == Now(more) && |u.inserted| == Count(more, IsInsert)
            && u.semaphore + Count(more, IsWait) == Count(more, IsPost)
  {
    hide FirstLater, FirstDue, StampsOf, InsertAt, Without, Recorded, SentToEnd, BegunAt, InsertedBy, Count, Now;
    NowSnoc(steps, step);
    CountSnoc(steps, step, IsInsert);
    CountSnoc(steps, step, IsPost);
    CountSnoc(steps, step, IsWait);
  }

  lemma {:induction false} RecordsKept(steps: seq<Step>, s: State, step: Step)
    requires History(steps, s) && Enabled(s, step)
    ensures forall n :: 0 <= n < |Apply(s, step).inserted| ==> Recorded(steps + [step], n, Apply(s, step).inserted[n])
  {
    hide FirstLater, FirstDue, StampsOf, InsertAt, Without, Recorded, SentToEnd, InsertedBy, Count;
    forall n | 0 <= n < |Apply(s, step).inserted| ensures Recorded(steps + [step], n, Apply(s, step).inserted[n]) {
      if n < |s.inserted| {
        RecordedGrows(steps, step, n, s.inserted[n]);
      } else {
        var t: nat :| BegunAt(steps, step.p, s.producers[step.p].m, t);
        JustRecorded(steps, step.p, n, s.producers[step.p].m, t);
      }
    }
  }

  lemma {:induction false} JustRecorded(steps: seq<Step>, p: nat, n: nat, m: Stamped, t: nat)
    requires BegunAt(steps, p, m, t) && Count(steps, IsInsert) == n
    ensures Recorded(steps + [Insert(p)], n, m)
  {
    hide SentToEnd, Count;
    var more := steps + [Insert(p)];
    assert more[..|steps|] == steps && more[..t] == steps[..t];
    assert SentAt(more, n, t, |steps|);
  }

  lemma {:induction false} BegunKept(steps: seq<Step>, s: State, step: Step, p: nat)
    requires History(steps, s) && Enabled(s, step)
    requires var u := Apply(s, step); p in u.producers && (u.producers[p].WantsLock? || u.producers[p].Locked?)
    ensures exists t: nat :: BegunAt(steps + [step], p, Apply(s, step).producers[p].m, t)
  {
    hide FirstLater, FirstDue, StampsOf, InsertAt, Without, Recorded, SentToEnd, InsertedBy, Count, Now, BegunAt;
    if step.Begin? && step.p == p {
      JustBegun(steps, p, Apply(s, step).producers[p].m);
    } else {
      var t: nat :| BegunAt(steps, p, s.producers[p].m, t);
      BegunGrows(steps, step, p, s.producers[p].m, t);
    }
  }

  lemma {:induction false} JustBegun(steps: seq<Step>, p: nat, m: Stamped)
    requires m.began == Now(steps) && forall k :: k in m.before <==> SentToEnd(steps, k)
    ensures BegunAt(steps + [Begin(p, m.letter)], p, m, |steps|)
  {
    Prefix(steps, Begin(p, m.letter), |steps|);
    assert steps[..|steps|] == steps;
  }

  lemma {:induction false} WayKept(steps: seq<Step>, s: State, step: Step, p: nat, n: nat)
    requires History(steps, s) && Enabled(s, step) && MutexInv(s)
    requires OnItsWay(Apply(s, step), p, n)
    ensures exists u: nat :: InsertedBy(steps + [step], p, n, u)
  {
    hide FirstLater, FirstDue, StampsOf, InsertAt, Without, Recorded, SentToEnd, InsertedBy, Count, Now, BegunAt, MutexInv;
    if step == Insert(p) {
      JustInserted(steps, p, n);
    } else {
      assert OnItsWay(s, p, n) && step != Post(p);
      var u: nat :| InsertedBy(steps, p, n, u);
      InsertedGrows(steps, step, p, n, u);
    }
  }

  lemma {:induction false} JustInserted(steps: seq<Step>, p: nat, n: nat)
    requires Count(steps, IsInsert) == n
    ensures InsertedBy(steps + [Insert(p)], p, n, |steps|)
  {
    assert (steps + [Insert(p)])[..|steps|] == steps;
  }

  lemma {:induction false} OnlyWay(steps: seq<Step>, s: State, step: Step, p: nat, n: nat, u: nat)
    requires History(steps, s) && Enabled(s, step) && InsertedBy(steps + [step], p, n, u)
    ensures OnItsWay(Apply(s, step), p, n)
  {
    hide FirstLater, FirstDue, StampsOf, InsertAt, Without, Recorded, SentToEnd, Count, Now, BegunAt;
    var more := steps + [step];
    assert more[..u] == steps[..u];
    if u == |steps| {
      assert steps[..u] == steps;
    } else {
      assert steps[u] == more[u];
      assert forall v :: u < v < |steps| ==> steps[v] == more[v];
      assert InsertedBy(steps, p, n, u);
      assert more[|steps|] == step && step != Post(p);
    }
  }

  lemma {:induction false} PostedKept(steps: seq<Step>, s: State, step: Step, n: nat)
    requires History(steps, s) && Enabled(s, step)
    ensures n in Apply(s, step).posted <==> SentToEnd(steps + [step], n)
  {
    hide FirstLater, FirstDue, StampsOf, InsertAt, Without, Recorded, SentToEnd, Count, Now, BegunAt;
    SentToEndGrows(steps, step, n);
    if step.Post? {
      PostMakes(steps, s, step.p, n);
    }
  }

  lemma {:induction false} PostMakes(steps: seq<Step>, s: State, p: nat, n: nat)
    requires History(steps, s) && Enabled(s, Post(p))
    ensures n in s.posted || n == s.producers[p].number <==>
            SentToEnd(steps, n) || exists u :: 0 <= u < |steps| && steps[u] == Insert(p) && Count(steps[..u], IsInsert) == n
  {
    hide Recorded, Count, Now, BegunAt;
    if u: nat :| u < |steps| && steps[u] == Insert(p) && Count(steps[..u], IsInsert) == n {
      if InsertedBy(steps, p, n, u) {
        assert OnItsWay(s, p, n);
      } else {
        assert SentToEnd(steps, n);
      }
    }
    if n == s.producers[p].number {
      var u: nat :| InsertedBy(steps, p, n, u);
      assert steps[u] == Insert(p);
    }
  }

  lemma {:induction false} HistoryKept(steps: seq<Step>, s: State, step: Step)
    requires History(steps, s) && Enabled(s, step) && MutexInv(s)
    ensures History(steps + [step], Apply(s, step))
  {
    hide FirstLater, FirstDue, StampsOf, InsertAt, Without, Recorded, SentToEnd, Count, Now, BegunAt, InsertedBy, MutexInv;
    hide Apply, Enabled;
    var more, u := steps + [step], Apply(s, step);
    CountsKept(steps, s, step);
    RecordsKept(steps, s, step);
    forall n ensures n in u.posted <==> SentToEnd(more, n) { PostedKept(steps, s, step, n); }
    forall p | p in u.producers && (u.producers[p].WantsLock? || u.producers[p].Locked?)
      ensures exists t: nat :: BegunAt(more, p, u.producers[p].m, t)
    {
      BegunKept(steps, s, step, p);
    }
    forall p | p in u.producers && (u.producers[p].Inserted? || u.producers[p].ToPost?)
      ensures exists v: nat :: InsertedBy(more, p, u.producers[p].number, v)
    {
      WayKept(steps, s, step, p, u.producers[p].number);
    }
    forall p: nat, n: nat, v: nat | InsertedBy(more, p, n, v) ensures OnItsWay(u, p, n) {
      OnlyWay(steps, s, step, p, n, v);
    }
  }

  lemma {:induction false} AlwaysHistory(steps: seq<Step>)
    requires After(steps).Some?
    ensures History(steps, After(steps).value)
  {
    hide History, Enabled, Apply, Invariant;
    if steps == [] {
      NoHistory();
    } else {
      var n := |steps| - 1;
      AlwaysHistory(steps[..n]);
      Reachable(steps[..n]);
      assert MutexInv(After(steps[..n]).value) by { MutexOf(After(steps[..n]).value); }
      HistoryKept(steps[..n], After(steps[..n]).value, steps[n]);
      assert steps[..n] + [steps[n]] == steps;
    }
  }

  lemma NoHistory()
    ensures After([]) == Some(Initial()) && History([], Initial())
  {
  }

  lemma MutexOf(s: State)
    requires Invariant(s)
    ensures MutexInv(s)
  {
  }

  // ---------------------------------------------------------------- results

  /** Every message is a call: who sent it and when is in the steps. */
  lemma {:induction false} SentBy(steps: seq<Step>, n: nat) returns (t: nat, u: nat)
    requires After(steps).Some? && n < |After(steps).value.inserted|
    ensures SentAt(steps, n, t, u)
    ensures var m := After(steps).value.inserted[n];
            && m.letter == steps[t].letter && m.began == Now(steps[..t])
            && forall k :: k in m.before <==> SentToEnd(steps[..t], k)
  {
    hide SentToEnd, Now;
    AlwaysHistory(steps);
    var m := After(steps).value.inserted[n];
    assert Recorded(steps, n, m);
    t, u :| SentAt(steps, n, t, u) && m.letter == steps[t].letter && m.began == Now(steps[..t])
            && forall k :: k in m.before <==> SentToEnd(steps[..t], k);
  }

  lemma {:induction false} SentOnce(steps: seq<Step>, n: nat, t: nat, u: nat, t': nat, u': nat)
    requires SentAt(steps, n, t, u) && SentAt(steps, n, t', u')
    ensures t == t' && u == u'
  {
    hide Filter;
    if u < u' {
      RankRises(steps, IsInsert, u, u');
    } else if u' < u {
      RankRises(steps, IsInsert, u', u);
    }
  }

  /**
    The list is in the order of the times at which the messages fall due, the time of the call
    and the delay added up, and messages due at the same time are in the order of their insertion.
   */
  lemma {:induction false} ListedByDueTime(steps: seq<Step>, i: nat, j: nat, ta: nat, ua: nat, tb: nat, ub: nat)
    requires After(steps).Some? && i < j < |After(steps).value.list|
    requires SentAt(steps, After(steps).value.list[i], ta, ua) && SentAt(steps, After(steps).value.list[j], tb, ub)
    ensures var a, b := Now(steps[..ta]) + steps[ta].letter.delay, Now(steps[..tb]) + steps[tb].letter.delay;
            a < b || (a == b && ua < ub)
  {
    hide Now, After, Filter;
    var s := After(steps).value;
    QueueAlwaysOrdered(steps);
    var t, u := SentBy(steps, s.list[i]);
    SentOnce(steps, s.list[i], t, u, ta, ua);
    t, u := SentBy(steps, s.list[j]);
    SentOnce(steps, s.list[j], t, u, tb, ub);
    if ub < ua {
      RankRises(steps, IsInsert, ub, ua);
    }
  }

  /** The time a look at the list goes by is that of the last sample. */
  ghost predicate SampledAt(steps: seq<Step>, now: nat, w: nat) {
    w < |steps| && steps[w] == Sample && now == Now(steps[..w]) && forall x :: w < x < |steps| ==> steps[x] != Sample
  }

  lemma {:induction false} LastSampleIs(steps: seq<Step>) returns (w: nat)
    requires After(steps).Some? && LastSample(After(steps).value.looper).Some?
    ensures SampledAt(steps, LastSample(After(steps).value.looper).value, w)
  {
    hide FirstLater, FirstDue, StampsOf, InsertAt, Without;
    var n := |steps| - 1;
    var s := After(steps[..n]).value;
    if steps[n] == Sample {
      AlwaysHistory(steps[..n]);
      w := n;
    } else {
      w := LastSampleIs(steps[..n]);
      assert forall x :: w < x < |steps| - 1 ==> steps[x] == steps[..n][x];
      assert steps[..w] == steps[..n][..w];
    }
  }

  /** A message is taken only when it is due at the time sampled last, and it is the first of the list. */
  lemma {:induction false} TakenWhenDue(steps: seq<Step>, i: nat, t: nat, u: nat) returns (w: nat, v: nat)
    requires After(steps).Some? && i < |After(steps).value.taken| && SentAt(steps, After(steps).value.taken[i], t, u)
    ensures w < v < |steps| && steps[w] == Sample && steps[v] == Scan && forall x :: w < x < v ==> steps[x] != Sample
    ensures u < v && Now(steps[..t]) + steps[t].letter.delay <= Now(steps[..w])
    ensures After(steps[..v]).Some?
    ensures var before := After(steps[..v]).value;
            |before.taken| == i && before.list != [] && before.list[0] == After(steps).value.taken[i]
  {
    hide Now, After, Filter, Apply, Enabled, Invariant, FirstDue, StampsOf, Without, ListInv;
    var n := |steps| - 1;
    assert n >= 0 by { NothingTaken(steps); }
    LastStep(steps);
    var s := After(steps[..n]).value;
    TakenGrows(steps[..n], s, steps[n]);
    if i < |s.taken| {
      var t', u' := SentBy(steps[..n], s.taken[i]);
      SentAtGrows(steps[..n], steps[n], s.taken[i], t', u');
      assert steps[..n] + [steps[n]] == steps;
      SentOnce(steps, s.taken[i], t', u', t, u);
      w, v := TakenWhenDue(steps[..n], i, t, u);
      assert steps[..n][..w] == steps[..w] && steps[..n][..v] == steps[..v] && steps[..n][..t] == steps[..t];
    } else {
      v := n;
      w := LastSampleIs(steps[..n]);
      var t', u' := SentBy(steps[..n], s.list[0]);
      SentAtGrows(steps[..n], steps[n], s.list[0], t', u');
      assert steps[..n] + [steps[n]] == steps;
      SentOnce(steps, s.list[0], t', u', t, u);
      assert steps[..n][..w] == steps[..w] && steps[..n][..t] == steps[..t];
    }
  }

  lemma NothingTaken(steps: seq<Step>)
    requires After(steps).Some? && After(steps).value.taken != []
    ensures steps != []
  {
  }

  lemma LastStep(steps: seq<Step>)
    requires After(steps).Some? && steps != []
    ensures var n := |steps| - 1;
            && After(steps[..n]).Some? && Enabled(After(steps[..n]).value, steps[n])
            && After(steps).value == Apply(After(steps[..n]).value, steps[n])
  {
  }

  /** A step takes at most one message, and then it is a look at the list that finds its head due. */
  lemma {:induction false} TakenGrows(steps: seq<Step>, s: State, step: Step)
    requires After(steps) == Some(s) && Enabled(s, step)
    ensures forall i :: 0 <= i < |s.taken| ==> s.taken[i] < |s.inserted|
    ensures var u := Apply(s, step);
            || u.taken == s.taken
            || (step == Scan && s.looper.Scanning? && s.list != [] && s.list[0] < |s.inserted|
                && u.taken == s.taken + [s.list[0]]
                && s.inserted[s.list[0]].began + s.inserted[s.list[0]].letter.delay <= s.looper.now)
  {
    hide Precedes, FirstDue, StampsOf, FirstLater, InsertAt, Without;
    Reachable(steps);
    if step == Scan {
      NextTakesHead(s);
    }
  }

  /**
    A clean end, told from the steps: once the loop has exited, the message taken last is a stop
    message, and every undelayed message with a target that had been sent to the end before the
    call that sent the stop message has been dispatched.
   */
  lemma {:induction false} CleanEnd(steps: seq<Step>, n: nat, tn: nat, un: nat, t: nat, u: nat)
    requires After(steps).Some? && After(steps).value.looper.Exited?
    requires After(steps).value.taken != [] ==>
               SentAt(steps, After(steps).value.taken[|After(steps).value.taken| - 1], t, u)
    requires SentAt(steps, n, tn, un) && steps[tn].letter == Letter(0, false, true)
    requires t <= |steps| && SentToEnd(steps[..t], n)
    ensures After(steps).value.taken != [] && steps[t].letter.stop && n in After(steps).value.dispatched
  {
    hide After, Filter, Invariant, SentAt, SentToEnd;
    var s := After(steps).value;
    ExitedOnStop(steps);
    var stop := s.taken[|s.taken| - 1];
    var t', u' := SentBy(steps, stop);
    SentOnce(steps, stop, t, u, t', u');
    SentIsListed(steps, t, n);
    var tn', un' := SentBy(steps, n);
    SentOnce(steps, n, tn, un, tn', un');
    DispatchedBeforeStop(steps, n);
  }

  lemma {:induction false} ExitedOnStop(steps: seq<Step>)
    requires After(steps).Some? && After(steps).value.looper.Exited?
    ensures var s := After(steps).value;
            && s.taken != [] && s.taken[|s.taken| - 1] < |s.inserted|
            && s.inserted[s.taken[|s.taken| - 1]].letter.stop
  {
    Reachable(steps);
  }

  /** What has been sent to the end by some step is known to the looper afterwards. */
  lemma {:induction false} SentIsListed(steps: seq<Step>, t: nat, n: nat)
    requires After(steps).Some? && t <= |steps| && SentToEnd(steps[..t], n)
    ensures n < |After(steps).value.inserted|
  {
    hide Filter;
    AlwaysHistory(steps);
    var u: nat, v: nat :| u < v < t && steps[..t][u].Insert? && Count(steps[..t][..u], IsInsert) == n
                          && steps[..t][v] == Post(steps[..t][u].p);
    assert steps[..t][..u] == steps[..u];
    RankRises(steps, IsInsert, u, |steps|);
    assert steps[..|steps|] == steps;
  }

  /** A message with a handler: it has a target and does not stop the loop. */
  predicate HasHandler(m: Stamped) {
    m.letter.target && !m.letter.stop
  }

  /** Exactly the messages handed over that have a handler are dispatched, in the order of taking and once each. */
  lemma {:induction false} DispatchedExactly(steps: seq<Step>)
    requires After(steps).Some?
    ensures var s := After(steps).value;
            var handed := if s.looper.Holding? || s.looper.ToDispatch? then 1 else 0;
            && (forall i, j :: 0 <= i < j < |s.taken| ==> s.taken[i] != s.taken[j])
            && (forall i :: 0 <= i < |s.taken| ==> s.taken[i] < |s.inserted|)
            && handed <= |s.taken|
            && s.dispatched == Filter(s.taken[..|s.taken| - handed], Handleable(s.inserted))
  {
    Reachable(steps);
    DispatchedOf(After(steps).value);
  }

  lemma {:induction false} DispatchedOf(s: State)
    requires ConservationInv(s) && TakenInv(s) && DispatchInv(s)
    ensures var handed := if s.looper.Holding? || s.looper.ToDispatch? then 1 else 0;
            && (forall i, j :: 0 <= i < j < |s.taken| ==> s.taken[i] != s.taken[j])
            && (forall i :: 0 <= i < |s.taken| ==> s.taken[i] < |s.inserted|)
            && handed <= |s.taken|
            && s.dispatched == Filter(s.taken[..|s.taken| - handed], Handleable(s.inserted))
  {
    hide Filter, ForHandlers, Handleable;
    TakenOnce(s);
    assert s.taken[..|s.taken|] == s.taken;
    ForHandlersIsFilter(s.inserted, Handled(s));
  }

  function Handleable(inserted: seq<Stamped>): nat -> bool {
    (n: nat) => n < |inserted| && HasHandler(inserted[n])
  }

  lemma {:induction false} ForHandlersIsFilter(inserted: seq<Stamped>, ns: seq<nat>)
    requires forall i :: 0 <= i < |ns| ==> ns[i] < |inserted|
    ensures ForHandlers(inserted, ns) == Filter(ns, Handleable(inserted))
  {
    if ns != [] {
      ForHandlersIsFilter(inserted, ns[..|ns| - 1]);
    }
  }

  lemma {:induction false} TakenOnce(s: State)
    requires ConservationInv(s)
    ensures forall i, j :: 0 <= i < j < |s.taken| ==> s.taken[i] != s.taken[j]
  {
    forall i, j | 0 <= i < j < |s.taken| ensures s.taken[i] != s.taken[j] {
      AllBelowOnce(|s.inserted|, s.taken[i]);
      assert (multiset(s.taken) + multiset(s.list) + multiset(s.flushed))[s.taken[i]] <= 1;
      CountedTwice(s.taken, i, j);
    }
  }

  lemma {:induction false} CountedTwice<T>(s: seq<T>, i: nat, j: nat)
    requires i < j < |s|
    ensures s[i] == s[j] ==> multiset(s)[s[i]] >= 2
  {
    assert s == s[..j] + s[j..];
    assert s[..j][i] in multiset(s[..j]) && s[j..][0] in multiset(s[j..]);
  }

  /** After a stop message has been taken nothing else is, and the looper is on its way out. */
  ghost predicate StopInv(s: State)
    requires TakenInv(s)
  {
    forall i :: 0 <= i < |s.taken| && s.inserted[s.taken[i]].letter.stop ==>
      i == |s.taken| - 1 && (InHand(s.looper) != [] || s.looper.ToDestroy? || s.looper.Exited?)
  }

  lemma {:induction false} StopKept(s: State, step: Step)
    requires ListInv(s) && TakenInv(s) && StopInv(s) && Enabled(s, step) && TakenInv(Apply(s, step))
    ensures StopInv(Apply(s, step))
  {
    hide FirstLater, FirstDue, StampsOf, InsertAt, Without, Precedes;
    if step == Scan {
      NextTakesHead(s);
    }
  }

  lemma {:induction false} AlwaysStops(steps: seq<Step>)
    requires After(steps).Some?
    ensures TakenInv(After(steps).value) && StopInv(After(steps).value)
  {
    hide Apply, Enabled, ConservationInv, MutexInv, DispatchInv, EarlyInv, OriginInv, PosterInv, NewsInv, WakeInv, EndInv;
    Reachable(steps);
    if steps != [] {
      var n := |steps| - 1;
      AlwaysStops(steps[..n]);
      Reachable(steps[..n]);
      LastStep(steps);
      StopKept(After(steps[..n]).value, steps[n]);
    }
  }

  /** Told to stop, the looper does: when the steps of the queue have run out and a stop message was sent, it has exited. */
  lemma {:induction false} StopEndsLoop(steps: seq<Step>, n: nat)
    requires After(steps).Some? && n < |After(steps).value.inserted| && After(steps).value.inserted[n].letter.stop
    requires forall step :: Enabled(After(steps).value, step) ==> FromOutside(step)
    ensures After(steps).value.looper.Exited?
  {
    var s := After(steps).value;
    if !s.looper.Exited? {
      if !Blocked(s) || s.producers != map[] {
        var step := NeverStuck(steps);
      }
      Reachable(steps);
      AlwaysStops(steps);
      assert Origin(s.inserted, s.clock, n);
      AllBelowOnce(|s.inserted|, n);
      assert multiset(s.taken)[n] + multiset(s.list)[n] == 1;
      if n in s.list {
        NoLostWakeUp(steps, n);
      }
    }
  }
  // ---------------------------------------------------------------- the calls of one producer

  function BeginsOf(p: nat): Step -> bool {
    (step: Step) => step.Begin? && step.p == p
  }

  function InsertsOf(p: nat): Step -> bool {
    (step: Step) => step.Insert? && step.p == p
  }

  function PostsOf(p: nat): Step -> bool {
    (step: Step) => step.Post? && step.p == p
  }

  ghost predicate CallInv(steps: seq<Step>, s: State, p: nat) {
    && Count(steps, BeginsOf(p)) == Count(steps, PostsOf(p)) + (if p in s.producers then 1 else 0)
    && Count(steps, InsertsOf(p))
       == Count(steps, PostsOf(p))
          + if p in s.producers && (s.producers[p].Inserted? || s.producers[p].ToPost?) then 1 else 0
  }

  lemma {:induction false} CallKept(steps: seq<Step>, s: State, step: Step, p: nat)
    requires CallInv(steps, s, p) && Enabled(s, step)
    ensures CallInv(steps + [step], Apply(s, step), p)
  {
    hide Count, FirstLater, FirstDue, StampsOf, InsertAt, Without;
    CountSnoc(steps, step, BeginsOf(p));
    CountSnoc(steps, step, InsertsOf(p));
    CountSnoc(steps, step, PostsOf(p));
  }

  /**
    Every call is carried through: a producer that is not in a call has put one message into the
    list for each of its calls and posted once for each.
   */
  lemma {:induction false} CallsCarriedThrough(steps: seq<Step>, p: nat)
    requires After(steps).Some?
    ensures var s := After(steps).value;
            && Count(steps, BeginsOf(p)) == Count(steps, PostsOf(p)) + (if p in s.producers then 1 else 0)
            && (p !in s.producers ==> Count(steps, BeginsOf(p)) == Count(steps, InsertsOf(p)))
    ensures CallInv(steps, After(steps).value, p)
  {
    hide Apply, Enabled;
    if steps != [] {
      var n := |steps| - 1;
      CallsCarriedThrough(steps[..n], p);
      LastStep(steps);
      CallKept(steps[..n], After(steps[..n]).value, steps[n], p);
      assert steps[..n] + [steps[n]] == steps;
    }
  }
}
