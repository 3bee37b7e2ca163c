/**
  The message looper of utils/src/hdf_message_looper.c over the queue of
  utils/src/osal_msg_queue.c, as a step system: any number of producers, one looper
  thread, the mutex, the counting semaphore and a clock that never goes back.

  A message is known by its number, its place in the order of insertion.
 */
module Looper {
  import opened Bytes
  import opened Maps
  import opened Seqs
  import opened MessageQueue

  /** `delay` is what the sender left in timeStamp; `stop` marks MESSAGE_STOP_LOOP. */
  datatype Letter = Letter(delay: nat, stop: bool, target: bool)

  /** A letter with the time its enqueue began and the messages whose enqueue had finished by then. */
  datatype Stamped = Stamped(letter: Letter, began: nat, before: set<nat>) {
    /** message->timeStamp += OsalGetSysTimeMs() */
    function Stamp(): nat {
      letter.delay + began
    }
  }

  datatype Producer =
    | WantsLock(m: Stamped)
    | Locked(m: Stamped)
    | Inserted(number: nat)     // in the list, mutex still held
    | ToPost(number: nat)       // mutex released, semaphore not yet posted

  datatype Consumer =
    | AtSample
    | WantsList(now: nat)
    | Scanning(now: nat)        // mutex held
    | Holding(number: nat)      // taken out, mutex still held
    | Missed(now: nat)          // nothing due, mutex still held
    | AtWait(now: nat)
    | ToDispatch(number: nat)
    | ToRecycle(number: nat)
    | ToDestroy
    | Exited

  datatype Mutex = Free | ByProducer(p: nat) | ByLooper

  datatype State = State(
    clock: nat,
    mutex: Mutex,
    semaphore: nat,
    list: seq<nat>,
    producers: map<nat, Producer>,
    looper: Consumer,
    // what happened
    inserted: seq<Stamped>,
    posted: set<nat>,
    taken: seq<nat>,
    dispatched: seq<nat>,
    recycled: seq<nat>,
    flushed: seq<nat>)

  datatype Step =
    | Tick(ms: nat)
    | Begin(p: nat, letter: Letter)
    | Lock(p: nat)
    | Insert(p: nat)
    | Unlock(p: nat)
    | Post(p: nat)
    | Sample
    | LockList
    | Scan
    | UnlockList
    | Wait
    | Dispatch
    | Recycle
    | Destroy

  function Initial(): State {
    State(0, Free, 0, [], map[], AtSample, [], {}, [], [], [], [])
  }

  function StampsOf(s: State): (r: seq<nat>)
    requires forall i :: 0 <= i < |s.list| ==> s.list[i] < |s.inserted|
    ensures |r| == |s.list| && forall i :: 0 <= i < |s.list| ==> r[i] == s.inserted[s.list[i]].Stamp()
  {
    seq(|s.list|, i requires 0 <= i < |s.list| => s.inserted[s.list[i]].Stamp())
  }

  predicate Listed(s: State) {
    forall i :: 0 <= i < |s.list| ==> s.list[i] < |s.inserted|
  }

  /** A destroyed queue is not used any more. */
  predicate Alive(s: State) {
    !s.looper.Exited?
  }

  /** HdfMessageLooperStop sends a message without delay; nothing is enqueued on a destroyed queue. */
  predicate Enabled(s: State, step: Step) {
    match step
    case Tick(_) => true
    case Begin(p, letter) => p !in s.producers && Alive(s) && (letter.stop ==> letter.delay == 0)
    case Lock(p) => p in s.producers && s.producers[p].WantsLock? && s.mutex == Free && Alive(s)
    case Insert(p) => p in s.producers && s.producers[p].Locked? && Listed(s)
    case Unlock(p) => p in s.producers && s.producers[p].Inserted?
    case Post(p) => p in s.producers && s.producers[p].ToPost? && Alive(s)
    case Sample => s.looper.AtSample?
    case LockList => s.looper.WantsList? && s.mutex == Free
    case Scan => s.looper.Scanning? && Listed(s)
    case UnlockList => s.looper.Holding? || s.looper.Missed?
    case Wait => s.looper.AtWait? && s.semaphore > 0
    case Dispatch => s.looper.ToDispatch? && s.looper.number < |s.inserted|
    case Recycle => s.looper.ToRecycle? && s.looper.number < |s.inserted|
    case Destroy => s.looper.ToDestroy? && s.mutex == Free
  }

  function Apply(s: State, step: Step): State
    requires Enabled(s, step)
  {
    match step
    case Tick(ms) => s.(clock := s.clock + ms)
    case Begin(p, letter) =>
      s.(producers := s.producers[p := WantsLock(Stamped(letter, s.clock, s.posted))])
    case Lock(p) =>
      s.(producers := s.producers[p := Locked(s.producers[p].m)], mutex := ByProducer(p))
    case Insert(p) =>
      var m, n := s.producers[p].m, |s.inserted|;
      var k := FirstLater(StampsOf(s), m.Stamp());
      s.(list := InsertAt<nat>(s.list, k, n), inserted := s.inserted + [m], producers := s.producers[p := Inserted(n)])
    case Unlock(p) =>
      s.(producers := s.producers[p := ToPost(s.producers[p].number)], mutex := Free)
    case Post(p) =>
      s.(producers := s.producers - {p}, semaphore := s.semaphore + 1, posted := s.posted + {s.producers[p].number})
    case Sample => s.(looper := WantsList(s.clock))
    case LockList => s.(looper := Scanning(s.looper.now), mutex := ByLooper)
    case Scan =>
      var k := FirstDue(StampsOf(s), s.looper.now);
      if k < |s.list| then
        s.(list := Without(s.list, k), looper := Holding(s.list[k]), taken := s.taken + [s.list[k]])
      else s.(looper := Missed(s.looper.now))
    case UnlockList =>
      s.(mutex := Free, looper := if s.looper.Missed? then AtWait(s.looper.now) else ToDispatch(s.looper.number))
    case Wait => s.(semaphore := s.semaphore - 1, looper := AtSample)
    case Dispatch =>
      var n := s.looper.number;
      var letter := s.inserted[n].letter;
      s.(looper := ToRecycle(n), dispatched := s.dispatched + if !letter.stop && letter.target then [n] else [])
    case Recycle =>
      var n := s.looper.number;
      s.(recycled := s.recycled + [n], looper := if s.inserted[n].letter.stop then ToDestroy else AtSample)
    case Destroy =>
      s.(recycled := s.recycled + s.list, flushed := s.list, list := [], looper := Exited)
  }

  /** The state after the steps, if each can be taken when its turn comes. */
  function After(steps: seq<Step>): Option<State> {
    if steps == [] then Some(Initial())
    else
      var before := After(steps[..|steps| - 1]);
      if before.Some? && Enabled(before.value, steps[|steps| - 1]) then Some(Apply(before.value, steps[|steps| - 1]))
      else None
  }

  // ---------------------------------------------------------------- the mutex

  ghost predicate MutexInv(s: State) {
    && (forall p :: p in s.producers ==>
          ((s.producers[p].Locked? || s.producers[p].Inserted?) <==> s.mutex == ByProducer(p)))
    && (s.mutex.ByProducer? ==> s.mutex.p in s.producers)
    && ((s.looper.Scanning? || s.looper.Holding? || s.looper.Missed?) <==> s.mutex == ByLooper)
    && (s.looper.Exited? ==> s.mutex == Free)
  }

  lemma {:induction false} MutexKept(s: State, step: Step)
    requires MutexInv(s) && Enabled(s, step)
    ensures MutexInv(Apply(s, step))
  {
    hide FirstLater, FirstDue, StampsOf;
  }

  // ---------------------------------------------------------------- the list

  function StampOf(s: State, n: nat): nat
    requires n < |s.inserted|
  {
    s.inserted[n].Stamp()
  }

  /** Earlier stamp first, and ties in the order of insertion. */
  ghost predicate Precedes(s: State, a: nat, b: nat)
    requires a < |s.inserted| && b < |s.inserted|
  {
    StampOf(s, a) < StampOf(s, b) || (StampOf(s, a) == StampOf(s, b) && a < b)
  }

  ghost predicate ListInv(s: State) {
    && Listed(s)
    && forall i, j :: 0 <= i < j < |s.list| ==> Precedes(s, s.list[i], s.list[j])
  }

  lemma {:induction false} StampsAscend(s: State)
    requires ListInv(s)
    ensures Ascending(StampsOf(s))
  {
    var r := StampsOf(s);
    forall i, j | 0 <= i < j < |r| ensures r[i] <= r[j] {
      assert Precedes(s, s.list[i], s.list[j]);
    }
  }

  lemma {:induction false} ListKept(s: State, step: Step)
    requires ListInv(s) && Enabled(s, step)
    ensures ListInv(Apply(s, step))
  {
    match step {
      case Insert(p) => InsertKeepsList(s, p);
      case Scan => ScanKeepsList(s);
      case _ =>
        assert Apply(s, step).inserted == s.inserted;
    }
  }

  lemma {:induction false} InsertKeepsList(s: State, p: nat)
    requires ListInv(s) && Enabled(s, Insert(p))
    ensures ListInv(Apply(s, Insert(p)))
  {
    var u, m := Apply(s, Insert(p)), s.producers[p].m;
    var k := FirstLater(StampsOf(s), m.Stamp());
    assert u.list == InsertAt<nat>(s.list, k, |s.inserted|) && u.inserted == s.inserted + [m];
    StampsAscend(s);
    InsertOrdered(s, u, k, m);
  }

  lemma {:induction false} InsertOrdered(s: State, u: State, k: nat, m: Stamped)
    requires ListInv(s) && k <= |s.list|
    requires u.list == InsertAt<nat>(s.list, k, |s.inserted|) && u.inserted == s.inserted + [m]
    requires forall i :: 0 <= i < k ==> StampOf(s, s.list[i]) <= m.Stamp()
    requires forall i :: k <= i < |s.list| ==> StampOf(s, s.list[i]) > m.Stamp()
    ensures ListInv(u)
  {
    assert forall n :: 0 <= n < |s.inserted| ==> StampOf(u, n) == StampOf(s, n);
    forall i, j | 0 <= i < j < |u.list| ensures Precedes(u, u.list[i], u.list[j]) {
      if i == k {
        assert u.list[j] == s.list[j - 1];
      } else if j == k {
        assert u.list[i] == s.list[i];
      } else {
        var a, b := if i < k then i else i - 1, if j < k then j else j - 1;
        assert u.list[i] == s.list[a] && u.list[j] == s.list[b];
        assert Precedes(s, s.list[a], s.list[b]);
      }
    }
  }

  lemma {:induction false} ScanKeepsList(s: State)
    requires ListInv(s) && Enabled(s, Scan)
    ensures ListInv(Apply(s, Scan))
  {
    NextTakesHead(s);
    TailOrdered(s, Apply(s, Scan));
  }

  lemma {:induction false} TailOrdered(s: State, u: State)
    requires ListInv(s) && u.inserted == s.inserted
    requires u.list == s.list || (s.list != [] && u.list == s.list[1..])
    ensures ListInv(u)
  {
    var d := if u.list == s.list then 0 else 1;
    forall i, j | 0 <= i < j < |u.list| ensures Precedes(u, u.list[i], u.list[j]) {
      assert u.list[i] == s.list[i + d] && u.list[j] == s.list[j + d];
      assert Precedes(s, s.list[i + d], s.list[j + d]);
    }
  }

  /**
    What HdfMessageQueueNext returns: a message only if it is the head of the list, is due
    and precedes every other, and nothing only if no message is due at the sampled time.
   */
  lemma {:induction false} NextTakesHead(s: State)
    requires ListInv(s) && Enabled(s, Scan)
    ensures var u := Apply(s, Scan);
            if u.looper.Missed? then
              && u.list == s.list && u.taken == s.taken
              && forall i :: 0 <= i < |s.list| ==>
                   s.inserted[s.list[i]].began + s.inserted[s.list[i]].letter.delay > s.looper.now
            else
              && s.list != [] && u.looper == Holding(s.list[0]) && u.list == s.list[1..] && u.taken == s.taken + [s.list[0]]
              && s.inserted[s.list[0]].began + s.inserted[s.list[0]].letter.delay <= s.looper.now
              && forall i :: 0 < i < |s.list| ==> Precedes(s, s.list[0], s.list[i])
  {
    StampsAscend(s);
    DueIsHead(StampsOf(s), s.looper.now);
    var k := FirstDue(StampsOf(s), s.looper.now);
    if k < |s.list| {
      assert Without(s.list, 0) == s.list[1..];
    } else {
      forall i | 0 <= i < |s.list| ensures StampOf(s, s.list[i]) > s.looper.now {
        assert StampsOf(s)[i] > s.looper.now;
      }
    }
  }

  // ---------------------------------------------------------------- no message lost or recycled twice

  /** The messages numbered below n, once each. */
  ghost function AllBelow(n: nat): multiset<nat> {
    if n == 0 then multiset{} else AllBelow(n - 1) + multiset{n - 1}
  }

  lemma {:induction false} AllBelowOnce(n: nat, i: nat)
    ensures AllBelow(n)[i] == if i < n then 1 else 0
  {
    if n > 0 {
      AllBelowOnce(n - 1, i);
    }
  }

  /** The message the looper has taken out and not yet recycled. */
  function InHand(c: Consumer): seq<nat> {
    if c.Holding? || c.ToDispatch? || c.ToRecycle? then [c.number] else []
  }

  /** Every message numbered below n was taken, is listed or was flushed, and only one of these and once. */
  ghost predicate AllSomewhere(taken: seq<nat>, list: seq<nat>, flushed: seq<nat>, n: nat) {
    multiset(taken) + multiset(list) + multiset(flushed) == AllBelow(n)
  }

  ghost predicate ConservationInv(s: State) {
    && AllSomewhere(s.taken, s.list, s.flushed, |s.inserted|)
    && s.recycled + InHand(s.looper) == s.taken + s.flushed
    && (if s.looper.Exited? then s.list == [] else s.flushed == [])
  }

  lemma {:induction false} ConservationKept(s: State, step: Step)
    requires ListInv(s) && MutexInv(s) && ConservationInv(s) && Enabled(s, step)
    ensures ConservationInv(Apply(s, step))
  {
    match step {
      case Insert(p) => InsertConserves(s, p);
      case Scan => ScanConserves(s);
      case Recycle => RecycleConserves(s);
      case Destroy => DestroyConserves(s);
      case _ =>
        var u := Apply(s, step);
        assert u.taken == s.taken && u.list == s.list && u.flushed == s.flushed;
        assert u.inserted == s.inserted && u.recycled == s.recycled && InHand(u.looper) == InHand(s.looper);
    }
  }

  lemma {:induction false} InsertConserves(s: State, p: nat)
    requires MutexInv(s) && ConservationInv(s) && Enabled(s, Insert(p))
    ensures ConservationInv(Apply(s, Insert(p)))
  {
    hide FirstLater, StampsOf, InsertAt, ConservationInv;
    var k := FirstLater(StampsOf(s), s.producers[p].m.Stamp());
    ConservesAfterInsert(s, Apply(s, Insert(p)), k, s.producers[p].m);
  }

  lemma {:induction false} ConservesAfterInsert(s: State, u: State, k: nat, m: Stamped)
    requires ConservationInv(s) && !s.looper.Exited? && k <= |s.list|
    requires u.list == InsertAt<nat>(s.list, k, |s.inserted|) && u.inserted == s.inserted + [m]
    requires u.taken == s.taken && u.flushed == s.flushed && u.recycled == s.recycled && u.looper == s.looper
    ensures ConservationInv(u)
  {
    hide InsertAt, AllSomewhere;
    OneMoreBelow(s.taken, s.list, k, s.flushed, |s.inserted|);
    assert |u.inserted| == |s.inserted| + 1;
  }

  lemma {:induction false} OneMoreBelow(taken: seq<nat>, list: seq<nat>, k: nat, flushed: seq<nat>, n: nat)
    requires k <= |list| && AllSomewhere(taken, list, flushed, n)
    ensures AllSomewhere(taken, InsertAt<nat>(list, k, n), flushed, n + 1)
  {
    InsertCounts(list, k, n);
    var x, y, z := multiset(taken), multiset(list), multiset(flushed);
    assert x + (y + multiset{n}) + z == x + y + z + multiset{n};
  }

  lemma {:induction false} ScanConserves(s: State)
    requires ListInv(s) && ConservationInv(s) && Enabled(s, Scan)
    ensures ConservationInv(Apply(s, Scan))
  {
    hide FirstDue, StampsOf, Precedes, Without;
    NextTakesHead(s);
    var u := Apply(s, Scan);
    if !u.looper.Missed? {
      HeadCounts(s.list, s.taken, multiset(s.flushed));
      assert s.recycled == s.recycled + [] == s.taken + [] == s.taken;
    }
  }

  lemma {:induction false} HeadCounts(list: seq<nat>, taken: seq<nat>, z: multiset<nat>)
    requires list != []
    ensures multiset(taken + [list[0]]) + multiset(list[1..]) + z == multiset(taken) + multiset(list) + z
  {
    assert list == [list[0]] + list[1..];
  }

  lemma {:induction false} RecycleConserves(s: State)
    requires ConservationInv(s) && Enabled(s, Recycle)
    ensures ConservationInv(Apply(s, Recycle))
  {
    assert s.recycled + [s.looper.number] + [] == s.recycled + [s.looper.number];
  }

  lemma {:induction false} DestroyConserves(s: State)
    requires ConservationInv(s) && Enabled(s, Destroy)
    ensures ConservationInv(Apply(s, Destroy))
  {
    assert s.recycled == s.recycled + [] == s.taken + [] == s.taken;
    var x, y, z := multiset(s.taken), multiset(s.list), multiset(s.flushed);
    assert x + y + z == x + multiset([]) + y;
    assert s.recycled + s.list + [] == s.taken + s.list;
  }

  lemma {:induction false} InsertCounts(list: seq<nat>, k: nat, n: nat)
    requires k <= |list|
    ensures multiset(InsertAt<nat>(list, k, n)) == multiset(list) + multiset{n}
  {
    assert list == list[..k] + list[k..];
  }

  // ---------------------------------------------------------------- what is dispatched

  /** The letters among ns that have a target and are not stop messages, in order. */
  function ForHandlers(inserted: seq<Stamped>, ns: seq<nat>): seq<nat>
    requires forall i :: 0 <= i < |ns| ==> ns[i] < |inserted|
  {
    if ns == [] then []
    else
      var n := ns[|ns| - 1];
      ForHandlers(inserted, ns[..|ns| - 1])
      + if !inserted[n].letter.stop && inserted[n].letter.target then [n] else []
  }

  lemma {:induction false} ForHandlersGrows(inserted: seq<Stamped>, more: seq<Stamped>, ns: seq<nat>)
    requires forall i :: 0 <= i < |ns| ==> ns[i] < |inserted|
    ensures ForHandlers(inserted + more, ns) == ForHandlers(inserted, ns)
  {
    if ns != [] {
      ForHandlersGrows(inserted, more, ns[..|ns| - 1]);
    }
  }

  lemma {:induction false} ForHandlersHas(inserted: seq<Stamped>, ns: seq<nat>, n: nat)
    requires forall i :: 0 <= i < |ns| ==> ns[i] < |inserted|
    requires n in ns && !inserted[n].letter.stop && inserted[n].letter.target
    ensures n in ForHandlers(inserted, ns)
  {
    if ns[|ns| - 1] != n {
      ForHandlersHas(inserted, ns[..|ns| - 1], n);
    }
  }

  /** The message taken out and not yet given to its handler. */
  function Undispatched(c: Consumer): seq<nat> {
    if c.Holding? || c.ToDispatch? then [c.number] else []
  }

  /** The messages the looper has finished handing over. */
  function Handled(s: State): seq<nat> {
    if |s.taken| >= |Undispatched(s.looper)| then s.taken[..|s.taken| - |Undispatched(s.looper)|] else []
  }

  ghost predicate TakenInv(s: State) {
    && (forall i :: 0 <= i < |s.taken| ==> s.taken[i] < |s.inserted|)
    && (InHand(s.looper) != [] ==> s.taken != [] && s.looper.number == s.taken[|s.taken| - 1])
  }

  lemma {:induction false} TakenKept(s: State, step: Step)
    requires ListInv(s) && TakenInv(s) && Enabled(s, step)
    ensures TakenInv(Apply(s, step))
  {
    if step.Scan? {
      NextTakesHead(s);
    }
    hide FirstLater, FirstDue, StampsOf;
  }

  ghost predicate DispatchInv(s: State)
    requires TakenInv(s)
  {
    s.dispatched == ForHandlers(s.inserted, Handled(s))
  }

  lemma {:induction false} DispatchKept(s: State, step: Step)
    requires ListInv(s) && TakenInv(s) && DispatchInv(s) && Enabled(s, step) && TakenInv(Apply(s, step))
    ensures DispatchInv(Apply(s, step))
  {
    hide ListInv, DispatchInv, ForHandlers, FirstLater, FirstDue, StampsOf, InsertAt, Without;
    var u := Apply(s, step);
    match step {
      case Insert(p) => DispatchAfterInsert(s, u, s.producers[p].m);
      case Scan =>
        NextTakesHead(s);
        if u.looper.Missed? {
          SameDispatch(s, u);
        } else {
          DispatchAfterTake(s, u, s.list[0]);
        }
      case Dispatch => DispatchAfterDispatch(s, u);
      case _ => SameDispatch(s, u);
    }
  }

  lemma SameDispatch(s: State, u: State)
    requires TakenInv(s) && DispatchInv(s) && TakenInv(u)
    requires u.taken == s.taken && u.inserted == s.inserted && u.dispatched == s.dispatched
    requires Undispatched(u.looper) == Undispatched(s.looper)
    ensures DispatchInv(u)
  {
  }

  lemma {:induction false} DispatchAfterInsert(s: State, u: State, m: Stamped)
    requires TakenInv(s) && DispatchInv(s) && TakenInv(u)
    requires u.taken == s.taken && u.inserted == s.inserted + [m] && u.dispatched == s.dispatched && u.looper == s.looper
    ensures DispatchInv(u)
  {
    ForHandlersGrows(s.inserted, [m], Handled(s));
  }

  lemma {:induction false} DispatchAfterTake(s: State, u: State, n: nat)
    requires TakenInv(s) && DispatchInv(s) && TakenInv(u) && Undispatched(s.looper) == [] && u.looper == Holding(n)
    requires u.taken == s.taken + [n] && u.inserted == s.inserted && u.dispatched == s.dispatched
    ensures DispatchInv(u)
  {
    assert Handled(u) == s.taken == Handled(s);
  }

  lemma {:induction false} DispatchAfterDispatch(s: State, u: State)
    requires TakenInv(s) && DispatchInv(s) && s.looper.ToDispatch? && u == Apply(s, Dispatch) && TakenInv(u)
    ensures DispatchInv(u)
  {
    var m := |s.taken| - 1;
    assert Handled(s) == s.taken[..m] && Handled(u) == s.taken && s.taken[m] == s.looper.number;
  }

  // ---------------------------------------------------------------- order of taking

  /** Nothing still listed came in before a message already taken and was due no later. */
  ghost predicate EarlyInv(s: State)
    requires Listed(s) && TakenInv(s)
  {
    forall i, j :: 0 <= i < |s.taken| && 0 <= j < |s.list| ==>
      !(s.list[j] < s.taken[i] && StampOf(s, s.list[j]) <= StampOf(s, s.taken[i]))
  }

  lemma {:induction false} EarlyKept(s: State, step: Step)
    requires ListInv(s) && TakenInv(s) && EarlyInv(s) && Enabled(s, step)
    requires ListInv(Apply(s, step)) && TakenInv(Apply(s, step))
    ensures EarlyInv(Apply(s, step))
  {
    hide FirstLater, FirstDue, StampsOf, InsertAt, Without;
    var u := Apply(s, step);
    match step {
      case Insert(p) =>
        var m := s.producers[p].m;
        EarlyAfterInsert(s, u, FirstLater(StampsOf(s), m.Stamp()), m);
      case Scan =>
        NextTakesHead(s);
        if !u.looper.Missed? {
          EarlyAfterTake(s, u);
        }
      case _ =>
        assert u.taken == s.taken && u.inserted == s.inserted && (u.list == s.list || u.list == []);
    }
  }

  lemma {:induction false} EarlyAfterInsert(s: State, u: State, k: nat, m: Stamped)
    requires Listed(s) && TakenInv(s) && EarlyInv(s) && Listed(u) && TakenInv(u) && k <= |s.list|
    requires u.list == InsertAt<nat>(s.list, k, |s.inserted|) && u.inserted == s.inserted + [m] && u.taken == s.taken
    ensures EarlyInv(u)
  {
    assert forall n :: 0 <= n < |s.inserted| ==> StampOf(u, n) == StampOf(s, n);
    forall i, j | 0 <= i < |u.taken| && 0 <= j < |u.list|
      ensures !(u.list[j] < u.taken[i] && StampOf(u, u.list[j]) <= StampOf(u, u.taken[i]))
    {
      if j != k {
        assert u.list[j] == s.list[if j < k then j else j - 1];
      }
    }
  }

  lemma {:induction false} EarlyAfterTake(s: State, u: State)
    requires ListInv(s) && TakenInv(s) && EarlyInv(s) && Listed(u) && TakenInv(u) && s.list != []
    requires u.list == s.list[1..] && u.inserted == s.inserted && u.taken == s.taken + [s.list[0]]
    ensures EarlyInv(u)
  {
    forall i, j | 0 <= i < |u.taken| && 0 <= j < |u.list|
      ensures !(u.list[j] < u.taken[i] && StampOf(u, u.list[j]) <= StampOf(u, u.taken[i]))
    {
      assert u.list[j] == s.list[j + 1];
      assert Precedes(s, s.list[0], s.list[j + 1]);
    }
  }

  // ---------------------------------------------------------------- when enqueues began

  ghost predicate PosterOf(s: State, p: nat, n: nat) {
    p in s.producers && (s.producers[p] == Inserted(n) || s.producers[p] == ToPost(n))
  }

  ghost predicate OriginInv(s: State) {
    && (forall n :: n in s.posted ==> n < |s.inserted|)
    && (forall n :: 0 <= n < |s.inserted| ==> Origin(s.inserted, s.clock, n))
    && (forall p :: p in s.producers && (s.producers[p].WantsLock? || s.producers[p].Locked?) ==>
          Sound(s, s.producers[p].m))
    && (forall p :: p in s.producers && (s.producers[p].Inserted? || s.producers[p].ToPost?) ==>
          s.producers[p].number < |s.inserted|)
  }

  /** What had finished when the enqueue of message n began was inserted before it and began no later. */
  ghost predicate Origin(inserted: seq<Stamped>, clock: nat, n: nat)
    requires n < |inserted|
  {
    var m := inserted[n];
    && m.began <= clock
    && (m.letter.stop ==> m.letter.delay == 0)
    && forall k :: k in m.before ==> k < n && inserted[k].began <= m.began
  }

  /** A stamped letter not yet inserted: what had finished when its enqueue began is in the list's history. */
  ghost predicate Sound(s: State, m: Stamped) {
    && m.began <= s.clock
    && (m.letter.stop ==> m.letter.delay == 0)
    && forall k :: k in m.before ==> k < |s.inserted| && s.inserted[k].began <= m.began
  }

  lemma {:induction false} OriginKept(s: State, step: Step)
    requires OriginInv(s) && Enabled(s, step)
    ensures OriginInv(Apply(s, step))
  {
    var u := Apply(s, step);
    if step.Insert? {
      assert Sound(s, s.producers[step.p].m);
      OriginAfterInsert(s, u, step.p, s.producers[step.p].m);
    } else {
      assert u.inserted == s.inserted && s.clock <= u.clock;
      forall n | 0 <= n < |u.inserted| ensures Origin(u.inserted, u.clock, n) {
        assert Origin(s.inserted, s.clock, n);
      }
      forall p | p in u.producers && (u.producers[p].WantsLock? || u.producers[p].Locked?)
        ensures Sound(u, u.producers[p].m)
      {
        if p in s.producers && (s.producers[p].WantsLock? || s.producers[p].Locked?) {
          assert Sound(s, s.producers[p].m);
        } else {
          assert forall k :: k in s.posted ==> Origin(s.inserted, s.clock, k);
        }
      }
    }
  }

  lemma {:induction false} OriginAfterInsert(s: State, u: State, p: nat, m: Stamped)
    requires OriginInv(s) && Sound(s, m) && u.posted == s.posted && u.clock == s.clock
    requires u.inserted == s.inserted + [m] && p in s.producers && u.producers == s.producers[p := Inserted(|s.inserted|)]
    ensures OriginInv(u)
  {
    forall n | 0 <= n < |u.inserted| ensures Origin(u.inserted, u.clock, n) {
      if n < |s.inserted| {
        assert Origin(s.inserted, s.clock, n);
      }
    }
    forall q | q in u.producers && (u.producers[q].WantsLock? || u.producers[q].Locked?)
      ensures Sound(u, u.producers[q].m)
    {
      assert Sound(s, s.producers[q].m);
    }
  }

  // ---------------------------------------------------------------- wake-ups

  /** Every message whose post has not happened has a producer about to post. */
  ghost predicate PosterInv(s: State) {
    forall n :: 0 <= n < |s.inserted| && n !in s.posted ==> exists p :: PosterOf(s, p, n)
  }

  lemma {:induction false} PosterKept(s: State, step: Step)
    requires PosterInv(s) && Enabled(s, step)
    ensures PosterInv(Apply(s, step))
  {
    hide FirstLater, FirstDue, StampsOf;
    var u := Apply(s, step);
    forall n | 0 <= n < |u.inserted| && n !in u.posted ensures exists p :: PosterOf(u, p, n) {
      if n == |s.inserted| {
        assert step.Insert? && PosterOf(u, step.p, n);
      } else {
        var p :| PosterOf(s, p, n);
        assert PosterOf(u, p, n);
      }
    }
  }

  ghost predicate Undelayed(s: State, n: nat)
    requires n < |s.inserted|
  {
    s.inserted[n].letter.delay == 0
  }

  /** An undelayed message that has a handler. */
  ghost predicate Owed(s: State, n: nat)
    requires n < |s.inserted|
  {
    Undelayed(s, n) && s.inserted[n].letter.target && !s.inserted[n].letter.stop
  }

  /** The time the looper sampled last, until it consumes a post. */
  function LastSample(c: Consumer): Option<nat> {
    if c.WantsList? || c.Scanning? || c.Missed? || c.AtWait? then Some(c.now) else None
  }

  /** A message that was posted but whose enqueue began after the last sample has its post still in the semaphore. */
  ghost predicate NewsInv(s: State) {
    LastSample(s.looper).Some? ==>
      forall n :: n in s.posted && n < |s.inserted| && s.inserted[n].began > LastSample(s.looper).value ==>
        s.semaphore > 0
  }

  /** After a scan that found nothing, a listed message that was posted has a post in the semaphore or was not due. */
  ghost predicate WakeInv(s: State)
    requires Listed(s)
  {
    s.looper.Missed? || s.looper.AtWait? ==>
      forall i :: 0 <= i < |s.list| && s.list[i] in s.posted ==> s.semaphore > 0 || StampOf(s, s.list[i]) > s.looper.now
  }

  lemma {:induction false} NewsKept(s: State, step: Step)
    requires OriginInv(s) && NewsInv(s) && Enabled(s, step)
    ensures NewsInv(Apply(s, step))
  {
    hide FirstLater, FirstDue, StampsOf, InsertAt, Without;
    match step {
      case Sample => assert forall n :: n in s.posted ==> Origin(s.inserted, s.clock, n);
      case _ =>
    }
  }

  lemma {:induction false} WakeKept(s: State, step: Step)
    requires ListInv(s) && OriginInv(s) && WakeInv(s) && Enabled(s, step) && ListInv(Apply(s, step))
    ensures WakeInv(Apply(s, step))
  {
    hide FirstLater, FirstDue, StampsOf, InsertAt, Without;
    var u := Apply(s, step);
    match step {
      case Insert(p) =>
        var m := s.producers[p].m;
        WakeAfterInsert(s, u, FirstLater(StampsOf(s), m.Stamp()), m);
      case Scan => NextTakesHead(s);
      case _ =>
    }
  }

  lemma {:induction false} WakeAfterInsert(s: State, u: State, k: nat, m: Stamped)
    requires Listed(s) && Listed(u) && OriginInv(s) && WakeInv(s) && k <= |s.list|
    requires u.list == InsertAt<nat>(s.list, k, |s.inserted|) && u.inserted == s.inserted + [m]
    requires u.looper == s.looper && u.semaphore == s.semaphore && u.posted == s.posted
    ensures WakeInv(u)
  {
    forall i | 0 <= i < |u.list| && u.list[i] in u.posted
      ensures exists j :: 0 <= j < |s.list| && s.list[j] == u.list[i]
    {
      assert i != k;
      assert u.list[i] == s.list[if i < k then i else i - 1];
    }
  }

  // ---------------------------------------------------------------- every reachable state

  ghost predicate Invariant(s: State) {
    && MutexInv(s) && ListInv(s) && ConservationInv(s) && TakenInv(s) && DispatchInv(s)
    && EarlyInv(s) && OriginInv(s) && PosterInv(s) && NewsInv(s) && WakeInv(s) && EndInv(s)
  }

  /** The looper leaves its loop only on a stop message. */
  ghost predicate EndInv(s: State)
    requires TakenInv(s)
  {
    s.looper.ToDestroy? || s.looper.Exited? ==> s.taken != [] && s.inserted[s.taken[|s.taken| - 1]].letter.stop
  }

  lemma {:induction false} EndKept(s: State, step: Step)
    requires TakenInv(s) && EndInv(s) && Enabled(s, step) && TakenInv(Apply(s, step))
    ensures EndInv(Apply(s, step))
  {
    hide FirstLater, FirstDue, StampsOf;
  }

  lemma {:induction false} Reachable(steps: seq<Step>)
    requires After(steps).Some?
    ensures Invariant(After(steps).value)
  {
    if steps == [] {
      assert StampsOf(Initial()) == [];
    } else {
      var n := |steps| - 1;
      Reachable(steps[..n]);
      InvariantKept(After(steps[..n]).value, steps[n]);
    }
  }

  lemma {:induction false} InvariantKept(s: State, step: Step)
    requires Invariant(s) && Enabled(s, step)
    ensures Invariant(Apply(s, step))
  {
    MutexKept(s, step);
    ListKept(s, step);
    TakenKept(s, step);
    hide Apply, Enabled;
    hide MutexInv, ListInv, ConservationInv, TakenInv, DispatchInv, EarlyInv, OriginInv, PosterInv, NewsInv, WakeInv, EndInv;
    ConservationKept(s, step);
    DispatchKept(s, step);
    EarlyKept(s, step);
    OriginKept(s, step);
    PosterKept(s, step);
    NewsKept(s, step);
    WakeKept(s, step);
    EndKept(s, step);
  }

  /** The list is always in the order of the times at which messages fall due, ties in the order of insertion. */
  lemma {:induction false} QueueAlwaysOrdered(steps: seq<Step>)
    requires After(steps).Some?
    ensures var s := After(steps).value;
            Listed(s) &&
            forall i, j :: 0 <= i < j < |s.list| ==>
              var a, b := s.inserted[s.list[i]], s.inserted[s.list[j]];
              || a.began + a.letter.delay < b.began + b.letter.delay
              || (a.began + a.letter.delay == b.began + b.letter.delay && s.list[i] < s.list[j])
  {
    Reachable(steps);
    var s := After(steps).value;
    assert forall i, j :: 0 <= i < j < |s.list| ==> Precedes(s, s.list[i], s.list[j]);
  }

  /**
    When the looper waits on a semaphore that is zero, a message in the list either has a producer
    that has yet to post, or was on its way at the last sample and not due then.
   */
  lemma {:induction false} BlockedMessages(steps: seq<Step>, n: nat)
    requires After(steps).Some?
    requires var s := After(steps).value;
             Blocked(s) && n in s.list && n < |s.inserted|
    ensures var s := After(steps).value;
            || (exists p :: PosterOf(s, p, n))
            || s.inserted[n].began <= s.looper.now < s.inserted[n].began + s.inserted[n].letter.delay
  {
    Reachable(steps);
    var s := After(steps).value;
    var i :| 0 <= i < |s.list| && s.list[i] == n;
  }

  /**
    No lost wake-up: when the looper waits on a semaphore that is zero, every undelayed
    message in the list has a producer that has yet to post.
   */
  lemma {:induction false} NoLostWakeUp(steps: seq<Step>, n: nat)
    requires After(steps).Some?
    requires var s := After(steps).value;
             Blocked(s) && n in s.list && n < |s.inserted| && Undelayed(s, n)
    ensures exists p :: PosterOf(After(steps).value, p, n)
  {
    BlockedMessages(steps, n);
  }

  /**
    When the looper waits on a semaphore that is zero and no enqueue is under way, every undelayed
    message with a target has been dispatched.
   */
  lemma {:induction false} IdleMeansDispatched(steps: seq<Step>, n: nat)
    requires After(steps).Some?
    requires var s := After(steps).value;
             Blocked(s) && s.producers == map[] && n < |s.inserted| && Owed(s, n)
    ensures n in After(steps).value.dispatched
  {
    Reachable(steps);
    var s := After(steps).value;
    AllBelowOnce(|s.inserted|, n);
    assert multiset(s.taken)[n] + multiset(s.list)[n] == 1;
    if n in s.list {
      NoLostWakeUp(steps, n);
    }
    assert n in s.taken && Handled(s) == s.taken;
    ForHandlersHas(s.inserted, s.taken, n);
  }

  /**
    A clean end: once the loop has exited, every undelayed message with a target whose
    enqueue had finished when that of the stop message began has been dispatched.
   */
  lemma {:induction false} DispatchedBeforeStop(steps: seq<Step>, n: nat)
    requires After(steps).Some?
    requires var s := After(steps).value;
             && s.looper.Exited? && s.taken != [] && s.taken[|s.taken| - 1] < |s.inserted|
             && n in s.inserted[s.taken[|s.taken| - 1]].before && n < |s.inserted| && Owed(s, n)
    ensures n in After(steps).value.dispatched
  {
    Reachable(steps);
    var s := After(steps).value;
    // the state in which the stop message had been recycled and the queue not yet destroyed
    BeforeDestroy(steps, n);
    assert Handled(s) == s.taken;
    ForHandlersHas(s.inserted, s.taken, n);
  }

  /** In a state that still has its list, the message has left it before the stop message did. */
  lemma {:induction false} GoneBeforeStop(s: State, n: nat)
    requires Invariant(s) && s.looper.ToDestroy?
    requires var stop := s.taken[|s.taken| - 1];
             n in s.inserted[stop].before && n < |s.inserted| && Undelayed(s, n)
    ensures n in s.taken
  {
    var stop := s.taken[|s.taken| - 1];
    assert Origin(s.inserted, s.clock, stop);
    assert n < stop && s.inserted[n].began <= s.inserted[stop].began;
    assert StampOf(s, n) <= StampOf(s, stop);
    AllBelowOnce(|s.inserted|, n);
    assert multiset(s.taken)[n] + multiset(s.list)[n] == 1;
    assert forall j :: 0 <= j < |s.list| ==> !(s.list[j] < s.taken[|s.taken| - 1]
                                             && StampOf(s, s.list[j]) <= StampOf(s, s.taken[|s.taken| - 1]));
    assert n !in s.list;
  }

  /** A run that has exited passed through the destruction of the queue; later steps take nothing. */
  lemma {:induction false} BeforeDestroy(steps: seq<Step>, n: nat)
    requires After(steps).Some? && After(steps).value.looper.Exited?
    requires var s := After(steps).value;
             && s.taken != [] && s.taken[|s.taken| - 1] < |s.inserted|
             && n in s.inserted[s.taken[|s.taken| - 1]].before && n < |s.inserted| && Undelayed(s, n)
    ensures n in After(steps).value.taken
  {
    hide Invariant, MutexInv, Enabled, Apply;
    var k := |steps| - 1;
    var s := After(steps[..k]).value;
    Reachable(steps[..k]);
    if steps[k].Destroy? {
      DestroyKeeps(s);
      GoneBeforeStop(s, n);
    } else {
      ExitedStays(s, steps[k]);
      BeforeDestroy(steps[..k], n);
    }
  }

  lemma DestroyKeeps(s: State)
    requires Enabled(s, Destroy)
    ensures s.looper.ToDestroy? && Apply(s, Destroy).taken == s.taken && Apply(s, Destroy).inserted == s.inserted
  {
  }

  lemma {:induction false} ExitedStays(s: State, step: Step)
    requires Invariant(s) && Enabled(s, step) && Apply(s, step).looper.Exited? && !step.Destroy?
    ensures s.looper.Exited? && Apply(s, step).taken == s.taken && Apply(s, step).inserted == s.inserted
  {
    hide ListInv, ConservationInv, TakenInv, DispatchInv, EarlyInv, OriginInv, PosterInv, NewsInv, WakeInv, EndInv;
    hide Apply, Enabled, MutexInv;
    StaysExited(s, step);
  }

  lemma {:induction false} StaysExited(s: State, step: Step)
    requires MutexInv(s) && Enabled(s, step) && Apply(s, step).looper.Exited? && !step.Destroy?
    ensures s.looper.Exited? && Apply(s, step).taken == s.taken && Apply(s, step).inserted == s.inserted
  {
    hide FirstLater, FirstDue, StampsOf;
  }

  /** Once the loop has exited every message ever inserted has been recycled, and only once. */
  lemma {:induction false} RecycledExactlyOnce(steps: seq<Step>)
    requires After(steps).Some?
    ensures var s := After(steps).value;
            && (forall n :: multiset(s.recycled)[n] <= 1)
            && (s.looper.Exited? ==> multiset(s.recycled) == AllBelow(|s.inserted|))
  {
    Reachable(steps);
    var s := After(steps).value;
    hide Invariant, MutexInv, ListInv, TakenInv, DispatchInv, EarlyInv, OriginInv, PosterInv, NewsInv, WakeInv, EndInv;
    RecycledOnce(s);
  }

  lemma {:induction false} AtMostOnce(r: multiset<nat>, h: multiset<nat>, a: multiset<nat>, l: multiset<nat>,
                                      b: multiset<nat>, n: nat)
    requires r + h == a + b && (a + l + b)[n] <= 1
    ensures r[n] <= 1
  {
    assert (a + l + b)[n] == a[n] + l[n] + b[n] && (a + b)[n] == a[n] + b[n] && (r + h)[n] == r[n] + h[n];
  }

  lemma {:induction false} RecycledOnce(s: State)
    requires ConservationInv(s)
    ensures forall n :: multiset(s.recycled)[n] <= 1
    ensures s.looper.Exited? ==> multiset(s.recycled) == AllBelow(|s.inserted|)
  {
    var r, h := multiset(s.recycled), multiset(InHand(s.looper));
    assert r + h == multiset(s.taken) + multiset(s.flushed) by {
      assert multiset(s.recycled + InHand(s.looper)) == multiset(s.taken + s.flushed);
    }
    forall n ensures r[n] <= 1 {
      AllBelowOnce(|s.inserted|, n);
      AtMostOnce(r, h, multiset(s.taken), multiset(s.list), multiset(s.flushed), n);
    }
    if s.looper.Exited? {
      var a, b := multiset(s.taken), multiset(s.flushed);
      assert r == r + h && multiset(s.list) == multiset{};
      assert a + multiset{} + b == a + b;
    }
  }

  /** Until the final flush a message is recycled only after its handler has had it. */
  lemma {:induction false} RecycledAfterDispatch(steps: seq<Step>, n: nat)
    requires After(steps).Some?
    requires var s := After(steps).value;
             n in s.recycled && n !in s.flushed && n < |s.inserted|
             && s.inserted[n].letter.target && !s.inserted[n].letter.stop
    ensures n in After(steps).value.dispatched
  {
    Reachable(steps);
    var s := After(steps).value;
    assert n in s.recycled + InHand(s.looper);
    assert n in s.taken;
    HandledBeforeRecycled(s, n);
    ForHandlersHas(s.inserted, Handled(s), n);
  }

  lemma {:induction false} HandledBeforeRecycled(s: State, n: nat)
    requires ConservationInv(s) && TakenInv(s) && n in s.recycled && n !in s.flushed
    ensures n in Handled(s)
  {
    if Undispatched(s.looper) != [] {
      assert s.recycled + [s.looper.number] == s.taken + [] == s.taken;
      assert Handled(s) == s.recycled;
    } else {
      assert n in s.recycled + InHand(s.looper);
    }
  }

  // ---------------------------------------------------------------- delayed messages

  /** The looper can take no step, whatever time passes, until another message is posted. */
  predicate Blocked(s: State) {
    s.looper.AtWait? && s.semaphore == 0
  }

  lemma {:induction false} AfterSnoc(steps: seq<Step>, s: State, step: Step)
    requires After(steps) == Some(s) && Enabled(s, step)
    ensures After(steps + [step]) == Some(Apply(s, step))
  {
    assert (steps + [step])[..|steps|] == steps;
  }

  /** The states of a run that sends a single message. */
  function OneSent(delay: nat, clock: nat, looper: Consumer, semaphore: nat, mutex: Mutex): State {
    State(clock, mutex, semaphore, [0], map[], looper, [Stamped(Letter(delay, false, true), 0, {})], {0}, [], [], [], [])
  }

  function SendSteps(delay: nat): seq<Step> {
    [Begin(0, Letter(delay, false, true)), Lock(0), Insert(0), Unlock(0), Post(0)]
  }

  lemma {:induction false} SendOne(delay: nat)
    ensures After(SendSteps(delay)) == Some(OneSent(delay, 0, AtSample, 1, Free))
  {
    var letter := Letter(delay, false, true);
    var m := Stamped(letter, 0, {});
    var s0 := Initial();
    var s1 := s0.(producers := map[0 := WantsLock(m)]);
    var s2 := s0.(producers := map[0 := Locked(m)], mutex := ByProducer(0));
    var s3 := s0.(producers := map[0 := Inserted(0)], mutex := ByProducer(0), list := [0], inserted := [m]);
    var s4 := s0.(producers := map[0 := ToPost(0)], list := [0], inserted := [m]);
    assert Apply(s0, Begin(0, letter)) == s1;
    assert Apply(s1, Lock(0)) == s2;
    assert Apply(s2, Insert(0)) == s3 by {
      assert StampsOf(s2) == [] && InsertAt<nat>([], 0, 0) == [0] && [] + [m] == [m];
    }
    assert Apply(s3, Unlock(0)) == s4;
    assert Apply(s4, Post(0)) == OneSent(delay, 0, AtSample, 1, Free);
    assert Enabled(s0, Begin(0, letter)) && Enabled(s1, Lock(0)) && Enabled(s2, Insert(0))
           && Enabled(s3, Unlock(0)) && Enabled(s4, Post(0));
    hide Apply, Enabled;
    AfterSnoc([], s0, Begin(0, letter));
    AfterSnoc([] + [Begin(0, letter)], s1, Lock(0));
    AfterSnoc([] + [Begin(0, letter)] + [Lock(0)], s2, Insert(0));
    AfterSnoc([] + [Begin(0, letter)] + [Lock(0)] + [Insert(0)], s3, Unlock(0));
    AfterSnoc([] + [Begin(0, letter)] + [Lock(0)] + [Insert(0)] + [Unlock(0)], s4, Post(0));
    assert SendSteps(delay) == [] + [Begin(0, letter)] + [Lock(0)] + [Insert(0)] + [Unlock(0)] + [Post(0)];
  }

  /** A look at the queue that finds the message not yet due. */
  lemma {:induction false} LookInVain(steps: seq<Step>, delay: nat, semaphore: nat)
    requires delay > 0 && After(steps) == Some(OneSent(delay, 0, AtSample, semaphore, Free))
    ensures After(steps + [Sample] + [LockList] + [Scan] + [UnlockList])
            == Some(OneSent(delay, 0, AtWait(0), semaphore, Free))
  {
    var s0 := OneSent(delay, 0, AtSample, semaphore, Free);
    var s1 := OneSent(delay, 0, WantsList(0), semaphore, Free);
    var s2 := OneSent(delay, 0, Scanning(0), semaphore, ByLooper);
    var s3 := OneSent(delay, 0, Missed(0), semaphore, ByLooper);
    assert Apply(s0, Sample) == s1 && Apply(s1, LockList) == s2;
    assert Apply(s2, Scan) == s3 by {
      assert StampsOf(s2) == [delay];
      assert FirstDue([delay], 0) == 1;
    }
    assert Apply(s3, UnlockList) == OneSent(delay, 0, AtWait(0), semaphore, Free);
    assert Enabled(s0, Sample) && Enabled(s1, LockList) && Enabled(s2, Scan) && Enabled(s3, UnlockList);
    hide Apply, Enabled;
    AfterSnoc(steps, s0, Sample);
    AfterSnoc(steps + [Sample], s1, LockList);
    AfterSnoc(steps + [Sample] + [LockList], s2, Scan);
    AfterSnoc(steps + [Sample] + [LockList] + [Scan], s3, UnlockList);
  }

  /**
    The restriction to undelayed messages is needed: every positive delay can strand a
    message. One message is sent, the looper uses up its post before it is due, and then it
    becomes due with the looper blocked and no producer left to post.
   */
  lemma {:induction false} DelayedMessageStranded(delay: nat) returns (steps: seq<Step>)
    requires delay > 0
    ensures After(steps).Some?
    ensures var s := After(steps).value;
            && Blocked(s) && s.producers == map[] && s.list == [0] && |s.inserted| == 1
            && s.inserted[0].letter == Letter(delay, false, true) && s.inserted[0].began + delay <= s.clock
  {
    SendOne(delay);
    LookInVain(SendSteps(delay), delay, 1);
    steps := SendSteps(delay) + [Sample] + [LockList] + [Scan] + [UnlockList];
    AfterSnoc(steps, OneSent(delay, 0, AtWait(0), 1, Free), Wait);
    steps := steps + [Wait];
    LookInVain(steps, delay, 0);
    steps := steps + [Sample] + [LockList] + [Scan] + [UnlockList];
    AfterSnoc(steps, OneSent(delay, 0, AtWait(0), 0, Free), Tick(delay));
    steps := steps + [Tick(delay)];
  }

  /** A blocked looper stays blocked, and its list keeps its messages, until a producer posts. */
  lemma {:induction false} BlockedUntilPost(s: State, step: Step)
    requires Blocked(s) && Enabled(s, step)
    ensures !step.Post? ==> Blocked(Apply(s, step))
    ensures Apply(s, step).taken == s.taken
  {
    hide FirstLater, FirstDue, StampsOf;
  }

  // ---------------------------------------------------------------- progress

  /** The steps that are not up to the queue: time, and new enqueues. */
  predicate FromOutside(step: Step) {
    step.Tick? || step.Begin?
  }

  /** How many steps a producer's enqueue can still cause, at most. */
  function Stage(p: Producer): nat {
    match p
    case WantsLock(_) => 20
    case Locked(_) => 19
    case Inserted(_) => 10
    case ToPost(_) => 9
  }

  function Rank(c: Consumer): nat {
    match c
    case AtSample => 6
    case WantsList(_) => 5
    case Scanning(_) => 4
    case Missed(_) => 2
    case AtWait(_) => 1
    case Holding(_) => 11
    case ToDispatch(_) => 10
    case ToRecycle(_) => 9
    case ToDestroy => 3
    case Exited => 0
  }

  ghost function Measure(s: State): nat {
    Total(s.producers, Stage) + 8 * s.semaphore + 8 * |s.list| + Rank(s.looper)
  }

  /** Every step of the queue uses up some of the work left. */
  lemma {:induction false} WorkShrinks(s: State, step: Step)
    requires ListInv(s) && Enabled(s, step) && !FromOutside(step)
    ensures Measure(Apply(s, step)) < Measure(s)
  {
    hide ListInv, FirstLater, FirstDue, StampsOf;
    var u := Apply(s, step);
    match step {
      case Lock(p) => TotalChange(s.producers, Stage, p, u.producers[p]);
      case Insert(p) => TotalChange(s.producers, Stage, p, u.producers[p]);
      case Unlock(p) => TotalChange(s.producers, Stage, p, u.producers[p]);
      case Post(p) => TotalSplit(s.producers, Stage, p);
      case Scan => NextTakesHead(s);
      case _ =>
    }
  }

  /** While the looper is not blocked, or an enqueue is under way, a step of the queue can be taken. */
  lemma {:induction false} NeverStuck(steps: seq<Step>) returns (step: Step)
    requires After(steps).Some?
    requires var s := After(steps).value;
             !s.looper.Exited? && (!Blocked(s) || s.producers != map[])
    ensures !FromOutside(step) && Enabled(After(steps).value, step)
  {
    Reachable(steps);
    var s := After(steps).value;
    step := NextStep(s);
  }

  lemma {:induction false} NextStep(s: State) returns (step: Step)
    requires Invariant(s) && !s.looper.Exited? && (!Blocked(s) || s.producers != map[])
    ensures !FromOutside(step) && Enabled(s, step)
  {
    hide EarlyInv, OriginInv, PosterInv, NewsInv, WakeInv, EndInv, DispatchInv, ConservationInv;
    if s.mutex.ByProducer? {
      var p := s.mutex.p;
      step := if s.producers[p].Locked? then Insert(p) else Unlock(p);
    } else if s.looper.AtWait? {
      if s.producers == map[] {
        step := Wait;
      } else {
        var p :| p in s.producers;
        step := if s.producers[p].WantsLock? then Lock(p) else Post(p);
      }
    } else {
      step := match s.looper
        case AtSample => Sample
        case WantsList(_) => LockList
        case Scanning(_) => Scan
        case ToDispatch(_) => Dispatch
        case ToRecycle(_) => Recycle
        case ToDestroy => Destroy
        case _ => UnlockList;
    }
  }

  /** A run of the queue's own steps and of time is no longer, time apart, than the work at its start. */
  lemma {:induction false} RunsOut(steps: seq<Step>, more: seq<Step>)
    requires After(steps + more).Some?
    requires forall i :: 0 <= i < |more| ==> !more[i].Begin?
    ensures After(steps).Some?
    ensures OwnSteps(more) + Measure(After(steps + more).value) <= Measure(After(steps).value)
  {
    hide Measure, Enabled, Apply;
    if more == [] {
      assert steps + more == steps;
    } else {
      var n := |more| - 1;
      assert (steps + more)[..|steps + more| - 1] == steps + more[..n];
      RunsOut(steps, more[..n]);
      var s := After(steps + more[..n]).value;
      Reachable(steps + more[..n]);
      if more[n].Tick? {
        TickIsFree(s, more[n]);
      } else {
        WorkShrinks(s, more[n]);
      }
    }
  }

  lemma TickIsFree(s: State, step: Step)
    requires step.Tick?
    ensures Enabled(s, step) && Measure(Apply(s, step)) == Measure(s)
  {
  }

  /** How many steps of the queue are among the steps. */
  function OwnSteps(steps: seq<Step>): nat {
    if steps == [] then 0 else OwnSteps(steps[..|steps| - 1]) + if FromOutside(steps[|steps| - 1]) then 0 else 1
  }

  /**
    Every undelayed message gets dispatched: from any reachable state, however the steps of the
    queue are scheduled and whatever time passes, they run out, and when they do the loop has
    exited or no undelayed message with a target is left undispatched.
   */
  lemma {:induction false} UndelayedGetDispatched(steps: seq<Step>, more: seq<Step>)
    requires After(steps + more).Some?
    requires forall i :: 0 <= i < |more| ==> !more[i].Begin?
    ensures After(steps).Some? && OwnSteps(more) <= Measure(After(steps).value)
    ensures var s := After(steps + more).value;
            || s.looper.Exited?
            || (forall n :: 0 <= n < |s.inserted| && Owed(s, n) ==> n in s.dispatched)
            || exists step :: Enabled(s, step) && !FromOutside(step)
  {
    RunsOut(steps, more);
    var s := After(steps + more).value;
    if !s.looper.Exited? {
      if Blocked(s) && s.producers == map[] {
        forall n | 0 <= n < |s.inserted| && Owed(s, n) ensures n in s.dispatched {
          IdleMeansDispatched(steps + more, n);
        }
      } else {
        var step := NeverStuck(steps + more);
      }
    }
  }
}
