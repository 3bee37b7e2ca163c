/**
  Wake-lock requests sent through the power-management task queue
  (core/host/src/hdf_power_manager.c) while HdfPmSetMode changes modes directly: the queue
  serializes the requests, so every token ends in the state its requests give when taken in the
  order they were enqueued, each under the mode in force when its turn came. A request reads the
  mode once, at its start, so that a mode change during it is as good as one after it.
 */
module PowerManager {
  import opened Bytes
  import opened PowerToken
  import TQ = TaskQueue

  datatype PmType = PmAcquire | PmRelease | PmOther

  /** What changes tokens: struct HdfPmRequest, and a call of HdfPmSetMode. */
  datatype PmChange =
    | PmRequest(token: nat, pmType: PmType)
    | PmSetMode(token: nat, mode: nat)

  type World = map<nat, Token>

  type PmState = TQ.State<PmChange, World>

  /** What a change asks of its token. */
  function RequestOf(r: PmChange): Option<Request> {
    match r
    case PmRequest(_, PmAcquire) => Some(Acquire)
    case PmRequest(_, PmRelease) => Some(Release)
    case PmRequest(_, PmOther) => None
    case PmSetMode(_, mode) => Some(SetMode(mode))
  }

  /** Whether the token's callback for a request sends a request through the queue itself. */
  predicate CallsBack(t: Token, r: Request, reenters: Call -> bool) {
    Handle(t, r).calls != t.calls && reenters(Handle(t, r).calls[|Handle(t, r).calls| - 1])
  }

  /** PmTaskFunc, and HdfPmSetMode; `reenters` says which callbacks of which token send a request. */
  function PmTaskFunc(reenters: nat -> Call -> bool): (World, PmChange) -> Option<World> {
    (w: World, r: PmChange) =>
      if r.token !in w || RequestOf(r).None? then Some(w)
      else if CallsBack(w[r.token], RequestOf(r).value, reenters(r.token)) then None
      else Some(w[r.token := Handle(w[r.token], RequestOf(r).value)])
  }

  /** The requests and mode changes of one token among the changes, in order. */
  function RequestsOf(changes: seq<PmChange>, token: nat): seq<Request> {
    if changes == [] then []
    else
      var last := changes[|changes| - 1];
      RequestsOf(changes[..|changes| - 1], token)
      + if last.token == token && RequestOf(last).Some? then [RequestOf(last).value] else []
  }

  lemma {:induction false} RunSnoc(t: Token, rs: seq<Request>, r: Request)
    ensures Run(t, rs + [r]) == Handle(Run(t, rs), r)
  {
    assert (rs + [r])[..|rs|] == rs;
  }

  lemma {:induction false} RunConcat(t: Token, rs: seq<Request>, more: seq<Request>)
    ensures Run(t, rs + more) == Run(Run(t, rs), more)
  {
    if more == [] {
      assert rs + more == rs;
    } else {
      var n := |more| - 1;
      RunConcat(t, rs, more[..n]);
      assert rs + more == (rs + more[..n]) + [more[n]];
      RunSnoc(t, rs + more[..n], more[n]);
    }
  }

  /** Requests for other tokens do not matter: each token sees its own requests only. */
  lemma {:induction false} FoldByToken(w: World, changes: seq<PmChange>, reenters: nat -> Call -> bool, token: nat)
    requires TQ.Fold<PmChange, World>(w, changes, PmTaskFunc(reenters)).Some?
    ensures var f := TQ.Fold<PmChange, World>(w, changes, PmTaskFunc(reenters)).value;
            f.Keys == w.Keys && (token in w ==> f[token] == Run(w[token], RequestsOf(changes, token)))
  {
    if changes != [] {
      var n := |changes| - 1;
      FoldByToken(w, changes[..n], reenters, token);
      var last, rs := changes[n], RequestsOf(changes[..n], token);
      if token in w && last.token == token && RequestOf(last).Some? {
        RunSnoc(w[token], rs, RequestOf(last).value);
      } else {
        assert rs + [] == rs;
      }
    }
  }

  /** The state after the steps. */
  function Managed(w: World, steps: seq<TQ.Step<PmChange>>, reenters: nat -> Call -> bool): Option<PmState> {
    TQ.After<PmChange, World>(w, steps, PmTaskFunc(reenters))
  }

  /** Nothing but new requests and mode changes can happen. */
  ghost predicate Quiet(s: PmState, reenters: nat -> Call -> bool) {
    forall step :: TQ.Enabled<PmChange, World>(s, step, PmTaskFunc(reenters)) ==> TQ.FromOutside(step)
  }

  /**
    At every moment of every run, a token that had handled `history` before is in the state that
    this history gives followed by its executed requests, in enqueue order, and its mode changes,
    each where it occurred; as long as the locks can be counted, its count, power state and
    callbacks are consistent.
   */
  lemma {:induction false} PmRequestsFolded(w: World, steps: seq<TQ.Step<PmChange>>, reenters: nat -> Call -> bool,
                                            token: nat, resumes: bool, suspends: bool, history: seq<Request>)
    requires Managed(w, steps, reenters).Some?
    requires token in w && w[token] == Run(NewToken(resumes, suspends), history)
    ensures var s := Managed(w, steps, reenters).value;
            var all := history + RequestsOf(TQ.ChangesOf(s.acts), token);
            && TQ.TasksOf(s.acts) + TQ.InHand(s.worker) + s.queue == s.inserted
            && token in s.world && s.world[token] == Run(NewToken(resumes, suspends), all)
            && (Countable(all) ==> TokenInv(s.world[token], all))
  {
    TQ.WorldIsFold<PmChange, World>(w, steps, PmTaskFunc(reenters));
    TQ.TasksInOrderOnce<PmChange, World>(w, steps, PmTaskFunc(reenters));
    var s := Managed(w, steps, reenters).value;
    FoldByToken(w, TQ.ChangesOf(s.acts), reenters, token);
    var rs := RequestsOf(TQ.ChangesOf(s.acts), token);
    RunConcat(NewToken(resumes, suspends), history, rs);
    if Countable(history + rs) {
      TokenRun(resumes, suspends, history + rs);
    }
  }

  // What the executed changes mean for a token, read off their types.

  /** The mode in force: the last one set that exists. */
  function PmMode(mode: nat, changes: seq<PmChange>, token: nat): nat {
    if changes == [] then mode
    else
      var last := changes[|changes| - 1];
      if last.PmSetMode? && last.token == token && last.mode <= 2 then last.mode
      else PmMode(mode, changes[..|changes| - 1], token)
  }

  /** The wake locks held: under dynamic control an acquire adds one, a release gives one back if there is one. */
  function PmHeld(mode: nat, held: nat, changes: seq<PmChange>, token: nat): nat {
    if changes == [] then held
    else
      var before, last := changes[..|changes| - 1], changes[|changes| - 1];
      var h := PmHeld(mode, held, before, token);
      if !last.PmRequest? || last.token != token || PmMode(mode, before, token) != 1 then h
      else match last.pmType
        case PmAcquire => h + 1
        case PmRelease => if h > 0 then h - 1 else 0
        case PmOther => h
  }

  predicate PmCountable(mode: nat, held: nat, changes: seq<PmChange>, token: nat) {
    PmHeld(mode, held, changes, token) <= INT32_MAX
    && (changes == [] || PmCountable(mode, held, changes[..|changes| - 1], token))
  }

  lemma {:induction false} PmIsHeld(history: seq<Request>, changes: seq<PmChange>, token: nat)
    requires Countable(history) && PmCountable(ModeAfter(history), Held(history), changes, token)
    ensures var all := history + RequestsOf(changes, token);
            && ModeAfter(all) == PmMode(ModeAfter(history), changes, token)
            && Held(all) == PmHeld(ModeAfter(history), Held(history), changes, token)
            && Countable(all)
  {
    hide Held, ModeAfter, Countable;
    if changes == [] {
      assert history + [] == history;
    } else {
      var n := |changes| - 1;
      PmIsHeld(history, changes[..n], token);
      var before, last := history + RequestsOf(changes[..n], token), changes[n];
      var all := history + RequestsOf(changes, token);
      if last.token == token && RequestOf(last).Some? {
        assert all == before + [RequestOf(last).value];
        OneMoreRequest(before, RequestOf(last).value);
      } else {
        assert all == before;
      }
    }
  }

  lemma {:induction false} OneMoreRequest(rs: seq<Request>, r: Request)
    ensures ModeAfter(rs + [r]) == if r.SetMode? && r.mode <= MODE_MAX then r.mode else ModeAfter(rs)
    ensures Held(rs + [r]) == if ModeAfter(rs) != DYNAMIC_CTRL then Held(rs)
                              else match r
                                case Acquire => Held(rs) + 1
                                case Release => if Held(rs) > 0 then Held(rs) - 1 else 0
                                case SetMode(_) => Held(rs)
    ensures Countable(rs + [r]) <==> Countable(rs) && Held(rs + [r]) <= INT32_MAX
  {
    assert (rs + [r])[..|rs|] == rs;
  }

  /**
    At every moment of every run, as long as the locks can be counted: over the requests executed
    so far a token counts up by one on each acquire and down by one on each release with a lock
    held, while under dynamic control, and it is active if and only if the count is positive.
   */
  lemma {:induction false} PmCounts(w: World, steps: seq<TQ.Step<PmChange>>, reenters: nat -> Call -> bool,
                                    token: nat, resumes: bool, suspends: bool, history: seq<Request>)
    requires Managed(w, steps, reenters).Some?
    requires token in w && w[token] == Run(NewToken(resumes, suspends), history) && Countable(history)
    requires PmCountable(w[token].mode, Held(history), TQ.ChangesOf(Managed(w, steps, reenters).value.acts), token)
    ensures var s := Managed(w, steps, reenters).value;
            var changes := TQ.ChangesOf(s.acts);
            && TQ.TasksOf(s.acts) == s.executed && TQ.TasksOf(s.acts) <= s.inserted && token in s.world
            && s.world[token].mode == PmMode(w[token].mode, changes, token)
            && s.world[token].refs == PmHeld(w[token].mode, Held(history), changes, token)
            && (s.world[token].psm == Active <==> PmHeld(w[token].mode, Held(history), changes, token) > 0)
  {
    var s := Managed(w, steps, reenters).value;
    TokenRun(resumes, suspends, history);
    PmIsHeld(history, TQ.ChangesOf(s.acts), token);
    PmRequestsFolded(w, steps, reenters, token, resumes, suspends, history);
    TQ.WorldIsFold<PmChange, World>(w, steps, PmTaskFunc(reenters));
  }

  /**
    Once nothing but new requests and mode changes can happen, all requests have been executed if
    and only if the worker does not hang and its thread did not fail to start; and it hangs only in
    a request whose callback sends a request through the queue.
   */
  lemma {:induction false} PmRequestsDone(w: World, steps: seq<TQ.Step<PmChange>>, reenters: nat -> Call -> bool)
    requires Managed(w, steps, reenters).Some? && Quiet(Managed(w, steps, reenters).value, reenters)
    ensures var s := Managed(w, steps, reenters).value;
            && (TQ.TasksOf(s.acts) == s.inserted <==> !s.worker.Hung? && !s.worker.Failed?)
            && (s.worker.Hung? ==> exists call :: reenters(s.worker.task.token)(call))
  {
    TQ.QuietMeansDone<PmChange, World>(w, steps, PmTaskFunc(reenters));
    TQ.WorldIsFold<PmChange, World>(w, steps, PmTaskFunc(reenters));
    TQ.Reachable<PmChange, World>(w, steps, PmTaskFunc(reenters));
    var s := Managed(w, steps, reenters).value;
    if s.worker.Hung? {
      var v :| PmTaskFunc(reenters)(v, s.worker.task).None?;
      HangsInCallback(v, s.worker.task, reenters);
    }
  }

  /** The n-th request, in the state that those before it give, has a callback that sends a request. */
  predicate CallsBackAt(w: World, requests: seq<PmChange>, reenters: nat -> Call -> bool, n: nat)
    requires n < |requests|
  {
    var r := requests[n];
    && r.token in w && RequestOf(r).Some?
    && CallsBack(Run(w[r.token], RequestsOf(requests[..n], r.token)), RequestOf(r).value, reenters(r.token))
  }

  lemma {:induction false} FoldEnds(w: World, requests: seq<PmChange>, reenters: nat -> Call -> bool)
    ensures TQ.Fold<PmChange, World>(w, requests, PmTaskFunc(reenters)).Some?
            <==> forall n :: 0 <= n < |requests| ==> !CallsBackAt(w, requests, reenters, n)
  {
    if requests != [] {
      var k := |requests| - 1;
      FoldEnds(w, requests[..k], reenters);
      forall n | 0 <= n < k ensures CallsBackAt(w, requests, reenters, n) <==> CallsBackAt(w, requests[..k], reenters, n) {
        assert requests[..k][..n] == requests[..n];
      }
      var before := TQ.Fold<PmChange, World>(w, requests[..k], PmTaskFunc(reenters));
      if before.Some? {
        FoldByToken(w, requests[..k], reenters, requests[k].token);
        assert PmTaskFunc(reenters)(before.value, requests[k]).None? <==> CallsBackAt(w, requests, reenters, k);
      }
    }
  }

  /**
    Without mode changes meanwhile the condition is exact: all requests are executed if and only if
    the thread did not fail to start and no request, in the state that those before it give, has a
    callback that sends a request through the queue.
   */
  lemma {:induction false} PmRequestsDoneWhen(w: World, steps: seq<TQ.Step<PmChange>>, reenters: nat -> Call -> bool)
    requires Managed(w, steps, reenters).Some? && Quiet(Managed(w, steps, reenters).value, reenters)
    requires forall i :: 0 <= i < |steps| ==> !steps[i].Change?
    ensures var s := Managed(w, steps, reenters).value;
            s.executed == s.inserted <==>
              !s.worker.Failed? && forall n :: 0 <= n < |s.inserted| ==> !CallsBackAt(w, s.inserted, reenters, n)
  {
    TQ.DoneExactlyWhenTasksEnd<PmChange, World>(w, steps, PmTaskFunc(reenters));
    FoldEnds(w, Managed(w, steps, reenters).value.inserted, reenters);
  }

  /**
    When a request makes the worker hang, by its type: an acquire of a token without locks whose
    resume callback sends a request, or a release of the last lock, or of none on a token never touched,
    whose suspend callback does; both under dynamic control only. Setting a mode never does.
   */
  lemma {:induction false} HangsWhen(w: World, r: PmChange, reenters: nat -> Call -> bool, resumes: bool, suspends: bool,
                                     history: seq<Request>)
    requires r.token in w && w[r.token] == Run(NewToken(resumes, suspends), history) && Countable(history)
    requires Held(history) < INT32_MAX
    ensures PmTaskFunc(reenters)(w, r).None? <==>
            && r.PmRequest? && ModeAfter(history) == 1
            && match r.pmType
               case PmAcquire => Held(history) == 0 && resumes && reenters(r.token)(Resume)
               case PmRelease =>
                 (Held(history) == 1 || (Held(history) == 0 && !Touched(history))) && suspends && reenters(r.token)(Suspend)
               case PmOther => false
  {
    TokenRun(resumes, suspends, history);
    CallsMade(resumes, suspends, history);
    SameListener(resumes, suspends, history);
  }

  lemma {:induction false} HangsInCallback(w: World, r: PmChange, reenters: nat -> Call -> bool)
    requires PmTaskFunc(reenters)(w, r).None?
    ensures exists call :: reenters(r.token)(call)
  {
    var t := Handle(w[r.token], RequestOf(r).value);
    assert reenters(r.token)(t.calls[|t.calls| - 1]);
  }
}
