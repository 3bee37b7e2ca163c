/**
  The power-state token of core/host/src/power_state_token.c with the reference count of
  utils/src/hdf_sref.c: a device is resumed by the first wake lock and suspended by the
  last release. Requests are serialized.
 */
module PowerToken {
  import opened Seqs

  const INT32_MAX := 0x7FFF_FFFF
  const MODE_MAX := 2   // HDF_POWER_MODE_MAX

  const SYS_CTRL := 0
  const DYNAMIC_CTRL := 1

  datatype Psm = Idle | Active | Inactive

  datatype Call = Resume | Suspend

  /** The fields of a token, which callbacks its listener has, and the callbacks made so far. */
  datatype Token = Token(mode: nat, psm: Psm, refs: int, resumes: bool, suspends: bool, calls: seq<Call>)

  /** OsalAtomicInc and OsalAtomicDec on 32 bits. */
  function Inc(n: int): int {
    if n == INT32_MAX then -INT32_MAX - 1 else n + 1
  }

  function Dec(n: int): int {
    if n == -INT32_MAX - 1 then INT32_MAX else n - 1
  }

  function OnFirstAcquire(t: Token): Token {
    if t.psm == Active then t
    else t.(psm := Active, calls := t.calls + if t.resumes then [Resume] else [])
  }

  function OnLastRelease(t: Token): Token {
    if t.psm != Active && t.psm != Idle then t
    else t.(psm := Inactive, calls := t.calls + if t.suspends then [Suspend] else [])
  }

  function Acquired(t: Token): Token {
    if t.mode != DYNAMIC_CTRL then t
    else
      var u := t.(refs := Inc(t.refs));
      if u.refs == 1 then OnFirstAcquire(u) else u
  }

  function Released(t: Token): Token {
    if t.mode != DYNAMIC_CTRL then t
    else if t.refs == 0 then OnLastRelease(t)
    else
      var u := t.(refs := Dec(t.refs));
      if u.refs == 0 then OnLastRelease(u) else u
  }

  function ModeSet(t: Token, mode: nat): Token {
    if mode > MODE_MAX then t else t.(mode := mode)
  }

  function NewToken(resumes: bool, suspends: bool): Token {
    Token(SYS_CTRL, Idle, 0, resumes, suspends, [])
  }

  class PowerStateToken {
    var mode: nat
    var psmState: Psm
    var refs: int
    const resumes: bool
    const suspends: bool
    var calls: seq<Call>

    ghost function Snapshot(): Token
      reads this
    {
      Token(mode, psmState, refs, resumes, suspends, calls)
    }

    constructor (resumes: bool, suspends: bool)
      ensures Snapshot() == NewToken(resumes, suspends)
    {
      this.resumes, this.suspends := resumes, suspends;
      mode, psmState, refs, calls := SYS_CTRL, Idle, 0, [];
    }

    /** PowerStateTokenOnFirstAcquire. */
    method FirstAcquire()
      modifies this
      ensures Snapshot() == OnFirstAcquire(old(Snapshot()))
    {
      if psmState == Active {
        return;
      }
      if psmState == Inactive || psmState == Idle {
        if resumes {
          calls := calls + [Resume];
        }
      }
      psmState := Active;
    }

    /** PowerStateTokenOnLastRelease. */
    method LastRelease()
      modifies this
      ensures Snapshot() == OnLastRelease(old(Snapshot()))
    {
      if psmState != Active && psmState != Idle {
        return;
      }
      if suspends {
        calls := calls + [Suspend];
      }
      psmState := Inactive;
    }

    /** PowerStateTokenAcquireWakeLock with HdfSRefAcquire. */
    method AcquireWakeLock()
      modifies this
      ensures Snapshot() == Acquired(old(Snapshot()))
    {
      if mode != DYNAMIC_CTRL {
        return;
      }
      refs := Inc(refs);
      var lockRef := refs;
      if lockRef == 1 {
        FirstAcquire();
      }
    }

    /** PowerStateTokenReleaseWakeLock with HdfSRefRelease. */
    method ReleaseWakeLock()
      modifies this
      ensures Snapshot() == Released(old(Snapshot()))
    {
      if mode != DYNAMIC_CTRL {
        return;
      }
      if refs == 0 {
        LastRelease();
      } else {
        refs := Dec(refs);
        var lockRef := refs;
        if lockRef == 0 {
          LastRelease();
        }
      }
    }

    /** HdfPmSetMode. */
    method SetMode(mode: nat)
      modifies this
      ensures Snapshot() == ModeSet(old(Snapshot()), mode)
    {
      if mode <= MODE_MAX {
        this.mode := mode;
      }
    }
  }

  /** PowerStateTokenNewInstance: a token needs memory for itself and for its reference listener. */
  method NewInstance(resumes: bool, suspends: bool, tokenMem: bool, listenerMem: bool) returns (t: PowerStateToken?)
    ensures t != null <==> tokenMem && listenerMem
    ensures t != null ==> fresh(t) && t.Snapshot() == NewToken(resumes, suspends)
  {
    if !tokenMem || !listenerMem {
      return null;
    }
    t := new PowerStateToken(resumes, suspends);
  }

  // ---------------------------------------------------------------- whole runs

  datatype Request = Acquire | Release | SetMode(mode: nat)

  function Handle(t: Token, r: Request): Token {
    match r
    case Acquire => Acquired(t)
    case Release => Released(t)
    case SetMode(m) => ModeSet(t, m)
  }

  function Run(t: Token, rs: seq<Request>): Token {
    if rs == [] then t else Handle(Run(t, rs[..|rs| - 1]), rs[|rs| - 1])
  }

  /** The mode in force after the requests. */
  function ModeAfter(rs: seq<Request>): nat {
    if rs == [] then SYS_CTRL
    else
      var last := rs[|rs| - 1];
      if last.SetMode? && last.mode <= MODE_MAX then last.mode else ModeAfter(rs[..|rs| - 1])
  }

  /** How many wake locks are held, counted without a limit: the specification of the count. */
  function Held(rs: seq<Request>): nat {
    if rs == [] then 0
    else
      var before, last := rs[..|rs| - 1], rs[|rs| - 1];
      if ModeAfter(before) != DYNAMIC_CTRL then Held(before)
      else if last.Acquire? then Held(before) + 1
      else if last.Release? && Held(before) > 0 then Held(before) - 1
      else Held(before)
  }

  /** At no point are more locks held than the 32-bit counter can count. */
  predicate Countable(rs: seq<Request>) {
    Held(rs) <= INT32_MAX && (rs == [] || Countable(rs[..|rs| - 1]))
  }

  predicate Alternates(calls: seq<Call>) {
    forall i :: 0 <= i < |calls| - 1 ==> calls[i] != calls[i + 1]
  }

  ghost predicate TokenInv(t: Token, rs: seq<Request>) {
    && t.mode == ModeAfter(rs) && t.refs == Held(rs)
    && (t.refs > 0 <==> t.psm == Active)
    && (t.resumes && t.suspends ==>
          && Alternates(t.calls)
          && match t.psm
             case Idle => t.calls == []
             case Active => t.calls != [] && t.calls[|t.calls| - 1] == Resume
             case Inactive => t.calls != [] && t.calls[|t.calls| - 1] == Suspend)
  }

  /**
    Over any run of requests the count is the number of locks held and never negative, it is
    positive exactly when the device is active, and resume and suspend callbacks alternate.
   */
  lemma {:induction false} TokenRun(resumes: bool, suspends: bool, rs: seq<Request>)
    requires Countable(rs)
    ensures TokenInv(Run(NewToken(resumes, suspends), rs), rs)
  {
    if rs != [] {
      TokenRun(resumes, suspends, rs[..|rs| - 1]);
      TokenStep(Run(NewToken(resumes, suspends), rs[..|rs| - 1]), rs);
    }
  }

  lemma {:induction false} TokenStep(t: Token, rs: seq<Request>)
    requires rs != [] && Countable(rs) && TokenInv(t, rs[..|rs| - 1])
    ensures TokenInv(Handle(t, rs[|rs| - 1]), rs)
  {
    hide Alternates;
    if t.resumes && t.suspends {
      if t.psm != Active {
        AlternatesSnoc(t.calls, Resume);
      }
      if t.psm != Inactive {
        AlternatesSnoc(t.calls, Suspend);
      }
    }
  }

  lemma {:induction false} AlternatesSnoc(calls: seq<Call>, c: Call)
    requires Alternates(calls)
    ensures calls == [] || calls[|calls| - 1] != c ==> Alternates(calls + [c])
  {
    var more := calls + [c];
    assert forall i :: 0 <= i < |calls| ==> more[i] == calls[i];
  }

  /** The bound is exact: the count equals the locks held throughout a run if and only if they fit 32 bits. */
  lemma {:induction false} CountExactlyWhenCountable(resumes: bool, suspends: bool, rs: seq<Request>)
    ensures Countable(rs) <==>
            forall n :: 0 <= n <= |rs| ==> Run(NewToken(resumes, suspends), rs[..n]).refs == Held(rs[..n])
  {
    var t := NewToken(resumes, suspends);
    if Countable(rs) {
      forall n | 0 <= n <= |rs| ensures Run(t, rs[..n]).refs == Held(rs[..n]) {
        CountablePrefix(rs, n);
        TokenRun(resumes, suspends, rs[..n]);
      }
    } else {
      var n := FirstUncountable(rs);
      var before := rs[..n - 1];
      TokenRun(resumes, suspends, before);
      assert rs[..n][..n - 1] == before;
      assert Run(t, rs[..n]).refs < 0;
    }
  }

  lemma {:induction false} CountablePrefix(rs: seq<Request>, n: nat)
    requires Countable(rs) && n <= |rs|
    ensures Countable(rs[..n])
  {
    if n == |rs| {
      assert rs[..n] == rs;
    } else {
      CountablePrefix(rs[..|rs| - 1], n);
      assert rs[..|rs| - 1][..n] == rs[..n];
    }
  }

  /** The shortest prefix that cannot be counted. */
  lemma {:induction false} FirstUncountable(rs: seq<Request>) returns (n: nat)
    requires !Countable(rs)
    ensures 0 < n <= |rs| && !Countable(rs[..n]) && Countable(rs[..n - 1]) && rs[..n][..n - 1] == rs[..n - 1]
  {
    var p := rs[..|rs| - 1];
    if Countable(p) {
      n := |rs|;
      assert rs[..n] == rs;
    } else {
      n := FirstUncountable(p);
      assert p[..n] == rs[..n] && p[..n - 1] == rs[..n - 1];
    }
  }

  // ---------------------------------------------------------------- states and callbacks, by the requests alone

  /** A lock was asked for or given back, if only in vain, while the token was under dynamic control. */
  predicate Touched(rs: seq<Request>) {
    if rs == [] then false
    else
      var before, last := rs[..|rs| - 1], rs[|rs| - 1];
      Touched(before) || (ModeAfter(before) == DYNAMIC_CTRL && !last.SetMode?)
  }

  /**
    The transitions of a run: the first lock taken resumes; the last one given back suspends, and so
    does a release without a lock on a token that was never touched.
   */
  function Transitions(rs: seq<Request>): seq<Call> {
    if rs == [] then []
    else
      var before, last := rs[..|rs| - 1], rs[|rs| - 1];
      Transitions(before)
      + if ModeAfter(before) != DYNAMIC_CTRL then []
        else match last
          case Acquire => if Held(before) == 0 then [Resume] else []
          case Release => if Held(before) == 1 || (Held(before) == 0 && !Touched(before)) then [Suspend] else []
          case SetMode(_) => []
  }

  /** A listener that has only one of the two callbacks gets only its calls. */
  function Listens(resumes: bool, suspends: bool): Call -> bool {
    (c: Call) => match c case Resume => resumes case Suspend => suspends
  }

  /** The power state and the callbacks made, after any countable run, whichever callbacks the listener has. */
  lemma {:induction false} CallsMade(resumes: bool, suspends: bool, rs: seq<Request>)
    requires Countable(rs)
    ensures var t := Run(NewToken(resumes, suspends), rs);
            && t.psm == (if Held(rs) > 0 then Active else if Touched(rs) then Inactive else Idle)
            && t.calls == Filter(Transitions(rs), Listens(resumes, suspends))
  {
    if rs != [] {
      var n := |rs| - 1;
      CallsMade(resumes, suspends, rs[..n]);
      TokenRun(resumes, suspends, rs[..n]);
      SameListener(resumes, suspends, rs[..n]);
      FilterSnoc(Transitions(rs[..n]), Resume, Listens(resumes, suspends));
      FilterSnoc(Transitions(rs[..n]), Suspend, Listens(resumes, suspends));
      CallsStep(Run(NewToken(resumes, suspends), rs[..n]), rs);
    }
  }

  lemma {:induction false} SameListener(resumes: bool, suspends: bool, rs: seq<Request>)
    ensures var t := Run(NewToken(resumes, suspends), rs);
            t.resumes == resumes && t.suspends == suspends
  {
    if rs != [] {
      SameListener(resumes, suspends, rs[..|rs| - 1]);
    }
  }

  lemma {:induction false} CallsStep(t: Token, rs: seq<Request>)
    requires rs != [] && Countable(rs) && TokenInv(t, rs[..|rs| - 1])
    requires var before, keep := rs[..|rs| - 1], Listens(t.resumes, t.suspends);
             && t.psm == (if Held(before) > 0 then Active else if Touched(before) then Inactive else Idle)
             && t.calls == Filter(Transitions(before), keep)
             && Filter(Transitions(before) + [Resume], keep) == t.calls + (if t.resumes then [Resume] else [])
             && Filter(Transitions(before) + [Suspend], keep) == t.calls + (if t.suspends then [Suspend] else [])
    ensures var u := Handle(t, rs[|rs| - 1]);
            && u.psm == (if Held(rs) > 0 then Active else if Touched(rs) then Inactive else Idle)
            && u.calls == Filter(Transitions(rs), Listens(t.resumes, t.suspends))
  {
    hide Filter, Alternates;
    assert Transitions(rs[..|rs| - 1]) + [] == Transitions(rs[..|rs| - 1]);
  }
}
