/** The NORMAL, non-robust mutex of pthread_mutex_*.c as interleaved atomic
    actions: an exchange word `lock_idx` (0 free, 1 held, -1 held and perhaps
    contended) and an auto-reset event. */
module Mutex {
  import opened Counting

  datatype PC =
    | Idle
    | Retry      // found the mutex taken, about to exchange -1
    | Sleep      // in WaitForSingleObject on the event
    | Held
    | Wake       // has released the mutex, about to set the event

  datatype Shared = Shared(lockIdx: int, event: bool)

  datatype State = State(mx: Shared, pc: seq<PC>)

  ghost predicate Init(s: State) {
    && s.mx == Shared(0, false)
    && forall t :: 0 <= t < |s.pc| ==> s.pc[t] == Idle
  }

  /** `pthread_mutex_lock`, and `pthread_mutex_timedlock` with its extra exit. */
  predicate LockStep(s: Shared, p: PC, s': Shared, p': PC) {
    match p
    case Idle =>
      s' == s.(lockIdx := 1) && p' == if s.lockIdx != 0 then Retry else Held
    case Retry =>
      s' == s.(lockIdx := -1) && p' == if s.lockIdx != 0 then Sleep else Held
    case Sleep =>
      || (s.event && s' == s.(event := false) && p' == Retry)
      || (s' == s && p' == Idle)                       // ETIMEDOUT
    case _ => false
  }

  /** `pthread_mutex_trylock`: one compare-exchange. */
  predicate TryStep(s: Shared, p: PC, s': Shared, p': PC) {
    p == Idle && if s.lockIdx == 0 then s' == s.(lockIdx := 1) && p' == Held else s' == s && p' == Idle
  }

  predicate UnlockStep(s: Shared, p: PC, s': Shared, p': PC) {
    match p
    case Held =>
      s' == s.(lockIdx := 0) && p' == if s.lockIdx < 0 then Wake else Idle
    case Wake =>
      s' == s.(event := true) && p' == Idle
    case _ => false
  }

  predicate ThreadStep(s: Shared, p: PC, s': Shared, p': PC) {
    LockStep(s, p, s', p') || TryStep(s, p, s', p') || UnlockStep(s, p, s', p')
  }

  ghost predicate Step(s: State, t: nat, s': State) {
    && t < |s.pc| == |s'.pc|
    && s'.pc == s.pc[t := s'.pc[t]]
    && ThreadStep(s.mx, s.pc[t], s'.mx, s'.pc[t])
  }

  ghost predicate Next(s: State, s': State) {
    exists t: nat :: Step(s, t, s')
  }

  ghost predicate NextAt(run: seq<State>, i: nat) {
    i + 1 < |run| && Next(run[i], run[i + 1])
  }

  ghost predicate IsRun(run: seq<State>) {
    |run| > 0 && Init(run[0]) && forall i: nat :: i < |run| - 1 ==> NextAt(run, i)
  }

  // ---- the invariant -------------------------------------------------------

  function Holding(p: PC): int { BoolToInt(p.Held?) }
  function Sleeping(p: PC): int { BoolToInt(p.Sleep?) }
  /** Threads that will wake a sleeper or mark the mutex contended. */
  function Rescuing(p: PC): int { BoolToInt(p.Wake? || p.Retry?) }

  predicate SharedInv(s: Shared, held: int, sleeping: int, rescuing: int) {
    && -1 <= s.lockIdx <= 1
    && held == BoolToInt(s.lockIdx != 0)
    && sleeping >= 0 && rescuing >= 0
    && (sleeping > 0 ==> s.lockIdx == -1 || s.event || rescuing > 0)
  }

  ghost predicate Inv(s: State) {
    SharedInv(s.mx, Sum(s.pc, Holding), Sum(s.pc, Sleeping), Sum(s.pc, Rescuing))
  }

  lemma ThreadKeepsInv(s: Shared, p: PC, s': Shared, p': PC, held: int, sleeping: int, rescuing: int)
    requires ThreadStep(s, p, s', p') && SharedInv(s, held, sleeping, rescuing)
    requires Holding(p) <= held && Sleeping(p) <= sleeping && Rescuing(p) <= rescuing
    ensures SharedInv(s', held - Holding(p) + Holding(p'), sleeping - Sleeping(p) + Sleeping(p'),
                      rescuing - Rescuing(p) + Rescuing(p'))
  {
  }

  lemma StepKeepsInv(s: State, t: nat, s': State)
    requires Inv(s) && Step(s, t, s')
    ensures Inv(s')
  {
    SumUpdate(s.pc, t, s'.pc[t], Holding);
    SumUpdate(s.pc, t, s'.pc[t], Sleeping);
    SumUpdate(s.pc, t, s'.pc[t], Rescuing);
    SumAtLeast(s.pc, t, Holding);
    SumAtLeast(s.pc, t, Sleeping);
    SumAtLeast(s.pc, t, Rescuing);
    ThreadKeepsInv(s.mx, s.pc[t], s'.mx, s'.pc[t],
                   Sum(s.pc, Holding), Sum(s.pc, Sleeping), Sum(s.pc, Rescuing));
  }

  lemma {:induction false} RunKeepsInv(run: seq<State>, i: nat)
    requires i < |run| && IsRun(run)
    ensures Inv(run[i])
  {
    if i == 0 {
      SumAllAt(run[0].pc, Idle, Holding);
      SumAllAt(run[0].pc, Idle, Sleeping);
      SumAllAt(run[0].pc, Idle, Rescuing);
    } else {
      RunKeepsInv(run, i - 1);
      assert NextAt(run, i - 1);
      var t: nat :| Step(run[i - 1], t, run[i]);
      StepKeepsInv(run[i - 1], t, run[i]);
    }
  }

  // ---- what holds in every run ---------------------------------------------

  /** `lock_idx` is nonzero exactly when a thread holds the mutex, and never do
      two.  In particular unlock by the holder never reports EPERM. */
  lemma HeldExactlyWhenNonZero(run: seq<State>, i: nat)
    requires i < |run| && IsRun(run)
    ensures run[i].mx.lockIdx != 0 <==> exists t :: 0 <= t < |run[i].pc| && run[i].pc[t].Held?
    ensures forall t, u :: 0 <= t < u < |run[i].pc| ==> !(run[i].pc[t].Held? && run[i].pc[u].Held?)
  {
    RunKeepsInv(run, i);
    var pc := run[i].pc;
    if run[i].mx.lockIdx != 0 {
      var t := SumWitness(pc, Holding);
      assert pc[t].Held?;
    }
    forall t | 0 <= t < |pc| && pc[t].Held? ensures run[i].mx.lockIdx != 0 {
      SumAtLeast(pc, t, Holding);
    }
    forall t, u | 0 <= t < u < |pc| ensures !(pc[t].Held? && pc[u].Held?) {
      SumPair(pc, t, u, Holding);
    }
  }

  /** No wakeup is lost: while some thread sleeps, the mutex is marked
      contended, or the event is set, or an awake thread is about to set the
      event or to exchange -1.  Contenders overwriting -1 with 1 do not break
      this.  In every case a thread that is not asleep, or the sleeper itself,
      can act. */
  lemma NoLostWakeup(run: seq<State>, i: nat, z: nat)
    requires i < |run| && IsRun(run) && z < |run[i].pc| && run[i].pc[z].Sleep?
    ensures || run[i].mx.lockIdx == -1
            || run[i].mx.event
            || exists t :: 0 <= t < |run[i].pc| && (run[i].pc[t].Wake? || run[i].pc[t].Retry?)
    ensures || run[i].mx.event
            || exists t :: 0 <= t < |run[i].pc| && (run[i].pc[t].Wake? || run[i].pc[t].Retry? || run[i].pc[t].Held?)
  {
    RunKeepsInv(run, i);
    var pc := run[i].pc;
    SumAtLeast(pc, z, Sleeping);
    if Sum(pc, Rescuing) > 0 {
      var t := SumWitness(pc, Rescuing);
      assert pc[t].Wake? || pc[t].Retry?;
    } else if run[i].mx.lockIdx == -1 {
      var t := SumWitness(pc, Holding);
      assert pc[t].Held?;
    }
  }

  // ---- what each call achieves ---------------------------------------------

  ghost predicate SomebodyHolds(s: State) {
    exists t :: 0 <= t < |s.pc| && s.pc[t].Held?
  }

  /** A try lock gets the mutex exactly when nobody holds it, and otherwise
      changes nothing. */
  lemma TrySucceedsExactlyWhenFree(run: seq<State>, i: nat, t: nat, s': Shared, p': PC)
    requires i < |run| && IsRun(run) && t < |run[i].pc| && TryStep(run[i].mx, run[i].pc[t], s', p')
    ensures p'.Held? <==> !SomebodyHolds(run[i])
    ensures !p'.Held? ==> s' == run[i].mx && p' == run[i].pc[t]
  {
    HeldExactlyWhenNonZero(run, i);
  }

  /** Each exchange of a lock call gets the mutex exactly when nobody holds it;
      the first failure leads to a second exchange, the next ones to sleep. */
  lemma LockSucceedsExactlyWhenFree(run: seq<State>, i: nat, t: nat, s': Shared, p': PC)
    requires i < |run| && IsRun(run) && t < |run[i].pc| && LockStep(run[i].mx, run[i].pc[t], s', p')
    requires run[i].pc[t].Idle? || run[i].pc[t].Retry?
    ensures p'.Held? <==> !SomebodyHolds(run[i])
    ensures !p'.Held? ==> p' == if run[i].pc[t].Idle? then Retry else Sleep
    ensures s'.lockIdx != 0
  {
    HeldExactlyWhenNonZero(run, i);
  }

  /** Only a sleeper without an event has to wait. */
  lemma CanAct(s: State, t: nat) returns (s': State)
    requires t < |s.pc| && (s.pc[t].Sleep? ==> s.mx.event)
    ensures Step(s, t, s') && (s.pc[t].Sleep? ==> s'.pc[t] == Retry)
  {
    var mx, p := s.mx, s.pc[t];
    match p {
      case Idle => mx, p := mx.(lockIdx := 1), if mx.lockIdx != 0 then Retry else Held;
      case Retry => mx, p := mx.(lockIdx := -1), if mx.lockIdx != 0 then Sleep else Held;
      case Sleep => mx, p := mx.(event := false), Retry;
      case Held => mx, p := mx.(lockIdx := 0), if mx.lockIdx < 0 then Wake else Idle;
      case Wake => mx, p := mx.(event := true), Idle;
    }
    s' := State(mx, s.pc[t := p]);
  }

  /** A sleeper may also time out, which leaves the mutex as it was, and a try
      lock may always be taken. */
  lemma CanGiveUp(s: State, t: nat) returns (timeout: State, try: State)
    requires t < |s.pc|
    ensures s.pc[t].Sleep? ==> Step(s, t, timeout) && timeout.mx == s.mx && timeout.pc[t] == Idle
    ensures s.pc[t].Idle? ==> Step(s, t, try) && TryStep(s.mx, s.pc[t], try.mx, try.pc[t])
  {
    timeout := State(s.mx, s.pc[t := Idle]);
    try := if s.mx.lockIdx == 0 then State(s.mx.(lockIdx := 1), s.pc[t := Held]) else s;
  }

  /** The mutex never wedges: while a thread sleeps, some thread, the sleeper
      included, can act without anybody arriving or timing out. */
  lemma NeverStuck(run: seq<State>, i: nat, z: nat) returns (t: nat, s': State)
    requires i < |run| && IsRun(run) && z < |run[i].pc| && run[i].pc[z].Sleep?
    ensures t < |run[i].pc| && !run[i].pc[t].Idle? && Step(run[i], t, s')
    ensures run[i].pc[t].Sleep? ==> s'.pc[t] == Retry
  {
    NoLostWakeup(run, i, z);
    if run[i].mx.event {
      t := z;
    } else {
      t :| t < |run[i].pc| && (run[i].pc[t].Wake? || run[i].pc[t].Retry? || run[i].pc[t].Held?);
    }
    s' := CanAct(run[i], t);
  }

  /** Without contention locking and unlocking leaves everything as it was: no
      event is set, and the mutex is free again. */
  lemma UncontendedRoundTrip(s: State, t: nat) returns (held: State)
    requires t < |s.pc| && s.pc[t].Idle? && s.mx.lockIdx == 0
    ensures Step(s, t, held) && held.pc[t].Held?
    ensures forall s' :: Step(held, t, s') ==> s' == s
    ensures forall mx :: LockStep(s.mx, Idle, mx, Held) || TryStep(s.mx, Idle, mx, Held) ==> mx == held.mx
  {
    held := State(s.mx.(lockIdx := 1), s.pc[t := Held]);
    assert held.pc[t := Idle] == s.pc;
  }

  /** Unlocking frees the mutex and wakes somebody exactly when it was marked
      contended; one event wakes one sleeper. */
  lemma UnlockOutcome(run: seq<State>, i: nat, t: nat, s': State)
    requires i < |run| && IsRun(run) && Step(run[i], t, s')
    ensures run[i].pc[t].Held? ==> s'.mx.lockIdx == 0 && !SomebodyHolds(s') && (s'.pc[t].Wake? <==> run[i].mx.lockIdx == -1)
    ensures run[i].pc[t].Sleep? && s'.pc[t].Retry? ==> run[i].mx.event && !s'.mx.event
    ensures run[i].pc[t].Wake? ==> s'.mx.event
  {
    HeldExactlyWhenNonZero(run, i);
    RunKeepsInv(run, i);
    forall u | 0 <= u < |s'.pc| && run[i].pc[t].Held? ensures !s'.pc[u].Held? {
      if u != t {
        SumPair(run[i].pc, t, u, Holding);
      }
    }
  }
}
