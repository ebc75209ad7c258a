/** The condition variable of pthread_cond_wait.c and pthread_cond_signal.c
    (Terekhov and Thomas, Algorithm 9), as the interleaving of the atomic
    actions of any number of threads.

    `semBlockLock` is the gate, `semBlockQueue` holds the wake-up permits and
    `mtxUnblockLock` is a plain lock.  A wait may end by a permit, a timeout or
    a cancellation; the last two are the same step here.  The caller's own
    mutex is not modelled, which only adds interleavings. */
module CondVar {
  import opened Counting

  const GONE_LIMIT := 0x3fff_ffff     // INT_MAX / 2

  /** Where a thread stands.  "Registered" threads have raised
      `nWaitersBlocked` and have not yet run the critical section of their
      cleanup handler. */
  datatype PC =
    | Idle
    // ptw32_cond_timedwait
    | RegisterRead                      // holds the gate
    | RegisterWrite(tmp: int)           // holds the gate, has read nWaitersBlocked
    | RegisterPost                      // holds the gate, registered
    | Waiting
    | Woken(permit: bool)
    // ptw32_cond_wait_cleanup
    | Cleanup(permit: bool)             // holds the unblock lock
    | GoneWait                          // holds the unblock lock, wants the gate
    | GoneAdjust                        // holds both
    | GonePost(settled: int)            // holds both, nWaitersBlocked already lowered
    | GoneReset(settled: int)           // holds the unblock lock
    | CleanupUnlock(wasLeft: int)       // holds the unblock lock
    | CleanupOpen(wasLeft: int)
    // ptw32_cond_unblock
    | Unblock(all: bool)                // holds the unblock lock
    | UnblockWait(all: bool)            // holds the unblock lock, wants the gate
    | UnblockMove(all: bool)            // holds both
    | UnblockUnlock(issue: int)         // holds the unblock lock
    | UnblockPost(issue: int)
    | UnblockNothing                    // holds the unblock lock, nobody to wake

  datatype Shared = Shared(
    blocked: int,      // nWaitersBlocked
    gone: int,         // nWaitersGone
    toUnblock: int,    // nWaitersToUnblock
    gate: int,         // semBlockLock
    queue: int,        // semBlockQueue
    locked: bool)      // mtxUnblockLock

  datatype State = State(cv: Shared, pc: seq<PC>)

  ghost predicate Init(s: State) {
    && s.cv == Shared(0, 0, 0, 1, 0, false)
    && forall t :: 0 <= t < |s.pc| ==> s.pc[t] == Idle
  }

  // ---- the atomic actions --------------------------------------------------

  /** Inside `ptw32_cond_timedwait`.  The increment of `nWaitersBlocked` is a
      read and a write. */
  predicate WaitStep(s: Shared, p: PC, s': Shared, p': PC) {
    match p
    case Idle =>
      s.gate > 0 && s' == s.(gate := s.gate - 1) && p' == RegisterRead
    case RegisterRead =>
      s' == s && p' == RegisterWrite(s.blocked)
    case RegisterWrite(tmp) =>
      s' == s.(blocked := tmp + 1) && p' == RegisterPost
    case RegisterPost =>
      s' == s.(gate := s.gate + 1) && p' == Waiting
    case Waiting =>
      || (s.queue > 0 && s' == s.(queue := s.queue - 1) && p' == Woken(true))
      || (s' == s && p' == Woken(false))
    case _ => false
  }

  /** Inside the cleanup handler that ends every wait. */
  predicate CleanupStep(s: Shared, p: PC, s': Shared, p': PC) {
    match p
    case Woken(permit) =>
      !s.locked && s' == s.(locked := true) && p' == Cleanup(permit)
    case Cleanup(_) =>
      if s.toUnblock != 0 then
        s' == s.(toUnblock := s.toUnblock - 1) && p' == CleanupUnlock(s.toUnblock)
      else
        s' == s.(gone := s.gone + 1) && p' == if s.gone + 1 == GONE_LIMIT then GoneWait else CleanupUnlock(0)
    case GoneWait =>
      s.gate > 0 && s' == s.(gate := s.gate - 1) && p' == GoneAdjust
    case GoneAdjust =>
      s' == s.(blocked := s.blocked - s.gone) && p' == GonePost(s.gone)
    case GonePost(settled) =>
      s' == s.(gate := s.gate + 1) && p' == GoneReset(settled)
    case GoneReset(_) =>
      s' == s.(gone := 0) && p' == CleanupUnlock(0)
    case CleanupUnlock(wasLeft) =>
      s' == s.(locked := false) && p' == CleanupOpen(wasLeft)
    case CleanupOpen(wasLeft) =>
      s' == s.(gate := if wasLeft == 1 then s.gate + 1 else s.gate) && p' == Idle
    case _ => false
  }

  /** Inside `ptw32_cond_unblock`; `all` tells broadcast from signal. */
  predicate UnblockStep(s: Shared, p: PC, s': Shared, p': PC) {
    match p
    case Idle =>
      !s.locked && s' == s.(locked := true) && (p' == Unblock(true) || p' == Unblock(false))
    case Unblock(all) =>
      if s.toUnblock != 0 then
        if s.blocked == 0 then
          s' == s && p' == UnblockNothing
        else if all then
          s' == s.(toUnblock := s.toUnblock + s.blocked, blocked := 0) && p' == UnblockUnlock(s.blocked)
        else
          s' == s.(toUnblock := s.toUnblock + 1, blocked := s.blocked - 1) && p' == UnblockUnlock(1)
      else
        s' == s && p' == if s.blocked > s.gone then UnblockWait(all) else UnblockNothing
    case UnblockWait(all) =>
      s.gate > 0 && s' == s.(gate := s.gate - 1) && p' == UnblockMove(all)
    case UnblockMove(all) =>
      var b := if s.gone != 0 then s.blocked - s.gone else s.blocked;
      if all then
        s' == s.(gone := 0, toUnblock := b, blocked := 0) && p' == UnblockUnlock(b)
      else
        s' == s.(gone := 0, toUnblock := 1, blocked := b - 1) && p' == UnblockUnlock(1)
    case UnblockUnlock(issue) =>
      s' == s.(locked := false) && p' == UnblockPost(issue)
    case UnblockPost(issue) =>
      s' == s.(queue := s.queue + issue) && p' == Idle
    case UnblockNothing =>
      s' == s.(locked := false) && p' == Idle
    case _ => false
  }

  predicate ThreadStep(s: Shared, p: PC, s': Shared, p': PC) {
    WaitStep(s, p, s', p') || CleanupStep(s, p, s', p') || UnblockStep(s, p, s', p')
  }

  /** Thread `t` takes one atomic action; nobody else moves. */
  ghost predicate Step(s: State, t: nat, s': State) {
    && t < |s.pc| == |s'.pc|
    && s'.pc == s.pc[t := s'.pc[t]]
    && ThreadStep(s.cv, s.pc[t], s'.cv, s'.pc[t])
  }

  ghost predicate Next(s: State, s': State) {
    exists t: nat :: Step(s, t, s')
  }

  ghost predicate NextAt(run: seq<State>, i: nat) {
    i + 1 < |run| && Next(run[i], run[i + 1])
  }

  /** Every interleaving: each state follows from the one before by a step of
      some thread. */
  ghost predicate IsRun(run: seq<State>) {
    |run| > 0 && Init(run[0]) && forall i: nat :: i < |run| - 1 ==> NextAt(run, i)
  }

  // ---- weights -------------------------------------------------------------

  /** How many threads, or permits, stand where. */
  datatype Totals = Totals(
    lock: int,          // holders of the unblock lock
    gate: int,          // holders of the gate: registering, adjusting, or opening a round
    opening: int,       // threads that ended a round and still have to open the gate
    registered: int,    // threads in nWaitersBlocked and not yet cleaned up
    settled: int,       // gone waiters already subtracted from nWaitersBlocked but still in nWaitersGone
    pending: int,       // permits decided on but not yet posted
    taken: int)         // permits held by threads that have not cleaned up

  const NONE := Totals(0, 0, 0, 0, 0, 0, 0)

  function Weights(p: PC): Totals {
    match p
    case Idle => NONE
    case RegisterRead => NONE.(gate := 1)
    case RegisterWrite(_) => NONE.(gate := 1)
    case RegisterPost => NONE.(gate := 1, registered := 1)
    case Waiting => NONE.(registered := 1)
    case Woken(permit) => NONE.(registered := 1, taken := BoolToInt(permit))
    case Cleanup(permit) => NONE.(lock := 1, registered := 1, taken := BoolToInt(permit))
    case GoneWait => NONE.(lock := 1)
    case GoneAdjust => NONE.(lock := 1, gate := 1)
    case GonePost(settled) => NONE.(lock := 1, gate := 1, settled := settled)
    case GoneReset(settled) => NONE.(lock := 1, settled := settled)
    case CleanupUnlock(wasLeft) => NONE.(lock := 1, opening := BoolToInt(wasLeft == 1))
    case CleanupOpen(wasLeft) => NONE.(opening := BoolToInt(wasLeft == 1))
    case Unblock(_) => NONE.(lock := 1)
    case UnblockWait(_) => NONE.(lock := 1)
    case UnblockMove(_) => NONE.(lock := 1, gate := 1)
    case UnblockUnlock(issue) => NONE.(lock := 1, pending := if issue > 0 then issue else 0)
    case UnblockPost(issue) => NONE.(pending := if issue > 0 then issue else 0)
    case UnblockNothing => NONE.(lock := 1)
  }

  function HoldsLock(p: PC): int { Weights(p).lock }
  function HoldsGate(p: PC): int { Weights(p).gate }
  function WillOpen(p: PC): int { Weights(p).opening }
  function Registered(p: PC): int { Weights(p).registered }
  function Settled(p: PC): int { Weights(p).settled }
  function Pending(p: PC): int { Weights(p).pending }
  function Taken(p: PC): int { Weights(p).taken }

  function Tally(pc: seq<PC>): Totals {
    Totals(Sum(pc, HoldsLock), Sum(pc, HoldsGate), Sum(pc, WillOpen), Sum(pc, Registered),
           Sum(pc, Settled), Sum(pc, Pending), Sum(pc, Taken))
  }

  predicate IsRegistered(p: PC) {
    Weights(p).registered > 0
  }

  /** `c'` is `c` with one thread's contribution `w` replaced by `w'`. */
  predicate Shifted(c: Totals, w: Totals, w': Totals, c': Totals) {
    c' == Totals(c.lock - w.lock + w'.lock, c.gate - w.gate + w'.gate, c.opening - w.opening + w'.opening,
                 c.registered - w.registered + w'.registered, c.settled - w.settled + w'.settled,
                 c.pending - w.pending + w'.pending, c.taken - w.taken + w'.taken)
  }

  predicate Covers(c: Totals, w: Totals) {
    && w.lock <= c.lock && w.gate <= c.gate && w.opening <= c.opening
    && w.registered <= c.registered && w.pending <= c.pending && w.taken <= c.taken
  }

  // ---- the invariant -------------------------------------------------------

  predicate LocalInv(s: Shared, p: PC) {
    match p
    case RegisterWrite(tmp) => tmp == s.blocked
    case GoneWait => s.toUnblock == 0
    case GoneAdjust => s.toUnblock == 0
    case GonePost(settled) => s.toUnblock == 0 && settled == s.gone
    case GoneReset(settled) => s.toUnblock == 0 && settled == s.gone
    case UnblockWait(_) => s.toUnblock == 0 && s.blocked > s.gone
    case UnblockMove(_) => s.toUnblock == 0 && s.blocked > s.gone
    case UnblockUnlock(issue) => issue > 0
    case UnblockPost(issue) => issue > 0
    case _ => true
  }

  /** The single gate token is in exactly one place: the semaphore, a thread
      that holds it, an open round, or a thread about to open the gate. */
  predicate GateToken(s: Shared, c: Totals) {
    s.gate >= 0 && s.gate + c.gate + BoolToInt(s.toUnblock > 0) + c.opening == 1
  }

  /** The counters account for every registered thread. */
  predicate Counters(s: Shared, c: Totals) {
    && s.blocked - s.gone + s.toUnblock + c.settled == c.registered
    && s.blocked >= 0 && s.gone >= 0 && s.toUnblock >= 0
    && (s.toUnblock > 0 ==> s.gone == 0)
  }

  /** Permits issued, pending, or taken and not yet accounted for. */
  function Permits(s: Shared, c: Totals): int {
    s.queue + c.pending + c.taken
  }

  predicate SharedInv(s: Shared, c: Totals) {
    && c.lock == BoolToInt(s.locked)
    && GateToken(s, c)
    && Counters(s, c)
    && s.queue >= 0 && Permits(s, c) >= s.toUnblock
  }

  ghost predicate Inv(s: State) {
    SharedInv(s.cv, Tally(s.pc)) && forall t :: 0 <= t < |s.pc| ==> LocalInv(s.cv, s.pc[t])
  }

  // ---- bookkeeping ---------------------------------------------------------

  lemma TallyUpdate(pc: seq<PC>, t: nat, p: PC)
    requires t < |pc|
    ensures Shifted(Tally(pc), Weights(pc[t]), Weights(p), Tally(pc[t := p]))
  {
    SumUpdate(pc, t, p, HoldsLock);
    SumUpdate(pc, t, p, HoldsGate);
    SumUpdate(pc, t, p, WillOpen);
    SumUpdate(pc, t, p, Registered);
    SumUpdate(pc, t, p, Settled);
    SumUpdate(pc, t, p, Pending);
    SumUpdate(pc, t, p, Taken);
  }

  lemma TallyCovers(pc: seq<PC>, t: nat)
    requires t < |pc|
    ensures Covers(Tally(pc), Weights(pc[t]))
  {
    SumAtLeast(pc, t, HoldsLock);
    SumAtLeast(pc, t, HoldsGate);
    SumAtLeast(pc, t, WillOpen);
    SumAtLeast(pc, t, Registered);
    SumAtLeast(pc, t, Pending);
    SumAtLeast(pc, t, Taken);
  }

  /** No two threads hold the lock, and no two hold the gate. */
  lemma Exclusive(s: State, t: nat, u: nat)
    requires t < |s.pc| && u < |s.pc| && t != u && Inv(s)
    ensures HoldsLock(s.pc[t]) + HoldsLock(s.pc[u]) <= 1
    ensures HoldsGate(s.pc[t]) + HoldsGate(s.pc[u]) + s.cv.gate + BoolToInt(s.cv.toUnblock > 0) <= 1
  {
    SumPair(s.pc, t, u, HoldsLock);
    SumPair(s.pc, t, u, HoldsGate);
    SumNonNegative(s.pc, WillOpen);
  }

  /** Only the unblock lock's holder can have settled some of the gone. */
  lemma SettledByHolder(s: State, t: nat)
    requires t < |s.pc| && Inv(s) && HoldsLock(s.pc[t]) == 1
    ensures Tally(s.pc).settled == Settled(s.pc[t])
  {
    var pc := s.pc[t := Idle];
    SumUpdate(s.pc, t, Idle, Settled);
    forall u | 0 <= u < |pc| ensures Settled(pc[u]) == 0 {
      if u != t {
        Exclusive(s, t, u);
      }
    }
    SumZero(pc, Settled);
  }

  lemma TallyIdle(pc: seq<PC>)
    requires forall t :: 0 <= t < |pc| ==> pc[t] == Idle
    ensures Tally(pc) == NONE
  {
    SumAllAt(pc, Idle, HoldsLock);
    SumAllAt(pc, Idle, HoldsGate);
    SumAllAt(pc, Idle, WillOpen);
    SumAllAt(pc, Idle, Registered);
    SumAllAt(pc, Idle, Settled);
    SumAllAt(pc, Idle, Pending);
    SumAllAt(pc, Idle, Taken);
  }

  lemma InitInv(s: State)
    requires Init(s)
    ensures Inv(s)
  {
    TallyIdle(s.pc);
    StartShared(s);
    StartLocal(s);
  }

  lemma StartShared(s: State)
    requires s.cv == Shared(0, 0, 0, 1, 0, false) && Tally(s.pc) == NONE
    ensures SharedInv(s.cv, Tally(s.pc))
  {
    StartInv(Tally(s.pc));
  }

  lemma StartInv(c: Totals)
    requires c == NONE
    ensures SharedInv(Shared(0, 0, 0, 1, 0, false), c)
  {
  }

  lemma StartLocal(s: State)
    requires Init(s)
    ensures forall t :: 0 <= t < |s.pc| ==> LocalInv(s.cv, s.pc[t])
  {
  }

  // ---- every step keeps the invariant --------------------------------------

  /** The counts before (`c`) and after (`c'`) a thread moves from `p` to
      `p'`, as plain numbers, with what the invariant says of them. */
  predicate Accounted(s: Shared, p: PC, p': PC, c: Totals, c': Totals) {
    && SharedInv(s, c) && LocalInv(s, p) && Covers(c, Weights(p))
    && (HoldsLock(p) == 1 ==> c.settled == Settled(p))
    && Shifted(c, Weights(p), Weights(p'), c')
  }

  /** Registering and waiting keep the shared part. */
  lemma WaitKeepsShared(s: Shared, p: PC, s': Shared, p': PC, c: Totals, c': Totals)
    requires WaitStep(s, p, s', p') && Accounted(s, p, p', c, c')
    ensures SharedInv(s', c') && LocalInv(s', p')
  {
  }

  /** Leaving keeps the shared part. */
  lemma CleanupKeepsShared(s: Shared, p: PC, s': Shared, p': PC, c: Totals, c': Totals)
    requires CleanupStep(s, p, s', p') && Accounted(s, p, p', c, c')
    ensures SharedInv(s', c') && LocalInv(s', p')
  {
  }

  /** Signal and broadcast keep the shared part. */
  lemma UnblockKeepsShared(s: Shared, p: PC, s': Shared, p': PC, c: Totals, c': Totals)
    requires UnblockStep(s, p, s', p') && Accounted(s, p, p', c, c')
    ensures SharedInv(s', c') && LocalInv(s', p')
  {
    match p {
      case Idle =>
      case Unblock(all) =>
      case UnblockWait(_) =>
      case UnblockMove(all) =>
      case UnblockUnlock(_) =>
      case UnblockPost(_) =>
      case UnblockNothing =>
    }
  }

  /** The other threads keep what they rely on. */
  lemma StepKeepsOthers(s: Shared, p: PC, s': Shared, p': PC, q: PC)
    requires ThreadStep(s, p, s', p')
    requires LocalInv(s, p) && LocalInv(s, q)
    requires HoldsLock(p) + HoldsLock(q) <= 1
    requires HoldsGate(p) + HoldsGate(q) + s.gate + BoolToInt(s.toUnblock > 0) <= 1
    requires s.gate >= 0 && s.toUnblock >= 0
    ensures LocalInv(s', q)
  {
  }

  lemma StepKeepsInv(s: State, t: nat, s': State)
    requires Inv(s) && Step(s, t, s')
    ensures Inv(s')
  {
    TallyUpdate(s.pc, t, s'.pc[t]);
    TallyCovers(s.pc, t);
    if HoldsLock(s.pc[t]) == 1 {
      SettledByHolder(s, t);
    }
    if WaitStep(s.cv, s.pc[t], s'.cv, s'.pc[t]) {
      WaitKeepsShared(s.cv, s.pc[t], s'.cv, s'.pc[t], Tally(s.pc), Tally(s'.pc));
    } else if CleanupStep(s.cv, s.pc[t], s'.cv, s'.pc[t]) {
      CleanupKeepsShared(s.cv, s.pc[t], s'.cv, s'.pc[t], Tally(s.pc), Tally(s'.pc));
    } else {
      UnblockKeepsShared(s.cv, s.pc[t], s'.cv, s'.pc[t], Tally(s.pc), Tally(s'.pc));
    }
    forall u | 0 <= u < |s'.pc| && u != t ensures LocalInv(s'.cv, s'.pc[u]) {
      Exclusive(s, t, u);
      StepKeepsOthers(s.cv, s.pc[t], s'.cv, s'.pc[t], s.pc[u]);
    }
  }

  // ---- over every run ------------------------------------------------------

  lemma {:induction false} RunKeepsInv(run: seq<State>, i: nat)
    requires i < |run| && IsRun(run)
    ensures Inv(run[i])
  {
    if i == 0 {
      InitInv(run[0]);
    } else {
      RunKeepsInv(run, i - 1);
      assert NextAt(run, i - 1);
      var t: nat :| Step(run[i - 1], t, run[i]);
      StepKeepsInv(run[i - 1], t, run[i]);
    }
  }

  /** In every state of every run the gate token is in one place, the counters
      account for the registered threads, timed-out waiters are only counted
      while no round is open, and the permits suffice for the round. */
  lemma CountersAndGate(run: seq<State>, i: nat)
    requires i < |run| && IsRun(run)
    ensures var s, c := run[i].cv, Tally(run[i].pc);
      && s.gate + c.gate + BoolToInt(s.toUnblock > 0) + c.opening == 1
      && s.blocked - s.gone + s.toUnblock + c.settled == c.registered
      && (!s.locked ==> s.blocked - s.gone + s.toUnblock == c.registered)
      && (s.toUnblock > 0 ==> s.gone == 0)
      && Permits(s, c) >= s.toUnblock
  {
    RunKeepsInv(run, i);
    if !run[i].cv.locked {
      NothingSettled(run[i].pc);
    }
  }

  /** The unprotected increment of `nWaitersBlocked` loses no update: whatever
      the interleaving, the value written is the current one plus one. */
  lemma NoLostIncrement(run: seq<State>, i: nat, t: nat)
    requires i < |run| && IsRun(run)
    requires t < |run[i].pc| && run[i].pc[t].RegisterWrite?
    ensures run[i].pc[t].tmp == run[i].cv.blocked
  {
    RunKeepsInv(run, i);
    assert LocalInv(run[i].cv, run[i].pc[t]);
  }

  // ---- broadcast -----------------------------------------------------------

  /** The round counts every registered thread. */
  predicate CoveredShared(s: Shared, c: Totals) {
    s.toUnblock == c.registered && (s.toUnblock > 0 ==> s.blocked == 0)
  }

  /** The round includes every registered thread. */
  ghost predicate Covered(s: State) {
    CoveredShared(s.cv, Tally(s.pc))
  }

  /** Thread `t` leaves the critical section of a broadcast. */
  predicate EndsBroadcast(s: State, t: nat, s': State)
    requires t < |s.pc| == |s'.pc|
  {
    && (s.pc[t] == Unblock(true) || s.pc[t] == UnblockMove(true))
    && (s'.pc[t].UnblockUnlock? || s'.pc[t].UnblockNothing?)
  }

  /** A broadcast puts everybody in the round, in plain numbers. */
  lemma BroadcastMoves(s: Shared, p: PC, s': Shared, p': PC, c: Totals, c': Totals)
    requires UnblockStep(s, p, s', p') && Accounted(s, p, p', c, c') && c'.registered >= 0
    requires p == Unblock(true) || p == UnblockMove(true)
    requires p'.UnblockUnlock? || p'.UnblockNothing?
    ensures CoveredShared(s', c') && c'.registered == c.registered && !IsRegistered(p) && !IsRegistered(p')
    ensures Permits(s', c') >= c'.registered
  {
    UnblockKeepsShared(s, p, s', p', c, c');
  }

  /** When a broadcast leaves its critical section, whichever branch it took,
      the round is exactly the registered threads and permits exist for all. */
  lemma BroadcastCovers(s: State, t: nat, s': State)
    requires Inv(s) && Step(s, t, s') && EndsBroadcast(s, t, s')
    ensures Covered(s') && Permits(s'.cv, Tally(s'.pc)) >= Tally(s'.pc).registered
    ensures forall u :: 0 <= u < |s.pc| ==> (IsRegistered(s'.pc[u]) <==> IsRegistered(s.pc[u]))
  {
    SettledByHolder(s, t);
    TallyUpdate(s.pc, t, s'.pc[t]);
    TallyCovers(s.pc, t);
    SumNonNegative(s'.pc, Registered);
    BroadcastMoves(s.cv, s.pc[t], s'.cv, s'.pc[t], Tally(s.pc), Tally(s'.pc));
  }

  lemma WaitKeepsCovered(s: Shared, p: PC, s': Shared, p': PC, c: Totals, c': Totals)
    requires WaitStep(s, p, s', p') && Accounted(s, p, p', c, c') && c.opening >= 0
    requires CoveredShared(s, c) && s.toUnblock > 0
    ensures CoveredShared(s', c') && (IsRegistered(p') ==> IsRegistered(p))
  {
  }

  lemma CleanupKeepsCovered(s: Shared, p: PC, s': Shared, p': PC, c: Totals, c': Totals)
    requires CleanupStep(s, p, s', p') && Accounted(s, p, p', c, c')
    requires CoveredShared(s, c) && s.toUnblock > 0
    ensures CoveredShared(s', c') && (IsRegistered(p') ==> IsRegistered(p))
  {
  }

  lemma UnblockKeepsCovered(s: Shared, p: PC, s': Shared, p': PC, c: Totals, c': Totals)
    requires UnblockStep(s, p, s', p') && Accounted(s, p, p', c, c')
    requires CoveredShared(s, c) && s.toUnblock > 0
    ensures CoveredShared(s', c') && !IsRegistered(p')
  {
  }

  /** While the round is open nobody registers, and the round stays exactly the
      registered threads. */
  lemma CoveredStep(s: State, t: nat, s': State)
    requires Inv(s) && Step(s, t, s') && Covered(s) && s.cv.toUnblock > 0
    ensures Covered(s')
    ensures forall u :: 0 <= u < |s.pc| && IsRegistered(s'.pc[u]) ==> IsRegistered(s.pc[u])
  {
    var p, p', c, c' := s.pc[t], s'.pc[t], Tally(s.pc), Tally(s'.pc);
    TallyUpdate(s.pc, t, p');
    TallyCovers(s.pc, t);
    SumNonNegative(s.pc, WillOpen);
    if HoldsLock(p) == 1 {
      SettledByHolder(s, t);
    }
    if WaitStep(s.cv, p, s'.cv, p') {
      WaitKeepsCovered(s.cv, p, s'.cv, p', c, c');
    } else if CleanupStep(s.cv, p, s'.cv, p') {
      CleanupKeepsCovered(s.cv, p, s'.cv, p', c, c');
    } else {
      UnblockKeepsCovered(s.cv, p, s'.cv, p', c, c');
    }
  }

  /** Everybody registered in `s` was already registered in `s0`. */
  ghost predicate NobodyNew(s0: State, s: State) {
    && |s.pc| == |s0.pc|
    && forall u :: 0 <= u < |s.pc| && IsRegistered(s.pc[u]) ==> IsRegistered(s0.pc[u])
  }

  lemma CoveredNext(s0: State, s: State, s': State)
    requires Inv(s) && Next(s, s') && Covered(s) && s.cv.toUnblock > 0 && NobodyNew(s0, s)
    ensures Covered(s') && NobodyNew(s0, s')
  {
    var t: nat :| Step(s, t, s');
    CoveredStep(s, t, s');
  }

  /** A covered state stays covered, with nobody new, while the round is open. */
  lemma {:induction false} CoveredWhileOpen(run: seq<State>, k: nat, j: nat)
    requires k <= j < |run| && IsRun(run) && Covered(run[k])
    requires forall i :: k <= i < j ==> run[i].cv.toUnblock > 0
    ensures NobodyNew(run[k], run[j]) && Covered(run[j])
    decreases j
  {
    if k < j {
      CoveredWhileOpen(run, k, j - 1);
      RunKeepsInv(run, j - 1);
      assert NextAt(run, j - 1);
      CoveredNext(run[k], run[j - 1], run[j]);
    }
  }

  /** Registered threads that hold no permit yet. */
  function Unserved(p: PC): int {
    Registered(p) - Taken(p)
  }

  lemma {:induction false} UnservedSum(pc: seq<PC>)
    ensures Sum(pc, Unserved) == Sum(pc, Registered) - Sum(pc, Taken)
  {
    if pc != [] {
      UnservedSum(pc[..|pc| - 1]);
    }
  }

  /** In a covered state a sleeping waiter always has a permit in the queue or
      about to be posted: it cannot be forgotten. */
  lemma SleeperHasPermit(s: State, u: nat)
    requires Inv(s) && Covered(s) && u < |s.pc| && s.pc[u].Waiting?
    ensures s.cv.queue + Tally(s.pc).pending > 0
  {
    UnservedSum(s.pc);
    SumAtLeast(s.pc, u, Unserved);
  }

  /** A broadcast loses nobody.  Let thread `t` leave the critical section of a
      broadcast at position `k` of any run.  For as long as the round stays
      open, only threads registered at that moment are registered, the round
      counts exactly those still there, permits remain for all of them, and a
      waiter still asleep has a permit posted or about to be.  As the round
      counts exactly the registered threads, it closes when all have left and
      not before. */
  lemma BroadcastLosesNobody(run: seq<State>, k: nat, t: nat, j: nat)
    requires IsRun(run) && 0 < k <= j < |run|
    requires Step(run[k - 1], t, run[k]) && EndsBroadcast(run[k - 1], t, run[k])
    requires forall i :: k <= i < j ==> run[i].cv.toUnblock > 0
    ensures NobodyNew(run[k - 1], run[j])
    ensures run[j].cv.toUnblock == Tally(run[j].pc).registered
    ensures Permits(run[j].cv, Tally(run[j].pc)) >= Tally(run[j].pc).registered
    ensures forall u: nat :: u < |run[j].pc| && run[j].pc[u].Waiting? ==> run[j].cv.queue + Tally(run[j].pc).pending > 0
  {
    RunKeepsInv(run, k - 1);
    BroadcastCovers(run[k - 1], t, run[k]);
    CoveredWhileOpen(run, k, j);
    RunKeepsInv(run, j);
    forall u: nat | u < |run[j].pc| && run[j].pc[u].Waiting?
      ensures run[j].cv.queue + Tally(run[j].pc).pending > 0
    {
      SleeperHasPermit(run[j], u);
    }
  }

  // ---- signal --------------------------------------------------------------

  /** Thread `t` decides what its signal does. */
  predicate DecidesSignal(s: State, t: nat) {
    t < |s.pc| && (s.pc[t] == Unblock(false) || s.pc[t] == UnblockMove(false))
  }

  /** What a signal decides, in plain numbers. */
  lemma SignalMoves(s: Shared, p: PC, s': Shared, p': PC, c: Totals, c': Totals)
    requires UnblockStep(s, p, s', p') && Accounted(s, p, p', c, c') && c.registered >= 0
    requires p == Unblock(false) || p == UnblockMove(false)
    ensures p' == UnblockNothing <==> c.registered == s.toUnblock
    ensures p'.UnblockWait? <==> p.Unblock? && s.toUnblock == 0 && c.registered > 0
    ensures p'.UnblockUnlock? ==> s'.toUnblock == s.toUnblock + 1 && p'.issue == 1 && c'.pending == c.pending + 1
    ensures p' == UnblockNothing || p'.UnblockWait? || p'.UnblockUnlock?
    ensures c'.registered == c.registered
  {
  }

  /** A signal does nothing exactly when every registered thread is already to be
      unblocked.  Otherwise it puts exactly one more of them in the round, with
      one permit to be posted, opening a round first if none is open. */
  lemma SignalWakesOne(s: State, t: nat, s': State)
    requires Inv(s) && Step(s, t, s') && DecidesSignal(s, t)
    ensures var c, c', p' := Tally(s.pc), Tally(s'.pc), s'.pc[t];
      && (p' == UnblockNothing <==> c.registered == s.cv.toUnblock)
      && (p'.UnblockWait? <==> s.pc[t].Unblock? && s.cv.toUnblock == 0 && c.registered > 0)
      && (p'.UnblockUnlock? ==> s'.cv.toUnblock == s.cv.toUnblock + 1 && p'.issue == 1 && c'.pending == c.pending + 1)
      && (p' == UnblockNothing || p'.UnblockWait? || p'.UnblockUnlock?)
      && c'.registered == c.registered
  {
    SettledByHolder(s, t);
    TallyUpdate(s.pc, t, s'.pc[t]);
    TallyCovers(s.pc, t);
    SumNonNegative(s.pc, Registered);
    assert LocalInv(s.cv, s.pc[t]);
    SignalMoves(s.cv, s.pc[t], s'.cv, s'.pc[t], Tally(s.pc), Tally(s'.pc));
  }

  /** The threads that an open round will leave behind. */
  function Outside(s: State): int {
    Tally(s.pc).registered - s.cv.toUnblock
  }

  lemma WaitInRound(s: Shared, p: PC, s': Shared, p': PC, c: Totals, c': Totals)
    requires WaitStep(s, p, s', p') && Accounted(s, p, p', c, c') && c.opening >= 0 && s.toUnblock > 0
    ensures c'.registered - s'.toUnblock <= c.registered - s.toUnblock && (IsRegistered(p') ==> IsRegistered(p))
  {
  }

  lemma CleanupInRound(s: Shared, p: PC, s': Shared, p': PC, c: Totals, c': Totals)
    requires CleanupStep(s, p, s', p') && Accounted(s, p, p', c, c') && s.toUnblock > 0
    ensures c'.registered - s'.toUnblock <= c.registered - s.toUnblock && (IsRegistered(p') ==> IsRegistered(p))
  {
  }

  lemma UnblockInRound(s: Shared, p: PC, s': Shared, p': PC, c: Totals, c': Totals)
    requires UnblockStep(s, p, s', p') && Accounted(s, p, p', c, c') && s.toUnblock > 0
    ensures c'.registered - s'.toUnblock <= c.registered - s.toUnblock && !IsRegistered(p')
  {
  }

  /** While a round is open nobody registers, and whoever leaves is counted. */
  lemma RoundStep(s: State, t: nat, s': State)
    requires Inv(s) && Step(s, t, s') && s.cv.toUnblock > 0
    ensures Outside(s') <= Outside(s) && NobodyNew(s, s')
  {
    var p, p', c, c' := s.pc[t], s'.pc[t], Tally(s.pc), Tally(s'.pc);
    TallyUpdate(s.pc, t, p');
    TallyCovers(s.pc, t);
    SumNonNegative(s.pc, WillOpen);
    if HoldsLock(p) == 1 {
      SettledByHolder(s, t);
    }
    if WaitStep(s.cv, p, s'.cv, p') {
      WaitInRound(s.cv, p, s'.cv, p', c, c');
    } else if CleanupStep(s.cv, p, s'.cv, p') {
      CleanupInRound(s.cv, p, s'.cv, p', c, c');
    } else {
      UnblockInRound(s.cv, p, s'.cv, p', c, c');
    }
  }

  lemma {:induction false} RoundLeaves(run: seq<State>, k: nat, j: nat)
    requires IsRun(run) && k <= j < |run|
    requires forall i :: k <= i < j ==> run[i].cv.toUnblock > 0
    ensures Outside(run[j]) <= Outside(run[k]) && NobodyNew(run[k], run[j])
    decreases j
  {
    if k < j {
      RoundLeaves(run, k, j - 1);
      RunKeepsInv(run, j - 1);
      assert NextAt(run, j - 1);
      var t: nat :| Step(run[j - 1], t, run[j]);
      RoundStep(run[j - 1], t, run[j]);
    }
  }

  /** A signal loses nobody.  Let thread `t` decide at position `k` of any run to
      wake one more waiter.  For as long as the round stays open there is a
      permit posted, pending or taken; nobody registers; and when it closes, at
      least as many registered threads have left as were then to be unblocked,
      the one added by the signal included. */
  lemma SignalLosesNobody(run: seq<State>, k: nat, t: nat, j: nat)
    requires IsRun(run) && 0 < k <= j < |run|
    requires Step(run[k - 1], t, run[k]) && DecidesSignal(run[k - 1], t) && run[k].pc[t].UnblockUnlock?
    requires forall i :: k <= i < j ==> run[i].cv.toUnblock > 0
    ensures run[k].cv.toUnblock == run[k - 1].cv.toUnblock + 1
    ensures NobodyNew(run[k - 1], run[j])
    ensures run[j].cv.toUnblock > 0 ==> Permits(run[j].cv, Tally(run[j].pc)) > 0
    ensures run[j].cv.toUnblock == 0 ==>
      Tally(run[k - 1].pc).registered - Tally(run[j].pc).registered >= run[k - 1].cv.toUnblock + 1
  {
    RunKeepsInv(run, k - 1);
    SignalWakesOne(run[k - 1], t, run[k]);
    RoundLeaves(run, k, j);
    RunKeepsInv(run, j);
  }

  // ---- permits -------------------------------------------------------------

  /** How many permits a step makes or uses up. */
  function PermitsMade(s: Shared, p: PC, s': Shared): int {
    if p.Cleanup? then -BoolToInt(p.permit) else if p.Unblock? || p.UnblockMove? then s'.toUnblock - s.toUnblock else 0
  }

  lemma WaitPermits(s: Shared, p: PC, s': Shared, p': PC)
    requires WaitStep(s, p, s', p')
    ensures s'.queue - s.queue + Pending(p') - Pending(p) + Taken(p') - Taken(p) == PermitsMade(s, p, s')
  {
  }

  lemma CleanupPermits(s: Shared, p: PC, s': Shared, p': PC)
    requires CleanupStep(s, p, s', p')
    ensures s'.queue - s.queue + Pending(p') - Pending(p) + Taken(p') - Taken(p) == PermitsMade(s, p, s')
  {
  }

  lemma UnblockPermits(s: Shared, p: PC, s': Shared, p': PC)
    requires UnblockStep(s, p, s', p') && LocalInv(s, p) && LocalInv(s', p')
    ensures s'.queue - s.queue + Pending(p') - Pending(p) + Taken(p') - Taken(p) == PermitsMade(s, p, s')
  {
  }

  /** Permits are neither lost nor made up: a signal or broadcast makes one for
      each thread it puts in the round, a woken thread uses its own up when it
      cleans up, and nothing else changes their number. */
  lemma PermitsConserved(run: seq<State>, i: nat, t: nat)
    requires i + 1 < |run| && IsRun(run) && Step(run[i], t, run[i + 1])
    ensures Permits(run[i + 1].cv, Tally(run[i + 1].pc)) - Permits(run[i].cv, Tally(run[i].pc))
         == PermitsMade(run[i].cv, run[i].pc[t], run[i + 1].cv)
  {
    RunKeepsInv(run, i);
    RunKeepsInv(run, i + 1);
    var s, p, s', p' := run[i].cv, run[i].pc[t], run[i + 1].cv, run[i + 1].pc[t];
    assert LocalInv(s, p) && LocalInv(s', p');
    TallyUpdate(run[i].pc, t, p');
    if WaitStep(s, p, s', p') {
      WaitPermits(s, p, s', p');
    } else if CleanupStep(s, p, s', p') {
      CleanupPermits(s, p, s', p');
    } else {
      UnblockPermits(s, p, s', p');
    }
  }

  // ---- the count of gone waiters -------------------------------------------

  /** Inside the branch that settles the gone waiters. */
  function Settling(p: PC): int {
    BoolToInt(p.GoneWait? || p.GoneAdjust? || p.GonePost? || p.GoneReset?)
  }

  /** Holding the unblock lock outside of it. */
  function PlainHolder(p: PC): int {
    if Settling(p) == 1 then 0 else HoldsLock(p)
  }

  lemma {:induction false} HolderSum(pc: seq<PC>)
    ensures Sum(pc, Settling) + Sum(pc, PlainHolder) == Sum(pc, HoldsLock)
  {
    if pc != [] {
      HolderSum(pc[..|pc| - 1]);
    }
  }

  ghost predicate GoneInv(s: State) {
    s.cv.gone < GONE_LIMIT + Sum(s.pc, Settling)
  }

  lemma GoneKept(s: Shared, p: PC, s': Shared, p': PC, settling: int)
    requires ThreadStep(s, p, s', p') && s.gone < GONE_LIMIT + settling
    requires Settling(p) <= settling && (p.Cleanup? ==> settling == 0)
    ensures s'.gone < GONE_LIMIT + settling - Settling(p) + Settling(p') || s'.gone == 0
  {
  }

  /** Nobody settles while somebody else holds the unblock lock. */
  lemma CleanupAlone(pc: seq<PC>, t: nat)
    requires Sum(pc, HoldsLock) <= 1 && t < |pc|
    ensures Settling(pc[t]) <= Sum(pc, Settling) && (pc[t].Cleanup? ==> Sum(pc, Settling) == 0)
  {
    HolderSum(pc);
    SumAtLeast(pc, t, Settling);
    if pc[t].Cleanup? {
      SumAtLeast(pc, t, PlainHolder);
    }
  }

  lemma OneHolder(s: State)
    requires Inv(s)
    ensures Sum(s.pc, HoldsLock) <= 1
  {
    assert SharedInv(s.cv, Tally(s.pc));
  }

  lemma StepKeepsGone(s: State, t: nat, s': State)
    requires Inv(s) && GoneInv(s) && Step(s, t, s')
    ensures GoneInv(s')
  {
    OneHolder(s);
    CleanupAlone(s.pc, t);
    SumUpdate(s.pc, t, s'.pc[t], Settling);
    SumNonNegative(s'.pc, Settling);
    GoneKept(s.cv, s.pc[t], s'.cv, s'.pc[t], Sum(s.pc, Settling));
  }

  lemma {:induction false} RunKeepsGone(run: seq<State>, i: nat)
    requires i < |run| && IsRun(run)
    ensures GoneInv(run[i])
  {
    if i == 0 {
      SumAllAt(run[0].pc, Idle, Settling);
    } else {
      RunKeepsGone(run, i - 1);
      RunKeepsInv(run, i - 1);
      assert NextAt(run, i - 1);
      var t: nat :| Step(run[i - 1], t, run[i]);
      StepKeepsGone(run[i - 1], t, run[i]);
    }
  }

  /** However many waits time out, nWaitersGone never exceeds INT_MAX / 2, and
      reaches it only while some thread is settling it. */
  lemma GoneIsBounded(run: seq<State>, i: nat)
    requires i < |run| && IsRun(run)
    ensures run[i].cv.gone <= GONE_LIMIT
    ensures run[i].cv.gone == GONE_LIMIT ==> exists t :: 0 <= t < |run[i].pc| && Settling(run[i].pc[t]) == 1
  {
    RunKeepsInv(run, i);
    OneHolder(run[i]);
    RunKeepsGone(run, i);
    HolderSum(run[i].pc);
    SumNonNegative(run[i].pc, PlainHolder);
    if Sum(run[i].pc, Settling) > 0 {
      var t := SumWitness(run[i].pc, Settling);
    }
  }

  // ---- progress ------------------------------------------------------------

  /** The steps a thread can take without waiting for anybody: all but taking a lock, the gate or a permit that is not there. */
  predicate Free(s: Shared, p: PC) {
    match p
    case Idle => false
    case Waiting => s.queue > 0
    case Woken(_) => !s.locked
    case GoneWait => s.gate > 0
    case UnblockWait(_) => s.gate > 0
    case _ => true
  }

  /** Such a thread can act, and no wait ends for want of a permit. */
  lemma CanAct(s: State, t: nat) returns (s': State)
    requires t < |s.pc| && Free(s.cv, s.pc[t])
    ensures Step(s, t, s') && s'.pc[t] != Woken(false)
  {
    var cv, p := s.cv, s.pc[t];
    match p {
      case RegisterRead => p := RegisterWrite(cv.blocked);
      case RegisterWrite(tmp) => cv, p := cv.(blocked := tmp + 1), RegisterPost;
      case RegisterPost => cv, p := cv.(gate := cv.gate + 1), Waiting;
      case Waiting => cv, p := cv.(queue := cv.queue - 1), Woken(true);
      case Woken(permit) => cv, p := cv.(locked := true), Cleanup(permit);
      case Cleanup(_) =>
        if cv.toUnblock != 0 {
          cv, p := cv.(toUnblock := cv.toUnblock - 1), CleanupUnlock(cv.toUnblock);
        } else {
          cv, p := cv.(gone := cv.gone + 1), if cv.gone + 1 == GONE_LIMIT then GoneWait else CleanupUnlock(0);
        }
      case GoneWait => cv, p := cv.(gate := cv.gate - 1), GoneAdjust;
      case GoneAdjust => cv, p := cv.(blocked := cv.blocked - cv.gone), GonePost(cv.gone);
      case GonePost(settled) => cv, p := cv.(gate := cv.gate + 1), GoneReset(settled);
      case GoneReset(_) => cv, p := cv.(gone := 0), CleanupUnlock(0);
      case CleanupUnlock(wasLeft) => cv, p := cv.(locked := false), CleanupOpen(wasLeft);
      case CleanupOpen(wasLeft) => cv, p := cv.(gate := if wasLeft == 1 then cv.gate + 1 else cv.gate), Idle;
      case Unblock(all) =>
        if cv.toUnblock == 0 {
          p := if cv.blocked > cv.gone then UnblockWait(all) else UnblockNothing;
        } else if cv.blocked == 0 {
          p := UnblockNothing;
        } else if all {
          cv, p := cv.(toUnblock := cv.toUnblock + cv.blocked, blocked := 0), UnblockUnlock(cv.blocked);
        } else {
          cv, p := cv.(toUnblock := cv.toUnblock + 1, blocked := cv.blocked - 1), UnblockUnlock(1);
        }
      case UnblockWait(all) => cv, p := cv.(gate := cv.gate - 1), UnblockMove(all);
      case UnblockMove(all) =>
        var b := if cv.gone != 0 then cv.blocked - cv.gone else cv.blocked;
        if all {
          cv, p := cv.(gone := 0, toUnblock := b, blocked := 0), UnblockUnlock(b);
        } else {
          cv, p := cv.(gone := 0, toUnblock := 1, blocked := b - 1), UnblockUnlock(1);
        }
      case UnblockUnlock(issue) => cv, p := cv.(locked := false), UnblockPost(issue);
      case UnblockPost(issue) => cv, p := cv.(queue := cv.queue + issue), Idle;
      case UnblockNothing => cv, p := cv.(locked := false), Idle;
      case Idle =>
    }
    s' := State(cv, s.pc[t := p]);
  }

  /** An idle thread can begin to wait when the gate is open, and to signal or
      broadcast when the unblock lock is free; a sleeping one can time out. */
  lemma CanStart(s: State, t: nat) returns (wait: State, signal: State, broadcast: State, timeout: State)
    requires t < |s.pc|
    ensures s.pc[t].Idle? && s.cv.gate > 0 ==> Step(s, t, wait) && wait.pc[t] == RegisterRead
    ensures s.pc[t].Idle? && !s.cv.locked ==> Step(s, t, signal) && signal.pc[t] == Unblock(false)
    ensures s.pc[t].Idle? && !s.cv.locked ==> Step(s, t, broadcast) && broadcast.pc[t] == Unblock(true)
    ensures s.pc[t].Waiting? ==> Step(s, t, timeout) && timeout.pc[t] == Woken(false)
  {
    wait := State(s.cv.(gate := s.cv.gate - 1), s.pc[t := RegisterRead]);
    signal := State(s.cv.(locked := true), s.pc[t := Unblock(false)]);
    broadcast := State(s.cv.(locked := true), s.pc[t := Unblock(true)]);
    timeout := State(s.cv, s.pc[t := Woken(false)]);
  }

  /** While a round is open, whoever holds the unblock lock can act. */
  lemma HolderIsFree(s: State, t: nat)
    requires Inv(s) && s.cv.toUnblock > 0 && t < |s.pc| && HoldsLock(s.pc[t]) > 0
    ensures Free(s.cv, s.pc[t])
  {
    assert LocalInv(s.cv, s.pc[t]);
  }

  /** While a round is open, a registered thread sleeps, has woken up, or is
      inside its cleanup handler. */
  lemma RegisteredInRound(s: State, t: nat)
    requires Inv(s) && s.cv.toUnblock > 0 && t < |s.pc| && Registered(s.pc[t]) > 0
    ensures s.pc[t].Waiting? || s.pc[t].Woken? || s.pc[t].Cleanup?
  {
    TallyCovers(s.pc, t);
    SumNonNegative(s.pc, WillOpen);
  }

  /** An open round never wedges: some thread can act, and none has to time out
      for it. */
  lemma NeverStuck(run: seq<State>, i: nat) returns (t: nat, s': State)
    requires i < |run| && IsRun(run) && run[i].cv.toUnblock > 0
    ensures t < |run[i].pc| && !run[i].pc[t].Idle? && Step(run[i], t, s') && s'.pc[t] != Woken(false)
  {
    RunKeepsInv(run, i);
    t := FreeInRound(run[i]);
    s' := CanAct(run[i], t);
  }

  lemma FreeInRound(s: State) returns (t: nat)
    requires Inv(s) && s.cv.toUnblock > 0
    ensures t < |s.pc| && Free(s.cv, s.pc[t])
  {
    if s.cv.locked {
      t := SumWitness(s.pc, HoldsLock);
      HolderIsFree(s, t);
    } else if Tally(s.pc).pending > 0 {
      t := SumWitness(s.pc, Pending);
    } else if Tally(s.pc).taken > 0 {
      t := SumWitness(s.pc, Taken);
    } else {
      NothingSettled(s.pc);
      t := SumWitness(s.pc, Registered);
      RegisteredInRound(s, t);
    }
  }

  /** While nobody holds the unblock lock nobody is settling the gone waiters. */
  lemma NothingSettled(pc: seq<PC>)
    requires Sum(pc, HoldsLock) == 0
    ensures Sum(pc, Settled) == 0
  {
    forall t | 0 <= t < |pc| ensures Settled(pc[t]) == 0 {
      SumAtLeast(pc, t, HoldsLock);
    }
    SumZero(pc, Settled);
  }
}
