/** The read/write lock of pthread_rwlock_*.c as interleaved atomic actions.

    Two mutexes protect three counters.  A waiting writer flips the sign of the
    completed count to the negated number of readers still inside and sleeps on
    a condition variable; `awake` says that a signal has reached the sleeper.
    Sleepers may also wake spuriously, time out or be cancelled. */
module RwLock {
  import opened Counting

  const INT_MAX := 0x7fff_ffff

  datatype PC =
    | Idle
    // pthread_rwlock_rdlock and pthread_rwlock_tryrdlock
    | ReadCount                // holds Exclusive
    | ReadFull                 // holds Exclusive, the shared count is INT_MAX
    | ReadNormalise            // holds both
    | ReadNormalised           // holds both
    | ReadAdmitted             // holds Exclusive
    | Reading
    // pthread_rwlock_unlock, reader
    | LeaveLock
    | LeaveCount               // holds Completed
    | LeaveSignal              // holds Completed
    | LeaveUnlock              // holds Completed
    // pthread_rwlock_wrlock and pthread_rwlock_timedwrlock
    | WriteLock                // holds Exclusive
    | WriteCheck               // holds both
    | WriteTry                 // holds both (pthread_rwlock_trywrlock)
    | WriteSleep               // holds Exclusive, on the condition variable
    | WriteWake(ok: bool)      // holds Exclusive; ok is false after a timeout
    | WriteTest(ok: bool)      // holds both
    | WriteGrant               // holds both
    | Writing                  // holds both
    // pthread_rwlock_unlock, writer, and the end of ptw32_rwlock_cancelwrwait
    | DoneCount                // holds both
    | DoneCompleted            // holds both
    | DoneExclusive            // holds Exclusive

  datatype Shared = Shared(
    shared: int,        // nSharedAccessCount
    completed: int,     // nCompletedSharedAccessCount
    exclusive: int,     // nExclusiveAccessCount
    ex: bool,           // mtxExclusiveAccess
    sc: bool,           // mtxSharedAccessCompleted
    awake: bool)        // cndSharedAccessCompleted has been signalled

  datatype State = State(rw: Shared, pc: seq<PC>)

  ghost predicate Init(s: State) {
    && s.rw == Shared(0, 0, 0, false, false, false)
    && forall t :: 0 <= t < |s.pc| ==> s.pc[t] == Idle
  }

  // ---- the atomic actions --------------------------------------------------

  predicate ReadStep(s: Shared, p: PC, s': Shared, p': PC) {
    match p
    case Idle =>
      !s.ex && s' == s.(ex := true) && p' == ReadCount
    case ReadCount =>
      && s' == s.(shared := s.shared + 1)
      && p' == if s.shared + 1 == INT_MAX then ReadFull else ReadAdmitted
    case ReadFull =>
      !s.sc && s' == s.(sc := true) && p' == ReadNormalise
    case ReadNormalise =>
      s' == s.(shared := s.shared - s.completed, completed := 0) && p' == ReadNormalised
    case ReadNormalised =>
      s' == s.(sc := false) && p' == ReadAdmitted
    case ReadAdmitted =>
      s' == s.(ex := false) && p' == Reading
    case _ => false
  }

  /** `nCompletedSharedAccessCount` folded into `nSharedAccessCount`. */
  function Folded(s: Shared): Shared {
    if s.completed > 0 then s.(shared := s.shared - s.completed, completed := 0) else s
  }

  predicate WriteStep(s: Shared, p: PC, s': Shared, p': PC) {
    match p
    case Idle =>
      !s.ex && s' == s.(ex := true) && p' == WriteLock
    case WriteLock =>
      || (!s.sc && s' == s.(sc := true) && (p' == WriteCheck || p' == WriteTry))
      || (s' == s && p' == DoneExclusive)      // timed or try lock gave up
    case WriteCheck =>
      if s.exclusive != 0 then
        s' == s && p' == WriteGrant
      else
        var f := Folded(s);
        if f.shared > 0 then
          s' == f.(completed := -f.shared, sc := false, awake := false) && p' == WriteSleep
        else
          s' == f && p' == WriteGrant
    case WriteTry =>
      if s.exclusive != 0 then
        s' == s && p' == Idle                  // EBUSY, both mutexes kept
      else
        var f := Folded(s);
        if f.shared > 0 then
          s' == f && p' == DoneCompleted
        else
          s' == f.(exclusive := 1) && p' == Writing
    case WriteGrant =>
      s' == s.(exclusive := s.exclusive + 1) && p' == Writing
    case _ => false
  }

  /** The wait loop of a writer that found readers inside. */
  predicate WaitStep(s: Shared, p: PC, s': Shared, p': PC) {
    match p
    case WriteSleep =>
      s' == s.(awake := false) && (p' == WriteWake(true) || p' == WriteWake(false))
    case WriteWake(ok) =>
      !s.sc && s' == s.(sc := true) && p' == WriteTest(ok)
    case WriteTest(ok) =>
      if ok && s.completed < 0 then
        s' == s.(sc := false, awake := false) && p' == WriteSleep
      else if ok then
        s' == s.(shared := 0) && p' == WriteGrant
      else                                     // ptw32_rwlock_cancelwrwait
        s' == s.(shared := -s.completed, completed := 0) && p' == DoneCompleted
    case _ => false
  }

  /** `pthread_rwlock_unlock` decides by `nExclusiveAccessCount` alone which
      kind of holder is calling. */
  predicate UnlockStep(s: Shared, p: PC, s': Shared, p': PC) {
    match p
    case Reading =>
      s' == s && p' == if s.exclusive == 0 then LeaveLock else DoneCount
    case Writing =>
      s' == s && p' == if s.exclusive == 0 then LeaveLock else DoneCount
    case LeaveLock =>
      !s.sc && s' == s.(sc := true) && p' == LeaveCount
    case LeaveCount =>
      s' == s.(completed := s.completed + 1) && p' == if s.completed + 1 == 0 then LeaveSignal else LeaveUnlock
    case LeaveSignal =>
      s' == s.(awake := true) && p' == LeaveUnlock
    case LeaveUnlock =>
      s' == s.(sc := false) && p' == Idle
    case DoneCount =>
      s' == s.(exclusive := s.exclusive - 1) && p' == DoneCompleted
    case DoneCompleted =>
      s' == s.(sc := false) && p' == DoneExclusive
    case DoneExclusive =>
      s' == s.(ex := false) && p' == Idle
    case _ => false
  }

  predicate ThreadStep(s: Shared, p: PC, s': Shared, p': PC) {
    ReadStep(s, p, s', p') || WriteStep(s, p, s', p') || WaitStep(s, p, s', p') || UnlockStep(s, p, s', p')
  }

  ghost predicate Step(s: State, t: nat, s': State) {
    && t < |s.pc| == |s'.pc|
    && s'.pc == s.pc[t := s'.pc[t]]
    && ThreadStep(s.rw, s.pc[t], s'.rw, s'.pc[t])
  }

  ghost predicate Next(s: State, s': State) {
    exists t: nat :: Step(s, t, s')
  }

  ghost predicate NextAt(run: seq<State>, i: nat) {
    i + 1 < |run| && Next(run[i], run[i + 1])
  }

  /** Every interleaving of fewer than INT_MAX threads. */
  ghost predicate IsRun(run: seq<State>) {
    && |run| > 0 && Init(run[0]) && |run[0].pc| < INT_MAX
    && forall i: nat :: i < |run| - 1 ==> NextAt(run, i)
  }

  // ---- weights -------------------------------------------------------------

  /** How many threads stand where. */
  datatype Totals = Totals(
    active: int,        // readers counted in and not yet counted out
    sleeping: int,      // a writer on the condition variable
    waking: int,        // a waiting writer, awake but not yet decided
    granted: int,       // a writer about to enter
    inside: int,        // a writer in the exclusive section
    overfull: int,      // a reader that found the shared count full
    otherwise: int,     // other holders of mtxExclusiveAccess
    completed: int,     // holders of mtxSharedAccessCompleted
    signalling: int)    // a reader about to signal the writer

  const NONE := Totals(0, 0, 0, 0, 0, 0, 0, 0, 0)

  function Weights(p: PC): Totals {
    match p
    case Idle => NONE
    case ReadCount => NONE.(otherwise := 1)
    case ReadFull => NONE.(active := 1, overfull := 1)
    case ReadNormalise => NONE.(active := 1, overfull := 1, completed := 1)
    case ReadNormalised => NONE.(active := 1, otherwise := 1, completed := 1)
    case ReadAdmitted => NONE.(active := 1, otherwise := 1)
    case Reading => NONE.(active := 1)
    case LeaveLock => NONE.(active := 1)
    case LeaveCount => NONE.(active := 1, completed := 1)
    case LeaveSignal => NONE.(completed := 1, signalling := 1)
    case LeaveUnlock => NONE.(completed := 1)
    case WriteLock => NONE.(otherwise := 1)
    case WriteCheck => NONE.(otherwise := 1, completed := 1)
    case WriteTry => NONE.(otherwise := 1, completed := 1)
    case WriteSleep => NONE.(sleeping := 1)
    case WriteWake(_) => NONE.(waking := 1)
    case WriteTest(_) => NONE.(waking := 1, completed := 1)
    case WriteGrant => NONE.(granted := 1, completed := 1)
    case Writing => NONE.(inside := 1, completed := 1)
    case DoneCount => NONE.(inside := 1, completed := 1)
    case DoneCompleted => NONE.(otherwise := 1, completed := 1)
    case DoneExclusive => NONE.(otherwise := 1)
  }

  function Active(p: PC): int { Weights(p).active }
  function Sleeping(p: PC): int { Weights(p).sleeping }
  function Waking(p: PC): int { Weights(p).waking }
  function Granted(p: PC): int { Weights(p).granted }
  function Inside(p: PC): int { Weights(p).inside }
  function Overfull(p: PC): int { Weights(p).overfull }
  function Otherwise(p: PC): int { Weights(p).otherwise }
  function HoldsCompleted(p: PC): int { Weights(p).completed }
  function Signalling(p: PC): int { Weights(p).signalling }

  function Tally(pc: seq<PC>): Totals {
    Totals(Sum(pc, Active), Sum(pc, Sleeping), Sum(pc, Waking), Sum(pc, Granted), Sum(pc, Inside), Sum(pc, Overfull),
           Sum(pc, Otherwise), Sum(pc, HoldsCompleted), Sum(pc, Signalling))
  }

  predicate Shifted(c: Totals, w: Totals, w': Totals, c': Totals) {
    c' == Totals(c.active - w.active + w'.active, c.sleeping - w.sleeping + w'.sleeping,
                 c.waking - w.waking + w'.waking, c.granted - w.granted + w'.granted,
                 c.inside - w.inside + w'.inside, c.overfull - w.overfull + w'.overfull,
                 c.otherwise - w.otherwise + w'.otherwise, c.completed - w.completed + w'.completed,
                 c.signalling - w.signalling + w'.signalling)
  }

  predicate Covers(c: Totals, w: Totals) {
    && w.active <= c.active && w.sleeping <= c.sleeping && w.waking <= c.waking && w.granted <= c.granted
    && w.inside <= c.inside && w.overfull <= c.overfull && w.otherwise <= c.otherwise
    && w.completed <= c.completed && w.signalling <= c.signalling
  }

  // ---- the invariant -------------------------------------------------------

  /** Each mutex has at most one holder, of one of these kinds. */
  predicate Locks(s: Shared, c: Totals) {
    && BoolToInt(s.ex) == c.sleeping + c.waking + c.granted + c.inside + c.overfull + c.otherwise
    && BoolToInt(s.sc) == c.completed
  }

  /** The readers inside are the difference of the two counters or, while a
      writer waits, the negated completed count. */
  predicate Readers(s: Shared, c: Totals) {
    if c.sleeping + c.waking > 0 then
      c.active == -s.completed
    else
      c.active == s.shared - s.completed && s.completed >= 0
  }

  /** A writer is inside only without readers, and alone. */
  predicate Writers(s: Shared, c: Totals) {
    && s.exclusive == c.inside
    && (c.granted + c.inside > 0 ==> c.active == 0 && s.shared == 0 && s.completed == 0)
  }

  /** A writer asleep with no reader left has been signalled or is about to be. */
  predicate NoLostSignal(s: Shared, c: Totals) {
    c.sleeping > 0 && !s.awake ==> s.completed < 0 || c.signalling > 0
  }

  predicate SharedInv(s: Shared, c: Totals) {
    && Locks(s, c) && Readers(s, c) && Writers(s, c) && NoLostSignal(s, c)
    && 0 <= s.shared < INT_MAX + c.overfull
  }

  ghost predicate Inv(s: State) {
    SharedInv(s.rw, Tally(s.pc)) && |s.pc| < INT_MAX
  }

  // ---- every step keeps the invariant --------------------------------------

  lemma TallyUpdate(pc: seq<PC>, t: nat, p: PC)
    requires t < |pc|
    ensures Shifted(Tally(pc), Weights(pc[t]), Weights(p), Tally(pc[t := p]))
  {
    SumUpdate(pc, t, p, Active);
    SumUpdate(pc, t, p, Sleeping);
    SumUpdate(pc, t, p, Waking);
    SumUpdate(pc, t, p, Granted);
    SumUpdate(pc, t, p, Inside);
    SumUpdate(pc, t, p, Overfull);
    SumUpdate(pc, t, p, Otherwise);
    SumUpdate(pc, t, p, HoldsCompleted);
    SumUpdate(pc, t, p, Signalling);
  }

  lemma TallyCovers(pc: seq<PC>, t: nat)
    requires t < |pc|
    ensures Covers(Tally(pc), Weights(pc[t])) && Tally(pc).active <= |pc|
    ensures Covers(Tally(pc), NONE)
  {
    SumAtLeast(pc, t, Active);
    SumAtLeast(pc, t, Sleeping);
    SumAtLeast(pc, t, Waking);
    SumAtLeast(pc, t, Granted);
    SumAtLeast(pc, t, Inside);
    SumAtLeast(pc, t, Overfull);
    SumAtLeast(pc, t, Otherwise);
    SumAtLeast(pc, t, HoldsCompleted);
    SumAtLeast(pc, t, Signalling);
    SumAtMost(pc, Active);
  }

  predicate Accounted(s: Shared, p: PC, p': PC, c: Totals, c': Totals) {
    && SharedInv(s, c) && c.active < INT_MAX
    && Covers(c, Weights(p)) && Covers(c, NONE)
    && Shifted(c, Weights(p), Weights(p'), c')
  }

  lemma ReadKeeps(s: Shared, p: PC, s': Shared, p': PC, c: Totals, c': Totals)
    requires ReadStep(s, p, s', p') && Accounted(s, p, p', c, c')
    ensures SharedInv(s', c')
  {
    match p {
      case Idle =>
      case ReadCount =>
      case ReadFull =>
      case ReadNormalise =>
      case ReadNormalised =>
      case ReadAdmitted =>
    }
  }

  lemma CheckKeeps(s: Shared, s': Shared, p': PC, c: Totals, c': Totals)
    requires WriteStep(s, WriteCheck, s', p') && Accounted(s, WriteCheck, p', c, c')
    ensures SharedInv(s', c')
  {
  }

  lemma TryKeeps(s: Shared, s': Shared, p': PC, c: Totals, c': Totals)
    requires WriteStep(s, WriteTry, s', p') && Accounted(s, WriteTry, p', c, c')
    ensures SharedInv(s', c')
  {
  }

  lemma WriteKeeps(s: Shared, p: PC, s': Shared, p': PC, c: Totals, c': Totals)
    requires WriteStep(s, p, s', p') && Accounted(s, p, p', c, c')
    ensures SharedInv(s', c')
  {
    match p {
      case Idle =>
      case WriteLock =>
      case WriteCheck => CheckKeeps(s, s', p', c, c');
      case WriteTry => TryKeeps(s, s', p', c, c');
      case WriteGrant =>
    }
  }

  lemma WaitKeeps(s: Shared, p: PC, s': Shared, p': PC, c: Totals, c': Totals)
    requires WaitStep(s, p, s', p') && Accounted(s, p, p', c, c')
    ensures SharedInv(s', c')
  {
    match p {
      case WriteSleep =>
      case WriteWake(_) =>
      case WriteTest(_) =>
    }
  }

  lemma UnlockKeeps(s: Shared, p: PC, s': Shared, p': PC, c: Totals, c': Totals)
    requires UnlockStep(s, p, s', p') && Accounted(s, p, p', c, c')
    ensures SharedInv(s', c')
  {
    match p {
      case Reading =>
      case Writing =>
      case LeaveLock =>
      case LeaveCount =>
      case LeaveSignal =>
      case LeaveUnlock =>
      case DoneCount =>
      case DoneCompleted =>
      case DoneExclusive =>
    }
  }

  lemma StepKeepsInv(s: State, t: nat, s': State)
    requires Inv(s) && Step(s, t, s')
    ensures Inv(s')
  {
    var p, p' := s.pc[t], s'.pc[t];
    TallyUpdate(s.pc, t, p');
    TallyCovers(s.pc, t);
    if ReadStep(s.rw, p, s'.rw, p') {
      ReadKeeps(s.rw, p, s'.rw, p', Tally(s.pc), Tally(s'.pc));
    } else if WriteStep(s.rw, p, s'.rw, p') {
      WriteKeeps(s.rw, p, s'.rw, p', Tally(s.pc), Tally(s'.pc));
    } else if WaitStep(s.rw, p, s'.rw, p') {
      WaitKeeps(s.rw, p, s'.rw, p', Tally(s.pc), Tally(s'.pc));
    } else {
      UnlockKeeps(s.rw, p, s'.rw, p', Tally(s.pc), Tally(s'.pc));
    }
  }

  lemma InitInv(s: State)
    requires Init(s) && |s.pc| < INT_MAX
    ensures Inv(s)
  {
    SumAllAt(s.pc, Idle, Active);
    SumAllAt(s.pc, Idle, Sleeping);
    SumAllAt(s.pc, Idle, Waking);
    SumAllAt(s.pc, Idle, Granted);
    SumAllAt(s.pc, Idle, Inside);
    SumAllAt(s.pc, Idle, Overfull);
    SumAllAt(s.pc, Idle, Otherwise);
    SumAllAt(s.pc, Idle, HoldsCompleted);
    SumAllAt(s.pc, Idle, Signalling);
  }

  lemma {:induction false} RunKeepsInv(run: seq<State>, i: nat)
    requires i < |run| && IsRun(run)
    ensures Inv(run[i])
  {
    if i == 0 {
      InitInv(run[0]);
    } else {
      RunKeepsInv(run, i - 1);
      assert NextAt(run, i - 1);
      var t: nat :| Step(run[i - 1], t, run[i]);
      StepKeepsInv(run[i - 1], t, run[i]);
    }
  }

  // ---- what holds in every run ---------------------------------------------

  /** The counters give the number of readers inside, in both regimes. */
  lemma ReadersCounted(run: seq<State>, i: nat)
    requires i < |run| && IsRun(run)
    ensures var s, c := run[i].rw, Tally(run[i].pc);
      && (c.sleeping + c.waking == 0 ==> c.active == s.shared - s.completed)
      && (c.sleeping + c.waking > 0 ==> c.active == -s.completed)
      && 0 <= s.shared <= INT_MAX
  {
    RunKeepsInv(run, i);
    assert |run[i].pc| == 0 || Covers(Tally(run[i].pc), NONE) by {
      if |run[i].pc| > 0 {
        TallyCovers(run[i].pc, 0);
      }
    }
  }

  predicate IsReader(p: PC) {
    Weights(p).active > 0
  }

  predicate IsWriter(p: PC) {
    Weights(p).inside > 0
  }

  /** A writer excludes every reader and every other writer. */
  lemma WriterAlone(run: seq<State>, i: nat, t: nat, u: nat)
    requires i < |run| && IsRun(run) && t < |run[i].pc| && u < |run[i].pc| && t != u
    requires IsWriter(run[i].pc[t])
    ensures !IsReader(run[i].pc[u]) && !IsWriter(run[i].pc[u])
  {
    RunKeepsInv(run, i);
    SumPair(run[i].pc, t, u, Inside);
    SumAtLeast(run[i].pc, u, Active);
    TallyCovers(run[i].pc, t);
  }

  /** `pthread_rwlock_unlock` always takes the branch of the caller's own
      kind, and `pthread_rwlock_trywrlock` never finds a writer inside once it
      holds the mutexes, so it never returns EBUSY with both still locked. */
  lemma UnlockKnowsItsCaller(run: seq<State>, i: nat, t: nat)
    requires i < |run| && IsRun(run) && t < |run[i].pc|
    ensures run[i].pc[t].Reading? || run[i].pc[t].WriteTry? || run[i].pc[t].WriteCheck? ==> run[i].rw.exclusive == 0
    ensures run[i].pc[t].Writing? ==> run[i].rw.exclusive == 1
  {
    RunKeepsInv(run, i);
    TallyCovers(run[i].pc, t);
  }

  /** A writer that times out or is cancelled puts back the exact number of
      readers inside, and so does one that enters: then there are none. */
  lemma WaiterRestoresReaders(run: seq<State>, i: nat, t: nat)
    requires i + 1 < |run| && IsRun(run) && Step(run[i], t, run[i + 1])
    requires run[i].pc[t].WriteTest? && !run[i + 1].pc[t].WriteSleep?
    ensures var s, c := run[i + 1].rw, Tally(run[i + 1].pc);
      && s.completed == 0 && s.shared == c.active && c.active == Tally(run[i].pc).active
      && (run[i + 1].pc[t].WriteGrant? ==> c.active == 0)
  {
    RunKeepsInv(run, i);
    RunKeepsInv(run, i + 1);
    TallyUpdate(run[i].pc, t, run[i + 1].pc[t]);
    TallyCovers(run[i].pc, t);
  }

  /** A writer never sleeps through the departure of the last reader. */
  lemma NoLostWakeup(run: seq<State>, i: nat, t: nat)
    requires i < |run| && IsRun(run) && t < |run[i].pc| && run[i].pc[t].WriteSleep?
    ensures || run[i].rw.awake
            || Tally(run[i].pc).signalling > 0
            || (Tally(run[i].pc).active > 0 && run[i].rw.completed < 0)
  {
    RunKeepsInv(run, i);
    TallyCovers(run[i].pc, t);
  }

  // ---- progress ------------------------------------------------------------

  /** On the way out a reader waits only for mtxSharedAccessCompleted. */
  lemma LeaverCanAct(s: State, t: nat) returns (s': State)
    requires t < |s.pc| && IsLeaving(s.pc[t]) && (s.pc[t].LeaveLock? ==> !s.rw.sc)
    ensures Step(s, t, s')
  {
    var rw, p := s.rw, s.pc[t];
    match p {
      case Reading => p := if rw.exclusive == 0 then LeaveLock else DoneCount;
      case LeaveLock => rw, p := rw.(sc := true), LeaveCount;
      case LeaveCount =>
        rw, p := rw.(completed := rw.completed + 1), if rw.completed + 1 == 0 then LeaveSignal else LeaveUnlock;
      case LeaveSignal => rw, p := rw.(awake := true), LeaveUnlock;
      case LeaveUnlock => rw, p := rw.(sc := false), Idle;
      case _ =>
    }
    s' := State(rw, s.pc[t := p]);
  }

  predicate IsLeaving(p: PC) {
    p.Reading? || p.LeaveLock? || p.LeaveCount? || p.LeaveSignal? || p.LeaveUnlock?
  }

  /** While a writer sleeps, every thread that is inside or holds a mutex, but
      for the writer itself, is a reader on its way out. */
  lemma OthersLeave(s: State, t: nat, u: nat)
    requires Inv(s) && t < |s.pc| && u < |s.pc| && s.pc[t].WriteSleep? && u != t
    requires Active(s.pc[u]) + HoldsCompleted(s.pc[u]) + Signalling(s.pc[u]) > 0
    ensures IsLeaving(s.pc[u])
  {
    SumPair(s.pc, t, u, ExclusiveWeight);
    ExclusiveSum(s.pc);
  }

  /** Who holds mtxExclusiveAccess. */
  function ExclusiveWeight(p: PC): int {
    var w := Weights(p);
    w.sleeping + w.waking + w.granted + w.inside + w.overfull + w.otherwise
  }

  lemma {:induction false} ExclusiveSum(pc: seq<PC>)
    ensures var c := Tally(pc);
      Sum(pc, ExclusiveWeight) == c.sleeping + c.waking + c.granted + c.inside + c.overfull + c.otherwise
  {
    if pc != [] {
      ExclusiveSum(pc[..|pc| - 1]);
    }
  }

  /** The lock never wedges: while a writer sleeps without having been signalled,
      a reader still inside, or on its way out, can act. */
  lemma NeverStuck(run: seq<State>, i: nat, t: nat) returns (u: nat, s': State)
    requires i < |run| && IsRun(run) && t < |run[i].pc| && run[i].pc[t].WriteSleep? && !run[i].rw.awake
    ensures u < |run[i].pc| && IsLeaving(run[i].pc[u]) && Step(run[i], u, s')
  {
    RunKeepsInv(run, i);
    NoLostWakeup(run, i, t);
    var s := run[i];
    if s.rw.sc {
      u := SumWitness(s.pc, HoldsCompleted);
    } else if Tally(s.pc).signalling > 0 {
      u := SumWitness(s.pc, Signalling);
    } else {
      u := SumWitness(s.pc, Active);
    }
    OthersLeave(s, t, u);
    s' := LeaverCanAct(s, u);
  }

  // ---- what each call achieves ---------------------------------------------

  /** Whenever a writer looks, it gets in exactly when no reader is inside.  If
      there is one, a blocking call sleeps, a try lock gives up, and a wait that
      timed out gives up in either case.  A failed try leaves the number of
      readers in nSharedAccessCount. */
  lemma WriterOutcome(run: seq<State>, i: nat, t: nat, s': State)
    requires i < |run| && IsRun(run) && Step(run[i], t, s')
    ensures var p, p', readers := run[i].pc[t], s'.pc[t], Tally(run[i].pc).active;
      && (p.WriteCheck? ==> p' == if readers == 0 then WriteGrant else WriteSleep)
      && (p.WriteTry? ==> p' == if readers == 0 then Writing else DoneCompleted)
      && (p.WriteTest? ==> p' == if !p.ok then DoneCompleted else if readers == 0 then WriteGrant else WriteSleep)
      && (p.WriteGrant? ==> p' == Writing)
      && (p.WriteTry? && readers > 0 ==> s'.rw.shared == readers && s'.rw.completed == 0)
  {
    RunKeepsInv(run, i);
    TallyCovers(run[i].pc, t);
    LooksRight(run[i].rw, run[i].pc[t], s'.rw, s'.pc[t], Tally(run[i].pc));
  }

  lemma LooksRight(s: Shared, p: PC, s': Shared, p': PC, c: Totals)
    requires ThreadStep(s, p, s', p') && SharedInv(s, c) && Covers(c, Weights(p)) && Covers(c, NONE)
    ensures p.WriteCheck? ==> p' == if c.active == 0 then WriteGrant else WriteSleep
    ensures p.WriteTry? ==> p' == if c.active == 0 then Writing else DoneCompleted
    ensures p.WriteTest? ==> p' == if !p.ok then DoneCompleted else if c.active == 0 then WriteGrant else WriteSleep
    ensures p.WriteGrant? ==> p' == Writing
    ensures p.WriteTry? && c.active > 0 ==> s'.shared == c.active && s'.completed == 0
  {
  }

  /** Only a taken mutex makes a thread wait. */
  predicate Blocked(s: Shared, p: PC) {
    match p
    case Idle => s.ex
    case ReadFull => s.sc
    case LeaveLock => s.sc
    case WriteLock => s.sc
    case WriteWake(_) => s.sc
    case _ => false
  }

  lemma ReaderCanAct(s: State, t: nat) returns (s': State)
    requires t < |s.pc| && !Blocked(s.rw, s.pc[t]) && (s.pc[t].Idle? || s.pc[t].ReadCount? || s.pc[t].ReadFull?
             || s.pc[t].ReadNormalise? || s.pc[t].ReadNormalised? || s.pc[t].ReadAdmitted?)
    ensures Step(s, t, s') && (s.pc[t].Idle? ==> s'.pc[t] == ReadCount)
  {
    var rw, p := s.rw, s.pc[t];
    match p {
      case Idle => rw, p := rw.(ex := true), ReadCount;
      case ReadCount => rw, p := rw.(shared := rw.shared + 1), if rw.shared + 1 == INT_MAX then ReadFull else ReadAdmitted;
      case ReadFull => rw, p := rw.(sc := true), ReadNormalise;
      case ReadNormalise => rw, p := rw.(shared := rw.shared - rw.completed, completed := 0), ReadNormalised;
      case ReadNormalised => rw, p := rw.(sc := false), ReadAdmitted;
      case ReadAdmitted => rw, p := rw.(ex := false), Reading;
      case _ =>
    }
    s' := State(rw, s.pc[t := p]);
  }

  lemma WriterCanAct(s: State, t: nat) returns (s': State)
    requires t < |s.pc| && !Blocked(s.rw, s.pc[t]) && (s.pc[t].Idle? || s.pc[t].WriteLock? || s.pc[t].WriteCheck?
             || s.pc[t].WriteTry? || s.pc[t].WriteGrant? || s.pc[t].Writing?)
    ensures Step(s, t, s') && (s.pc[t].Idle? ==> s'.pc[t] == WriteLock) && (s.pc[t].WriteLock? ==> s'.pc[t] == WriteCheck)
  {
    var rw, p := s.rw, s.pc[t];
    match p {
      case Idle => rw, p := rw.(ex := true), WriteLock;
      case WriteLock => rw, p := rw.(sc := true), WriteCheck;
      case WriteCheck =>
        if rw.exclusive != 0 {
          p := WriteGrant;
        } else {
          var f := Folded(rw);
          if f.shared > 0 {
            rw, p := f.(completed := -f.shared, sc := false, awake := false), WriteSleep;
          } else {
            rw, p := f, WriteGrant;
          }
        }
      case WriteTry =>
        if rw.exclusive != 0 {
          p := Idle;
        } else {
          var f := Folded(rw);
          if f.shared > 0 {
            rw, p := f, DoneCompleted;
          } else {
            rw, p := f.(exclusive := 1), Writing;
          }
        }
      case WriteGrant => rw, p := rw.(exclusive := rw.exclusive + 1), Writing;
      case Writing => p := if rw.exclusive == 0 then LeaveLock else DoneCount;
      case _ =>
    }
    s' := State(rw, s.pc[t := p]);
  }

  lemma WaiterCanAct(s: State, t: nat) returns (s': State)
    requires t < |s.pc| && !Blocked(s.rw, s.pc[t]) && (s.pc[t].WriteSleep? || s.pc[t].WriteWake? || s.pc[t].WriteTest?
             || s.pc[t].DoneCount? || s.pc[t].DoneCompleted? || s.pc[t].DoneExclusive?)
    ensures Step(s, t, s') && (s.pc[t].WriteSleep? ==> s'.pc[t] == WriteWake(true))
  {
    var rw, p := s.rw, s.pc[t];
    match p {
      case WriteSleep => rw, p := rw.(awake := false), WriteWake(true);
      case WriteWake(ok) => rw, p := rw.(sc := true), WriteTest(ok);
      case WriteTest(ok) =>
        if ok && rw.completed < 0 {
          rw, p := rw.(sc := false, awake := false), WriteSleep;
        } else if ok {
          rw, p := rw.(shared := 0), WriteGrant;
        } else {
          rw, p := rw.(shared := -rw.completed, completed := 0), DoneCompleted;
        }
      case DoneCount => rw, p := rw.(exclusive := rw.exclusive - 1), DoneCompleted;
      case DoneCompleted => rw, p := rw.(sc := false), DoneExclusive;
      case DoneExclusive => rw, p := rw.(ex := false), Idle;
      case _ =>
    }
    s' := State(rw, s.pc[t := p]);
  }

  /** Every thread that is not waiting for a mutex can act; a sleeping writer can
      wake up; an idle thread can begin to read or to write. */
  lemma CanAct(s: State, t: nat) returns (s': State, write: State)
    requires t < |s.pc| && !Blocked(s.rw, s.pc[t])
    ensures Step(s, t, s')
    ensures s.pc[t].Idle? ==> s'.pc[t] == ReadCount && Step(s, t, write) && write.pc[t] == WriteLock
  {
    write := s;
    if s.pc[t].Idle? {
      s' := ReaderCanAct(s, t);
      write := WriterCanAct(s, t);
    } else if IsLeaving(s.pc[t]) {
      s' := LeaverCanAct(s, t);
    } else if s.pc[t].ReadCount? || s.pc[t].ReadFull? || s.pc[t].ReadNormalise? || s.pc[t].ReadNormalised? || s.pc[t].ReadAdmitted? {
      s' := ReaderCanAct(s, t);
    } else if s.pc[t].WriteLock? || s.pc[t].WriteCheck? || s.pc[t].WriteTry? || s.pc[t].WriteGrant? || s.pc[t].Writing? {
      s' := WriterCanAct(s, t);
    } else {
      s' := WaiterCanAct(s, t);
    }
  }

  /** A writer may try instead of waiting, or give up; a sleeping one may time
      out or be cancelled. */
  lemma CanChoose(s: State, t: nat) returns (try: State, leave: State, timeout: State)
    requires t < |s.pc|
    ensures s.pc[t].WriteLock? && !s.rw.sc ==> Step(s, t, try) && try.pc[t] == WriteTry
    ensures s.pc[t].WriteLock? ==> Step(s, t, leave) && leave.pc[t] == DoneExclusive && leave.rw == s.rw
    ensures s.pc[t].WriteSleep? ==> Step(s, t, timeout) && timeout.pc[t] == WriteWake(false)
  {
    try := State(s.rw.(sc := true), s.pc[t := WriteTry]);
    leave := State(s.rw, s.pc[t := DoneExclusive]);
    timeout := State(s.rw.(awake := false), s.pc[t := WriteWake(false)]);
  }

  /** A leaving reader signals exactly when a writer waits and no other reader is
      inside. */
  lemma SignalsExactlyWhenLast(run: seq<State>, i: nat, t: nat, s': State)
    requires i < |run| && IsRun(run) && Step(run[i], t, s') && run[i].pc[t].LeaveCount?
    ensures var c := Tally(run[i].pc);
      s'.pc[t] == if c.active == 1 && c.sleeping + c.waking > 0 then LeaveSignal else LeaveUnlock
  {
    RunKeepsInv(run, i);
    TallyCovers(run[i].pc, t);
  }
}
