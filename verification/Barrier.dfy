/** `pthread_barrier_wait` over unboundedly many rounds, as interleaved atomic
    actions.

    The MCS lock is a plain lock here.  The last arriver moves its queue node
    into the barrier, so from then on the barrier itself holds the lock until
    the last thread out releases it.  `current` and `finished` are a history:
    who was counted in, who was counted out and who was told that it is the
    serial thread. */
module Barrier {
  import opened Counting

  datatype PC =
    | Idle
    | ReadHeight             // holds the lock
    | WriteHeight(tmp: int)  // holds the lock, has read nCurrentBarrierHeight
    | Depart                 // holds the lock, counted in
    | Block                  // in ptw32_semwait, counted in
    | Release                // last arriver, about to post the semaphore
    | Cross                  // about to be counted out
    | Unlock                 // last out, about to release the barrier's lock

  datatype Round = Round(arrived: set<nat>, left: set<nat>, serial: seq<nat>)

  const EMPTY := Round({}, {}, [])

  datatype Shared = Shared(
    initial: int,      // nInitialBarrierHeight
    height: int,       // nCurrentBarrierHeight
    sem: int,          // semBarrierBreeched
    lock: bool,
    current: Round,
    finished: seq<Round>)

  datatype State = State(b: Shared, pc: seq<PC>)

  ghost predicate Init(s: State) {
    && s.b.initial >= 1
    && s.b == Shared(s.b.initial, s.b.initial, 0, false, EMPTY, [])
    && forall t :: 0 <= t < |s.pc| ==> s.pc[t] == Idle
  }

  /** Before the barrier opens.  The decrement is a read and a write. */
  predicate ArriveStep(s: Shared, t: nat, p: PC, s': Shared, p': PC) {
    match p
    case Idle =>
      !s.lock && s' == s.(lock := true) && p' == ReadHeight
    case ReadHeight =>
      s' == s && p' == WriteHeight(s.height)
    case WriteHeight(tmp) =>
      && s' == s.(height := tmp - 1, current := s.current.(arrived := s.current.arrived + {t}))
      && p' == if tmp - 1 == 0 then Release else Depart
    case Depart =>
      s' == s.(lock := false) && p' == Block
    case _ => false
  }

  /** After it opens. */
  predicate LeaveStep(s: Shared, t: nat, p: PC, s': Shared, p': PC) {
    match p
    case Block =>
      s.sem > 0 && s' == s.(sem := s.sem - 1) && p' == Cross
    case Release =>
      s' == s.(sem := if s.initial > 1 then s.sem + (s.initial - 1) else s.sem) && p' == Cross
    case Cross =>
      var out := s.current.(left := s.current.left + {t});
      if s.height + 1 == s.initial then
        && s' == s.(height := s.height + 1, current := EMPTY, finished := s.finished + [out.(serial := out.serial + [t])])
        && p' == Unlock
      else
        s' == s.(height := s.height + 1, current := out) && p' == Idle
    case Unlock =>
      s' == s.(lock := false) && p' == Idle
    case _ => false
  }

  predicate ThreadStep(s: Shared, t: nat, p: PC, s': Shared, p': PC) {
    ArriveStep(s, t, p, s', p') || LeaveStep(s, t, p, s', p')
  }

  ghost predicate Step(s: State, t: nat, s': State) {
    && t < |s.pc| == |s'.pc|
    && s'.pc == s.pc[t := s'.pc[t]]
    && ThreadStep(s.b, t, s.pc[t], s'.b, s'.pc[t])
  }

  ghost predicate Next(s: State, s': State) {
    exists t: nat :: Step(s, t, s')
  }

  ghost predicate NextAt(run: seq<State>, i: nat) {
    i + 1 < |run| && Next(run[i], run[i + 1])
  }

  ghost predicate IsRun(run: seq<State>) {
    |run| > 0 && Init(run[0]) && forall i: nat :: i < |run| - 1 ==> NextAt(run, i)
  }

  // ---- weights -------------------------------------------------------------

  datatype Totals = Totals(reading: int, departing: int, blocked: int, releasing: int, crossing: int, unlocking: int)

  const NONE := Totals(0, 0, 0, 0, 0, 0)

  function Weights(p: PC): Totals {
    match p
    case Idle => NONE
    case ReadHeight => NONE.(reading := 1)
    case WriteHeight(_) => NONE.(reading := 1)
    case Depart => NONE.(departing := 1)
    case Block => NONE.(blocked := 1)
    case Release => NONE.(releasing := 1)
    case Cross => NONE.(crossing := 1)
    case Unlock => NONE.(unlocking := 1)
  }

  function Readers(p: PC): int { Weights(p).reading }
  function Departing(p: PC): int { Weights(p).departing }
  function Blocked(p: PC): int { Weights(p).blocked }
  function Releasing(p: PC): int { Weights(p).releasing }
  function Crossing(p: PC): int { Weights(p).crossing }
  function Unlocking(p: PC): int { Weights(p).unlocking }

  function Tally(pc: seq<PC>): Totals {
    Totals(Sum(pc, Readers), Sum(pc, Departing), Sum(pc, Blocked), Sum(pc, Releasing), Sum(pc, Crossing),
           Sum(pc, Unlocking))
  }

  predicate Shifted(c: Totals, w: Totals, w': Totals, c': Totals) {
    c' == Totals(c.reading - w.reading + w'.reading, c.departing - w.departing + w'.departing,
                 c.blocked - w.blocked + w'.blocked, c.releasing - w.releasing + w'.releasing,
                 c.crossing - w.crossing + w'.crossing, c.unlocking - w.unlocking + w'.unlocking)
  }

  predicate Covers(c: Totals, w: Totals) {
    && w.reading <= c.reading && w.departing <= c.departing && w.blocked <= c.blocked
    && w.releasing <= c.releasing && w.crossing <= c.crossing && w.unlocking <= c.unlocking
  }

  /** Counted in and not yet counted out. */
  predicate InFlight(p: PC) {
    p.Depart? || p.Block? || p.Release? || p.Cross?
  }

  // ---- the invariant -------------------------------------------------------

  /** While the round fills up. */
  predicate Filling(s: Shared, c: Totals) {
    && s.height == s.initial - |s.current.arrived| && s.sem == 0 && s.current.left == {}
    && c.blocked + c.departing == |s.current.arrived| && c.releasing == 0 && c.crossing == 0
  }

  /** While the round drains. */
  predicate Draining(s: Shared, c: Totals) {
    && s.height == |s.current.left| < s.initial
    && c.blocked + c.releasing + c.crossing == s.initial - |s.current.left|
    && (c.releasing == 0 ==> s.sem == c.blocked)
    && (c.releasing > 0 ==> c.releasing == 1 && s.sem == 0 && c.blocked == s.initial - 1)
  }

  predicate SharedInv(s: Shared, c: Totals) {
    && s.initial >= 1 && |s.current.arrived| <= s.initial && s.current.serial == []
    && BoolToInt(s.lock) == c.reading + c.departing + c.unlocking + BoolToInt(|s.current.arrived| == s.initial)
    && if |s.current.arrived| < s.initial then Filling(s, c) else Draining(s, c)
  }

  /** A finished round: `n` different threads came in, the same threads went
      out, and exactly one of them was told that it is the serial thread. */
  ghost predicate Complete(r: Round, n: int) {
    |r.arrived| == n && r.left == r.arrived && |r.serial| == 1 && r.serial[0] in r.left
  }

  /** What thread `u` owes the current round: it was counted in, and it is
      either counted out or still in flight. */
  predicate Owes(r: Round, u: nat, p: PC) {
    && (u in r.arrived <==> u in r.left || InFlight(p))
    && !(u in r.left && InFlight(p))
  }

  ghost predicate HistoryInv(s: State) {
    && (forall u :: 0 <= u < |s.pc| ==> Owes(s.b.current, u, s.pc[u]))
    && (forall u :: u in s.b.current.arrived || u in s.b.current.left ==> u < |s.pc|)
    && (forall k :: 0 <= k < |s.b.finished| ==> Complete(s.b.finished[k], s.b.initial))
  }

  predicate HeightInv(s: State) {
    forall u :: 0 <= u < |s.pc| && s.pc[u].WriteHeight? ==> s.pc[u].tmp == s.b.height
  }

  ghost predicate Inv(s: State) {
    SharedInv(s.b, Tally(s.pc)) && HistoryInv(s) && HeightInv(s)
  }

  // ---- every step keeps the invariant --------------------------------------

  lemma TallyUpdate(pc: seq<PC>, t: nat, p: PC)
    requires t < |pc|
    ensures Shifted(Tally(pc), Weights(pc[t]), Weights(p), Tally(pc[t := p]))
  {
    SumUpdate(pc, t, p, Readers);
    SumUpdate(pc, t, p, Departing);
    SumUpdate(pc, t, p, Blocked);
    SumUpdate(pc, t, p, Releasing);
    SumUpdate(pc, t, p, Crossing);
    SumUpdate(pc, t, p, Unlocking);
  }

  lemma TallyCovers(pc: seq<PC>, t: nat)
    requires t < |pc|
    ensures Covers(Tally(pc), Weights(pc[t])) && Covers(Tally(pc), NONE)
  {
    SumAtLeast(pc, t, Readers);
    SumAtLeast(pc, t, Departing);
    SumAtLeast(pc, t, Blocked);
    SumAtLeast(pc, t, Releasing);
    SumAtLeast(pc, t, Crossing);
    SumAtLeast(pc, t, Unlocking);
  }

  lemma ArriveKeepsShared(s: Shared, t: nat, p: PC, s': Shared, p': PC, c: Totals, c': Totals)
    requires ArriveStep(s, t, p, s', p') && SharedInv(s, c)
    requires p.WriteHeight? ==> p.tmp == s.height && t !in s.current.arrived
    requires p.Cross? ==> t !in s.current.left
    requires Covers(c, Weights(p)) && Covers(c, NONE) && Shifted(c, Weights(p), Weights(p'), c')
    ensures SharedInv(s', c')
    ensures p.WriteHeight? ==> |s.current.arrived| < s.initial
    ensures p.Cross? ==> |s.current.arrived| == s.initial
  {
  }

  lemma LeaveKeepsShared(s: Shared, t: nat, p: PC, s': Shared, p': PC, c: Totals, c': Totals)
    requires LeaveStep(s, t, p, s', p') && SharedInv(s, c)
    requires p.WriteHeight? ==> p.tmp == s.height && t !in s.current.arrived
    requires p.Cross? ==> t !in s.current.left
    requires Covers(c, Weights(p)) && Covers(c, NONE) && Shifted(c, Weights(p), Weights(p'), c')
    ensures SharedInv(s', c')
    ensures p.WriteHeight? ==> |s.current.arrived| < s.initial
    ensures p.Cross? ==> |s.current.arrived| == s.initial
  {
  }

  lemma StepKeepsShared(s: Shared, t: nat, p: PC, s': Shared, p': PC, c: Totals, c': Totals)
    requires ThreadStep(s, t, p, s', p') && SharedInv(s, c)
    requires p.WriteHeight? ==> p.tmp == s.height && t !in s.current.arrived
    requires p.Cross? ==> t !in s.current.left
    requires Covers(c, Weights(p)) && Covers(c, NONE) && Shifted(c, Weights(p), Weights(p'), c')
    ensures SharedInv(s', c')
    ensures p.WriteHeight? ==> |s.current.arrived| < s.initial
    ensures p.Cross? ==> |s.current.arrived| == s.initial
  {
    if ArriveStep(s, t, p, s', p') {
      ArriveKeepsShared(s, t, p, s', p', c, c');
    } else {
      LeaveKeepsShared(s, t, p, s', p', c, c');
    }
  }

  /** At most one thread reads and writes the height, and never while others
      cross. */
  lemma HeightStable(s: State, t: nat, s': State, u: nat)
    requires Inv(s) && Step(s, t, s') && u < |s.pc| && u != t && s.pc[u].WriteHeight?
    ensures s'.b.height == s.b.height
  {
    SumPair(s.pc, t, u, Readers);
    TallyCovers(s.pc, t);
    TallyCovers(s.pc, u);
  }

  /** Only the crossing thread is still in flight when it brings the height
      back to its initial value. */
  lemma LastOut(s: State, t: nat, u: nat)
    requires Inv(s) && t < |s.pc| && u < |s.pc| && u != t && s.pc[t].Cross? && s.b.height + 1 == s.b.initial
    ensures !InFlight(s.pc[u])
  {
    SumPair(s.pc, t, u, Crossing);
    TallyCovers(s.pc, t);
    TallyCovers(s.pc, u);
  }

  lemma RoundCompletes(s: State, t: nat)
    requires Inv(s) && t < |s.pc| && s.pc[t].Cross? && s.b.height + 1 == s.b.initial
    ensures var r := s.b.current; Complete(Round(r.arrived, r.left + {t}, r.serial + [t]), s.b.initial)
  {
    var r := s.b.current;
    TallyCovers(s.pc, t);
    assert Owes(r, t, s.pc[t]);
    forall u | u in r.arrived || u in r.left ensures u == t || (u in r.arrived && u in r.left) {
      assert Owes(r, u, s.pc[u]);
      if u != t {
        LastOut(s, t, u);
      }
    }
    assert r.left + {t} == r.arrived;
  }

  lemma OwesKept(s: State, t: nat, s': State, u: nat)
    requires Inv(s) && Step(s, t, s') && u < |s.pc|
    requires s.pc[t].WriteHeight? ==> |s.b.current.arrived| < s.b.initial
    ensures Owes(s'.b.current, u, s'.pc[u])
  {
    assert Owes(s.b.current, u, s.pc[u]);
    if s.pc[t].Cross? && s.b.height + 1 == s.b.initial && u != t {
      LastOut(s, t, u);
    }
  }

  lemma HistoryKept(s: State, t: nat, s': State)
    requires Inv(s) && Step(s, t, s')
    requires s.pc[t].WriteHeight? ==> |s.b.current.arrived| < s.b.initial
    ensures HistoryInv(s')
  {
    forall u | 0 <= u < |s'.pc| ensures Owes(s'.b.current, u, s'.pc[u]) {
      OwesKept(s, t, s', u);
    }
    if s.pc[t].Cross? && s.b.height + 1 == s.b.initial {
      RoundCompletes(s, t);
    }
  }

  lemma HeightKept(s: State, t: nat, s': State)
    requires Inv(s) && Step(s, t, s')
    ensures HeightInv(s')
  {
    forall u | 0 <= u < |s'.pc| && s'.pc[u].WriteHeight? ensures s'.pc[u].tmp == s'.b.height {
      if u != t {
        HeightStable(s, t, s', u);
      }
    }
  }

  lemma StepKeepsInv(s: State, t: nat, s': State)
    requires Inv(s) && Step(s, t, s')
    ensures Inv(s')
  {
    TallyUpdate(s.pc, t, s'.pc[t]);
    TallyCovers(s.pc, t);
    assert Owes(s.b.current, t, s.pc[t]);
    StepKeepsShared(s.b, t, s.pc[t], s'.b, s'.pc[t], Tally(s.pc), Tally(s'.pc));
    HistoryKept(s, t, s');
    HeightKept(s, t, s');
  }

  lemma TallyIdle(pc: seq<PC>)
    requires forall t :: 0 <= t < |pc| ==> pc[t] == Idle
    ensures Tally(pc) == NONE
  {
    SumAllAt(pc, Idle, Readers);
    SumAllAt(pc, Idle, Departing);
    SumAllAt(pc, Idle, Blocked);
    SumAllAt(pc, Idle, Releasing);
    SumAllAt(pc, Idle, Crossing);
    SumAllAt(pc, Idle, Unlocking);
  }

  lemma StartInv(b: Shared, c: Totals)
    requires c == NONE && b.initial >= 1 && b == Shared(b.initial, b.initial, 0, false, EMPTY, [])
    ensures SharedInv(b, c)
  {
  }

  lemma InitInv(s: State)
    requires Init(s)
    ensures Inv(s)
  {
    TallyIdle(s.pc);
    StartInv(s.b, Tally(s.pc));
  }

  lemma {:induction false} RunKeepsInv(run: seq<State>, i: nat)
    requires i < |run| && IsRun(run)
    ensures Inv(run[i])
  {
    if i == 0 {
      InitInv(run[0]);
    } else {
      RunKeepsInv(run, i - 1);
      assert NextAt(run, i - 1);
      var t: nat :| Step(run[i - 1], t, run[i]);
      StepKeepsInv(run[i - 1], t, run[i]);
    }
  }

  // ---- what holds in every run ---------------------------------------------

  /** Every finished round had exactly `initial` different threads in, the same
      threads out, and one serial thread. */
  lemma RoundsAreComplete(run: seq<State>, i: nat, k: nat)
    requires i < |run| && IsRun(run) && k < |run[i].b.finished|
    ensures Complete(run[i].b.finished[k], run[i].b.initial)
  {
    RunKeepsInv(run, i);
  }

  /** Nobody is counted out before all have been counted in, and nobody is
      counted in while some of the previous round have not been counted out. */
  lemma RoundsDoNotOverlap(run: seq<State>, i: nat, t: nat)
    requires i + 1 < |run| && IsRun(run) && Step(run[i], t, run[i + 1])
    ensures run[i].pc[t].Cross? ==> |run[i].b.current.arrived| == run[i].b.initial
    ensures run[i].pc[t].WriteHeight? ==>
      && |run[i].b.current.arrived| < run[i].b.initial && run[i].b.current.left == {}
      && run[i].pc[t].tmp == run[i].b.height
  {
    RunKeepsInv(run, i);
    TallyUpdate(run[i].pc, t, run[i + 1].pc[t]);
    TallyCovers(run[i].pc, t);
    assert Owes(run[i].b.current, t, run[i].pc[t]);
    StepKeepsShared(run[i].b, t, run[i].pc[t], run[i + 1].b, run[i + 1].pc[t], Tally(run[i].pc), Tally(run[i + 1].pc));
  }

  /** Between rounds the semaphore is empty and the height is full again. */
  lemma ResetBetweenRounds(run: seq<State>, i: nat)
    requires i < |run| && IsRun(run) && run[i].b.current.arrived == {}
    ensures run[i].b.sem == 0 && run[i].b.height == run[i].b.initial && run[i].b.current == EMPTY
    ensures forall u :: 0 <= u < |run[i].pc| ==> !InFlight(run[i].pc[u])
  {
    RunKeepsInv(run, i);
    assert forall u :: 0 <= u < |run[i].pc| ==> Owes(run[i].b.current, u, run[i].pc[u]);
  }

  // ---- progress ------------------------------------------------------------

  /** Only an empty semaphore or a taken lock makes a thread wait. */
  lemma CanAct(s: State, t: nat) returns (s': State)
    requires t < |s.pc| && !s.pc[t].Idle? && (s.pc[t].Block? ==> s.b.sem > 0)
    ensures Step(s, t, s')
  {
    var b, p := s.b, s.pc[t];
    match p {
      case ReadHeight => p := WriteHeight(b.height);
      case WriteHeight(tmp) =>
        b := b.(height := tmp - 1, current := b.current.(arrived := b.current.arrived + {t}));
        p := if tmp - 1 == 0 then Release else Depart;
      case Depart => b, p := b.(lock := false), Block;
      case Block => b, p := b.(sem := b.sem - 1), Cross;
      case Release => b, p := b.(sem := if b.initial > 1 then b.sem + (b.initial - 1) else b.sem), Cross;
      case Cross =>
        var out := b.current.(left := b.current.left + {t});
        if b.height + 1 == b.initial {
          b, p := b.(height := b.height + 1, current := EMPTY, finished := b.finished + [out.(serial := out.serial + [t])]), Unlock;
        } else {
          b, p := b.(height := b.height + 1, current := out), Idle;
        }
      case Unlock => b, p := b.(lock := false), Idle;
    }
    s' := State(b, s.pc[t := p]);
  }

  /** The barrier never wedges: while its lock is taken, and so all the while a
      round drains, some thread inside can act without anybody arriving. */
  lemma NeverStuck(run: seq<State>, i: nat) returns (t: nat, s': State)
    requires i < |run| && IsRun(run) && (run[i].b.lock || |run[i].b.current.arrived| == run[i].b.initial)
    ensures t < |run[i].pc| && !run[i].pc[t].Idle? && Step(run[i], t, s')
  {
    RunKeepsInv(run, i);
    var pc, c := run[i].pc, Tally(run[i].pc);
    SumNonNegative(pc, Releasing);
    SumNonNegative(pc, Crossing);
    if c.reading > 0 {
      t := SumWitness(pc, Readers);
    } else if c.departing > 0 {
      t := SumWitness(pc, Departing);
    } else if c.unlocking > 0 {
      t := SumWitness(pc, Unlocking);
    } else if c.releasing > 0 {
      t := SumWitness(pc, Releasing);
    } else if c.crossing > 0 {
      t := SumWitness(pc, Crossing);
    } else {
      t := SumWitness(pc, Blocked);
    }
    s' := CanAct(run[i], t);
  }

  /** A thread can arrive whenever the lock is free. */
  lemma CanArrive(s: State, t: nat) returns (s': State)
    requires t < |s.pc| && s.pc[t].Idle? && !s.b.lock
    ensures Step(s, t, s') && s'.pc[t] == ReadHeight
  {
    s' := State(s.b.(lock := true), s.pc[t := ReadHeight]);
  }
}
