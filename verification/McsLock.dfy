/** The MCS queue lock of ptw32_MCS_lock.c as interleaved atomic actions.

    An agent is one acquisition, with a queue node of its own; agents stand in
    the order of their exchanges on the tail, and `served` of them have passed
    the lock on.  A node may serve again once it has been released and nobody
    is about to flag it.  Initialising a node before it is published is part of
    the exchange.  Node 0 is the null pointer. */
module McsLock {

  /** A flag word: 0, -1, or the handle of an event with its signalled bit. */
  datatype Flag = Clear | Set | Handle(signalled: bool)
  {
    predicate Raised() { Set? || (Handle? && signalled) }
  }

  /** `owner` is a history annotation: the agent the node was made for. */
  datatype Node = Node(owner: nat, next: nat, nextFlag: Flag, readyFlag: Flag)

  function Fresh(owner: nat): Node { Node(owner, 0, Clear, Clear) }

  datatype PC =
    // ptw32_mcs_lock_acquire behind a predecessor
    | Link(pred: nat)
    | NextCas(pred: nat)        // ptw32_mcs_flag_set (&pred->nextFlag)
    | NextEvent(pred: nat)
    | ReadyRead                 // ptw32_mcs_flag_wait (&node->readyFlag)
    | ReadyCas
    | ReadyWait
    | Held
    // ptw32_mcs_lock_release
    | RelCas                    // saw no successor
    | RelFlagRead               // ptw32_mcs_flag_wait (&node->nextFlag)
    | RelFlagCas
    | RelFlagWait
    | RelReread
    | PassCas(next: nat)        // ptw32_mcs_flag_set (&next->readyFlag)
    | PassEvent(next: nat)
    | Done
    // ptw32_mcs_node_transfer
    | MoveCas(spare: nat)
    | MoveSpin(spare: nat)
    | MoveCopy(spare: nat)

  datatype Agent = Agent(node: nat, pc: PC)

  datatype State = State(tail: nat, nodes: map<nat, Node>, q: seq<Agent>, served: nat)

  predicate Init(s: State) {
    s == State(0, map[], [], 0)
  }

  // ---- the atomic actions --------------------------------------------------

  /** About to link to, or to flag, the node `n`. */
  predicate Announcing(pc: PC, n: nat) {
    (pc.Link? || pc.NextCas? || pc.NextEvent?) && pc.pred == n
  }

  /** Preparing the node `n` for a transfer. */
  predicate Preparing(pc: PC, n: nat) {
    (pc.MoveCas? || pc.MoveSpin? || pc.MoveCopy?) && pc.spare == n
  }

  /** Nobody in the queue has the node `n` or prepares it. */
  ghost predicate Released(s: State, n: nat) {
    forall k :: s.served <= k < |s.q| ==> s.q[k].node != n && !Preparing(s.q[k].pc, n)
  }

  /** Nobody is about to link to it, or to flag it. */
  ghost predicate Quiet(s: State, n: nat) {
    forall k :: s.served <= k < |s.q| ==> !Announcing(s.q[k].pc, n)
  }

  /** A node that may be initialised: a new one, or one that has been released
      and that nobody announces itself to any more.  The code itself takes any
      node that its caller has released; `ReuseKeepsInvExactlyWhen` shows that
      this is the exact condition. */
  ghost predicate Usable(s: State, n: nat) {
    n != 0 && (n in s.nodes ==> Released(s, n) && Quiet(s, n))
  }

  /** The exchange (or, on a free lock, the successful compare-exchange of
      try_acquire) that publishes the node `n`, just initialised. */
  predicate Arrival(s: State, n: nat, s': State) {
    s' == s.(tail := n, nodes := s.nodes[n := Fresh(|s.q|)],
             q := s.q + [Agent(n, if s.tail == 0 then Held else Link(s.tail))])
  }

  ghost predicate ArriveStep(s: State, n: nat, s': State) {
    Usable(s, n) && Arrival(s, n, s')
  }

  /** A try_acquire that returns EBUSY leaves only its own node behind. */
  ghost predicate BusyStep(s: State, n: nat, s': State) {
    Usable(s, n) && s.tail != 0 && s' == s.(nodes := s.nodes[n := Fresh(|s.q|)])
  }

  /** Agent `k` moves to `pc` and the record of node `x` becomes `r`. */
  predicate Edit(s: State, k: nat, x: nat, r: Node, pc: PC, s': State) {
    && k < |s.q| && x in s.nodes
    && s' == s.(nodes := s.nodes[x := r], q := s.q[k := Agent(s.q[k].node, pc)])
  }

  predicate Goto(s: State, k: nat, pc: PC, s': State) {
    k < |s.q| && s' == s.(q := s.q[k := Agent(s.q[k].node, pc)])
  }

  function Me(s: State, k: nat): Node
    requires k < |s.q| && s.q[k].node in s.nodes
  {
    s.nodes[s.q[k].node]
  }

  predicate Can(s: State, k: nat) {
    k < |s.q| && s.q[k].node in s.nodes
  }

  predicate LinkStep(s: State, k: nat, s': State) {
    && Can(s, k) && s.q[k].pc.Link? && s.q[k].pc.pred in s.nodes
    && var p := s.q[k].pc.pred;
       Edit(s, k, p, s.nodes[p].(next := s.q[k].node), NextCas(p), s')
  }

  predicate NextCasStep(s: State, k: nat, s': State) {
    && Can(s, k) && s.q[k].pc.NextCas? && s.q[k].pc.pred in s.nodes
    && var p := s.q[k].pc.pred;
       if s.nodes[p].nextFlag == Clear then Edit(s, k, p, s.nodes[p].(nextFlag := Set), ReadyRead, s')
       else Goto(s, k, NextEvent(p), s')
  }

  predicate NextEventStep(s: State, k: nat, s': State) {
    && Can(s, k) && s.q[k].pc.NextEvent? && s.q[k].pc.pred in s.nodes
    && var p := s.q[k].pc.pred;
       if s.nodes[p].nextFlag.Handle? then Edit(s, k, p, s.nodes[p].(nextFlag := Handle(true)), ReadyRead, s')
       else Goto(s, k, ReadyRead, s')
  }

  predicate ReadyReadStep(s: State, k: nat, s': State) {
    Can(s, k) && s.q[k].pc.ReadyRead? && Goto(s, k, if Me(s, k).readyFlag == Clear then ReadyCas else Held, s')
  }

  predicate ReadyCasStep(s: State, k: nat, s': State) {
    && Can(s, k) && s.q[k].pc.ReadyCas?
    && if Me(s, k).readyFlag == Clear
       then Edit(s, k, s.q[k].node, Me(s, k).(readyFlag := Handle(false)), ReadyWait, s')
       else Goto(s, k, Held, s')
  }

  predicate ReadyWaitStep(s: State, k: nat, s': State) {
    Can(s, k) && s.q[k].pc.ReadyWait? && Me(s, k).readyFlag.Raised() && Goto(s, k, Held, s')
  }

  predicate ReleaseStep(s: State, k: nat, s': State) {
    && Can(s, k) && s.q[k].pc.Held?
    && Goto(s, k, if Me(s, k).next == 0 then RelCas else PassCas(Me(s, k).next), s')
  }

  predicate RelCasStep(s: State, k: nat, s': State) {
    && Can(s, k) && s.q[k].pc.RelCas?
    && if s.tail == s.q[k].node
       then s' == s.(tail := 0, served := s.served + 1, q := s.q[k := Agent(s.q[k].node, Done)])
       else Goto(s, k, RelFlagRead, s')
  }

  predicate RelFlagReadStep(s: State, k: nat, s': State) {
    && Can(s, k) && s.q[k].pc.RelFlagRead?
    && Goto(s, k, if Me(s, k).nextFlag == Clear then RelFlagCas else RelReread, s')
  }

  predicate RelFlagCasStep(s: State, k: nat, s': State) {
    && Can(s, k) && s.q[k].pc.RelFlagCas?
    && if Me(s, k).nextFlag == Clear
       then Edit(s, k, s.q[k].node, Me(s, k).(nextFlag := Handle(false)), RelFlagWait, s')
       else Goto(s, k, RelReread, s')
  }

  predicate RelFlagWaitStep(s: State, k: nat, s': State) {
    Can(s, k) && s.q[k].pc.RelFlagWait? && Me(s, k).nextFlag.Raised() && Goto(s, k, RelReread, s')
  }

  predicate RelRereadStep(s: State, k: nat, s': State) {
    Can(s, k) && s.q[k].pc.RelReread? && Goto(s, k, PassCas(Me(s, k).next), s')
  }

  /** The ready flag `f` of node `x` is raised: the lock has been passed on. */
  predicate Passed(s: State, k: nat, x: nat, f: Flag, s': State) {
    && k < |s.q| && x in s.nodes
    && s' == s.(nodes := s.nodes[x := s.nodes[x].(readyFlag := f)], served := s.served + 1,
                q := s.q[k := Agent(s.q[k].node, Done)])
  }

  predicate PassCasStep(s: State, k: nat, s': State) {
    && Can(s, k) && s.q[k].pc.PassCas? && s.q[k].pc.next in s.nodes
    && var x := s.q[k].pc.next;
       if s.nodes[x].readyFlag == Clear then Passed(s, k, x, Set, s') else Goto(s, k, PassEvent(x), s')
  }

  predicate PassEventStep(s: State, k: nat, s': State) {
    && Can(s, k) && s.q[k].pc.PassEvent? && s.q[k].pc.next in s.nodes
    && Passed(s, k, s.q[k].pc.next, Handle(true), s')
  }

  /** `ptw32_mcs_node_transfer` begins: the spare node `f` is initialised. */
  ghost predicate MoveStep(s: State, k: nat, f: nat, s': State) {
    && Can(s, k) && s.q[k].pc.Held? && Usable(s, f)
    && s' == s.(nodes := s.nodes[f := Fresh(k)], q := s.q[k := Agent(s.q[k].node, MoveCas(f))])
  }

  predicate MoveCasStep(s: State, k: nat, s': State) {
    && Can(s, k) && s.q[k].pc.MoveCas?
    && var f := s.q[k].pc.spare;
       if s.tail == s.q[k].node then s' == s.(tail := f, q := s.q[k := Agent(f, Held)])
       else Goto(s, k, MoveSpin(f), s')
  }

  predicate MoveSpinStep(s: State, k: nat, s': State) {
    Can(s, k) && s.q[k].pc.MoveSpin? && Me(s, k).next != 0 && Goto(s, k, MoveCopy(s.q[k].pc.spare), s')
  }

  predicate MoveCopyStep(s: State, k: nat, s': State) {
    && Can(s, k) && s.q[k].pc.MoveCopy? && s.q[k].pc.spare in s.nodes
    && var f := s.q[k].pc.spare;
       s' == s.(nodes := s.nodes[f := s.nodes[f].(next := Me(s, k).next)], q := s.q[k := Agent(f, Held)])
  }

  predicate AcquireStep(s: State, k: nat, s': State) {
    || LinkStep(s, k, s') || NextCasStep(s, k, s') || NextEventStep(s, k, s')
    || ReadyReadStep(s, k, s') || ReadyCasStep(s, k, s') || ReadyWaitStep(s, k, s')
  }

  predicate LookStep(s: State, k: nat, s': State) {
    || ReleaseStep(s, k, s') || RelFlagReadStep(s, k, s') || RelFlagCasStep(s, k, s')
    || RelFlagWaitStep(s, k, s') || RelRereadStep(s, k, s')
  }

  predicate PassStep(s: State, k: nat, s': State) {
    RelCasStep(s, k, s') || PassCasStep(s, k, s') || PassEventStep(s, k, s')
  }

  predicate TransferStep(s: State, k: nat, s': State) {
    MoveCasStep(s, k, s') || MoveSpinStep(s, k, s') || MoveCopyStep(s, k, s')
  }

  predicate AgentStep(s: State, k: nat, s': State) {
    AcquireStep(s, k, s') || LookStep(s, k, s') || PassStep(s, k, s') || TransferStep(s, k, s')
  }

  ghost predicate Next(s: State, s': State) {
    || (exists n: nat :: ArriveStep(s, n, s') || BusyStep(s, n, s'))
    || (exists k: nat, n: nat :: MoveStep(s, k, n, s'))
    || exists k: nat :: AgentStep(s, k, s')
  }

  ghost predicate NextAt(run: seq<State>, i: nat) {
    i + 1 < |run| && Next(run[i], run[i + 1])
  }

  ghost predicate IsRun(run: seq<State>) {
    |run| > 0 && Init(run[0]) && forall i: nat :: i < |run| - 1 ==> NextAt(run, i)
  }

  // ---- the invariant -------------------------------------------------------

  predicate Waiting(pc: PC) {
    pc.Link? || pc.NextCas? || pc.NextEvent? || pc.ReadyRead? || pc.ReadyCas? || pc.ReadyWait?
  }

  predicate Owns(pc: PC) {
    !Waiting(pc) && !pc.Done?
  }

  /** Every agent in the queue has a node of its own. */
  ghost predicate NodesInv(s: State) {
    && 0 !in s.nodes
    && forall k :: s.served <= k < |s.q| ==> s.q[k].node in s.nodes && s.nodes[s.q[k].node].owner == k
  }

  /** An agent behind the head waits, its ready flag is not raised, and its
      predecessor points to it unless it has not linked yet. */
  predicate Behind(a: Agent, me: Node, pred: nat, predNode: Node) {
    && Waiting(a.pc)
    && me.readyFlag == (if a.pc.ReadyWait? then Handle(false) else Clear)
    && me.nextFlag != Handle(false)
    && (a.pc.Link? ==> a.pc.pred == pred)
    && predNode.next == (if a.pc.Link? then 0 else a.node)
  }

  ghost predicate BehindInv(s: State, k: int)
    requires s.served < k < |s.q| && NodesInv(s)
  {
    Behind(s.q[k], s.nodes[s.q[k].node], s.q[k - 1].node, s.nodes[s.q[k - 1].node])
  }

  /** The agent at the head owns the lock or has been given it. */
  ghost predicate HeadInv(s: State)
    requires s.served < |s.q| && NodesInv(s)
  {
    var pc := s.q[s.served].pc;
    var me := s.nodes[s.q[s.served].node];
    var followed := s.served + 1 < |s.q|;
    (me.nextFlag == Handle(false) ==> pc.RelFlagWait?) &&
    match pc
    case Link(_) => false
    case NextCas(_) => me.readyFlag == Set
    case NextEvent(_) => me.readyFlag == Set
    case ReadyRead => me.readyFlag == Set
    case ReadyCas => me.readyFlag == Set
    case ReadyWait => me.readyFlag == Handle(true)
    case Held => true
    case RelCas => true
    case RelFlagRead => followed
    case RelFlagCas => followed
    case RelFlagWait => followed && me.nextFlag != Clear
    case RelReread => followed && me.next != 0
    case PassCas(next) => followed && next != 0 && next == me.next == s.q[s.served + 1].node
    case PassEvent(next) => followed && next != 0 && next == me.next == s.q[s.served + 1].node && s.q[s.served + 1].pc.ReadyWait?
    case Done => false
    case MoveCas(f) => Unpublished(s, f)
    case MoveSpin(f) => Unpublished(s, f) && followed
    case MoveCopy(f) => Unpublished(s, f) && followed && me.next != 0
  }

  /** A node made for the head and not yet in its place. */
  ghost predicate Unpublished(s: State, f: nat)
    requires s.served < |s.q|
  {
    f in s.nodes && s.nodes[f] == Fresh(s.served) && s.q[s.served].node != f
  }

  /** A raised next-flag, or somebody about to raise it, means a linked
      successor. */
  ghost predicate FlagsInv(s: State) {
    && (forall n :: n in s.nodes && s.nodes[n].nextFlag.Raised() ==> s.nodes[n].next != 0)
    && (forall k :: s.served <= k < |s.q| && (s.q[k].pc.NextCas? || s.q[k].pc.NextEvent?) ==>
          && s.q[k].pc.pred in s.nodes && s.nodes[s.q[k].pc.pred].next != 0
          && (s.q[k].pc.NextEvent? ==> s.nodes[s.q[k].pc.pred].nextFlag != Clear))
  }

  /** A releaser that saw no successor will be told: the agent behind it is
      still announcing itself, or the flag is raised. */
  ghost predicate HandoverInv(s: State)
    requires s.served < |s.q| && NodesInv(s)
  {
    var head := s.q[s.served];
    (head.pc.RelCas? || head.pc.RelFlagRead? || head.pc.RelFlagCas? || head.pc.RelFlagWait?) && s.served + 1 < |s.q| ==>
      Announcing(s.q[s.served + 1].pc, head.node) || s.nodes[head.node].nextFlag.Raised()
  }

  ghost predicate TailInv(s: State)
    requires s.served <= |s.q| && NodesInv(s)
  {
    if s.served == |s.q| then s.tail == 0
    else s.tail == s.q[|s.q| - 1].node && s.nodes[s.tail].next == 0
  }

  ghost predicate Inv(s: State) {
    && s.served <= |s.q|
    && (forall k :: 0 <= k < s.served ==> s.q[k].pc == Done)
    && NodesInv(s) && TailInv(s) && FlagsInv(s)
    && (forall k :: s.served < k < |s.q| ==> BehindInv(s, k))
    && (s.served < |s.q| ==> HeadInv(s) && HandoverInv(s))
  }

  // ---- every step keeps the invariant --------------------------------------

  lemma ArriveKeepsInv(s: State, n: nat, s': State)
    requires Inv(s) && ArriveStep(s, n, s')
    ensures Inv(s')
  {
    forall k | s'.served < k < |s'.q| ensures BehindInv(s', k) {
      if k < |s.q| {
        assert BehindInv(s, k);
      }
    }
  }

  /** A node nobody points to changes nothing. */
  lemma SpareKeepsInv(s: State, n: nat, owner: nat, s': State)
    requires Inv(s) && Usable(s, n) && s' == s.(nodes := s.nodes[n := Fresh(owner)])
    ensures Inv(s')
  {
    forall k | s'.served < k < |s'.q| ensures BehindInv(s', k) {
      assert BehindInv(s, k);
    }
  }

  /** An edit that changes only what the acting agent may change. */
  predicate Allowed(s: State, k: nat, x: nat, r: Node, pc: PC)
    requires s.served <= k < |s.q| && x in s.nodes && s.q[k].node in s.nodes
  {
    var old_ := s.nodes[x];
    && r.owner == old_.owner
    && (r.next == old_.next || (k > s.served && x == s.q[k - 1].node && s.q[k].pc.Link?))
    && (r.readyFlag == old_.readyFlag || x == s.q[k].node)
    && (r.nextFlag == Handle(false) ==> x == s.q[s.served].node)
    && (r.nextFlag.Raised() ==> r.next != 0) && (old_.next != 0 ==> r.next != 0)
    && (r.nextFlag == Clear ==> old_.nextFlag == Clear)
    && !pc.Done?
    && (pc.NextCas? || pc.NextEvent? ==>
          && pc.pred in s.nodes && (if pc.pred == x then r else s.nodes[pc.pred]).next != 0
          && (pc.NextEvent? ==> (if pc.pred == x then r else s.nodes[pc.pred]).nextFlag != Clear))
  }

  lemma EditKeepsNodes(s: State, k: nat, x: nat, r: Node, pc: PC, s': State)
    requires Inv(s) && s.served <= k < |s.q| && Edit(s, k, x, r, pc, s') && Allowed(s, k, x, r, pc)
    ensures NodesInv(s') && TailInv(s') && FlagsInv(s')
  {
    assert s.served < |s.q| - 1 ==> BehindInv(s, |s.q| - 1);
    EditKeepsFlags(s, k, x, r, pc, s');
  }

  lemma EditKeepsFlags(s: State, k: nat, x: nat, r: Node, pc: PC, s': State)
    requires Inv(s) && s.served <= k < |s.q| && Edit(s, k, x, r, pc, s') && Allowed(s, k, x, r, pc)
    ensures FlagsInv(s')
  {
  }

  lemma EditKeepsBehind(s: State, k: nat, x: nat, r: Node, pc: PC, s': State, j: nat)
    requires Inv(s) && s.served <= k < |s.q| && Edit(s, k, x, r, pc, s') && Allowed(s, k, x, r, pc)
    requires s.served < j < |s.q| && j != k && NodesInv(s')
    ensures BehindInv(s', j)
  {
    assert BehindInv(s, j);
  }

  lemma EditKeepsInv(s: State, k: nat, x: nat, r: Node, pc: PC, s': State)
    requires Inv(s) && s.served <= k < |s.q| && Edit(s, k, x, r, pc, s') && Allowed(s, k, x, r, pc)
    requires NodesInv(s') && (k > s.served ==> BehindInv(s', k)) && HeadInv(s') && HandoverInv(s')
    ensures Inv(s')
  {
    EditKeepsNodes(s, k, x, r, pc, s');
    forall j | s'.served < j < |s'.q| ensures BehindInv(s', j) {
      if j != k {
        EditKeepsBehind(s, k, x, r, pc, s', j);
      }
    }
  }

  lemma GotoKeepsInv(s: State, k: nat, pc: PC, s': State)
    requires Inv(s) && s.served <= k < |s.q| && Goto(s, k, pc, s') && !pc.Done? && !pc.NextCas?
    requires pc.NextEvent? ==> pc.pred in s.nodes && s.nodes[pc.pred].next != 0 && s.nodes[pc.pred].nextFlag != Clear
    requires NodesInv(s') && (k > s.served ==> BehindInv(s', k)) && HeadInv(s') && HandoverInv(s')
    ensures Inv(s')
  {
    var n := s.q[k].node;
    assert s.nodes[n := s.nodes[n]] == s.nodes;
    assert k > s.served ==> BehindInv(s, k);
    EditKeepsInv(s, k, n, s.nodes[n], pc, s');
  }

  /** Everybody who can act is in the queue, and only the head owns the lock. */
  lemma ActorPlaced(s: State, k: nat)
    requires Inv(s) && k < |s.q| && s.q[k].pc != Done
    ensures s.served <= k && (k > s.served ==> BehindInv(s, k) && Waiting(s.q[k].pc))
    ensures s.served + 1 < |s.q| ==> BehindInv(s, s.served + 1)
    ensures Can(s, k) && HeadInv(s) && HandoverInv(s)
  {
  }

  lemma LinkKeepsInv(s: State, k: nat, s': State)
    requires Inv(s) && LinkStep(s, k, s')
    ensures Inv(s')
  {
    ActorPlaced(s, k);
    var p := s.q[k].pc.pred;
    assert k - 1 > s.served ==> BehindInv(s, k - 1);
    EditKeepsNodes(s, k, p, s.nodes[p].(next := s.q[k].node), NextCas(p), s');
    EditKeepsInv(s, k, p, s.nodes[p].(next := s.q[k].node), NextCas(p), s');
  }

  lemma NextSetKeepsInv(s: State, k: nat, s': State)
    requires Inv(s) && NextCasStep(s, k, s') && s.nodes[s.q[k].pc.pred].nextFlag == Clear
    ensures Inv(s')
  {
    ActorPlaced(s, k);
    var p := s.q[k].pc.pred;
    EditKeepsNodes(s, k, p, s.nodes[p].(nextFlag := Set), ReadyRead, s');
    EditKeepsInv(s, k, p, s.nodes[p].(nextFlag := Set), ReadyRead, s');
  }

  lemma NextCasKeepsInv(s: State, k: nat, s': State)
    requires Inv(s) && NextCasStep(s, k, s')
    ensures Inv(s')
  {
    if s.nodes[s.q[k].pc.pred].nextFlag == Clear {
      NextSetKeepsInv(s, k, s');
    } else {
      ActorPlaced(s, k);
      GotoKeepsInv(s, k, NextEvent(s.q[k].pc.pred), s');
    }
  }

  lemma NextRaiseKeepsInv(s: State, k: nat, s': State)
    requires Inv(s) && NextEventStep(s, k, s') && s.nodes[s.q[k].pc.pred].nextFlag.Handle?
    ensures Inv(s')
  {
    ActorPlaced(s, k);
    var p := s.q[k].pc.pred;
    EditKeepsNodes(s, k, p, s.nodes[p].(nextFlag := Handle(true)), ReadyRead, s');
    EditKeepsInv(s, k, p, s.nodes[p].(nextFlag := Handle(true)), ReadyRead, s');
  }

  lemma NextEventKeepsInv(s: State, k: nat, s': State)
    requires Inv(s) && NextEventStep(s, k, s')
    ensures Inv(s')
  {
    if s.nodes[s.q[k].pc.pred].nextFlag.Handle? {
      NextRaiseKeepsInv(s, k, s');
    } else {
      ActorPlaced(s, k);
      GotoKeepsInv(s, k, ReadyRead, s');
    }
  }

  lemma ReadyKeepsInv(s: State, k: nat, s': State)
    requires Inv(s) && (ReadyReadStep(s, k, s') || ReadyWaitStep(s, k, s'))
    ensures Inv(s')
  {
    ActorPlaced(s, k);
    GotoKeepsInv(s, k, s'.q[k].pc, s');
  }

  lemma ReadySetKeepsInv(s: State, k: nat, s': State)
    requires Inv(s) && ReadyCasStep(s, k, s') && Me(s, k).readyFlag == Clear
    ensures Inv(s')
  {
    ActorPlaced(s, k);
    EditKeepsNodes(s, k, s.q[k].node, Me(s, k).(readyFlag := Handle(false)), ReadyWait, s');
    EditKeepsInv(s, k, s.q[k].node, Me(s, k).(readyFlag := Handle(false)), ReadyWait, s');
  }

  lemma ReadyCasKeepsInv(s: State, k: nat, s': State)
    requires Inv(s) && ReadyCasStep(s, k, s')
    ensures Inv(s')
  {
    if Me(s, k).readyFlag == Clear {
      ReadySetKeepsInv(s, k, s');
    } else {
      ActorPlaced(s, k);
      GotoKeepsInv(s, k, Held, s');
    }
  }

  lemma RelFlagCasKeepsInv(s: State, k: nat, s': State)
    requires Inv(s) && RelFlagCasStep(s, k, s')
    ensures Inv(s')
  {
    ActorPlaced(s, k);
    if Me(s, k).nextFlag == Clear {
      EditKeepsNodes(s, k, s.q[k].node, Me(s, k).(nextFlag := Handle(false)), RelFlagWait, s');
      EditKeepsInv(s, k, s.q[k].node, Me(s, k).(nextFlag := Handle(false)), RelFlagWait, s');
    } else {
      GotoKeepsInv(s, k, RelReread, s');
    }
  }

  lemma LookKeepsInv(s: State, k: nat, s': State)
    requires Inv(s) && LookStep(s, k, s')
    ensures Inv(s')
  {
    if RelFlagCasStep(s, k, s') {
      RelFlagCasKeepsInv(s, k, s');
    } else {
      ActorPlaced(s, k);
      GotoKeepsInv(s, k, s'.q[k].pc, s');
    }
  }

  /** Passing the lock on makes the next agent the head. */
  lemma PassedKeepsInv(s: State, k: nat, x: nat, f: Flag, s': State)
    requires Inv(s) && k == s.served && s.served + 1 < |s.q| && Passed(s, k, x, f, s')
    requires x == s.q[k + 1].node && !s.q[k + 1].pc.Link?
    requires f == if s.q[k + 1].pc.ReadyWait? then Handle(true) else Set
    ensures Inv(s')
  {
    assert BehindInv(s, k + 1);
    forall j | s'.served < j < |s'.q| ensures BehindInv(s', j) {
      assert BehindInv(s, j);
    }
  }

  lemma PassKeepsInv(s: State, k: nat, s': State)
    requires Inv(s) && PassStep(s, k, s')
    ensures Inv(s')
  {
    ActorPlaced(s, k);
    if PassCasStep(s, k, s') && s.nodes[s.q[k].pc.next].readyFlag == Clear {
      PassedKeepsInv(s, k, s.q[k].pc.next, Set, s');
    } else if PassEventStep(s, k, s') {
      PassedKeepsInv(s, k, s.q[k].pc.next, Handle(true), s');
    } else if RelCasStep(s, k, s') && s.tail == s.q[k].node {
      LastReleaseKeepsInv(s, k, s');
    } else {
      GotoKeepsInv(s, k, s'.q[k].pc, s');
    }
  }

  /** Freeing the lock: nobody stands behind the releaser. */
  lemma LastReleaseKeepsInv(s: State, k: nat, s': State)
    requires Inv(s) && RelCasStep(s, k, s') && s.tail == s.q[k].node
    ensures Inv(s')
  {
    ActorPlaced(s, k);
    assert s.nodes[s.tail].owner == |s.q| - 1;
  }

  lemma MoveKeepsInv(s: State, k: nat, f: nat, s': State)
    requires Inv(s) && MoveStep(s, k, f, s')
    ensures Inv(s')
  {
    ActorPlaced(s, k);
    var mid := s.(nodes := s'.nodes);
    SpareKeepsInv(s, f, k, mid);
    ActorPlaced(mid, k);
    GotoKeepsInv(mid, k, MoveCas(f), s');
  }

  /** The head's place in the queue goes to its spare node. */
  lemma ReplacedKeepsInv(s: State, k: nat, f: nat, next: nat, s': State)
    requires Inv(s) && k == s.served < |s.q| && Unpublished(s, f)
    requires if k + 1 == |s.q| then s'.tail == f && next == 0 else s'.tail == s.tail && next == s.q[k + 1].node
    requires s' == s.(tail := s'.tail, nodes := s.nodes[f := Fresh(k).(next := next)], q := s.q[k := Agent(f, Held)])
    requires k + 1 < |s.q| ==> !s.q[k + 1].pc.Link?
    ensures Inv(s')
  {
    forall j | s'.served < j < |s'.q| ensures BehindInv(s', j) {
      assert BehindInv(s, j);
    }
  }

  lemma TransferKeepsInv(s: State, k: nat, s': State)
    requires Inv(s) && TransferStep(s, k, s')
    ensures Inv(s')
  {
    ActorPlaced(s, k);
    if MoveCasStep(s, k, s') && s.tail == s.q[k].node {
      assert s.nodes[s.tail].owner == |s.q| - 1;
      var f := s.q[k].pc.spare;
      assert s.nodes[f := Fresh(k)] == s.nodes;
      ReplacedKeepsInv(s, k, f, 0, s');
    } else if MoveCopyStep(s, k, s') {
      ReplacedKeepsInv(s, k, s.q[k].pc.spare, Me(s, k).next, s');
    } else {
      GotoKeepsInv(s, k, s'.q[k].pc, s');
    }
  }

  lemma StepKeepsInv(s: State, s': State)
    requires Inv(s) && Next(s, s')
    ensures Inv(s')
  {
    if n: nat :| ArriveStep(s, n, s') {
      ArriveKeepsInv(s, n, s');
    } else if n: nat :| BusyStep(s, n, s') {
      SpareKeepsInv(s, n, |s.q|, s');
    } else if k: nat, n: nat :| MoveStep(s, k, n, s') {
      MoveKeepsInv(s, k, n, s');
    } else {
      var k: nat :| AgentStep(s, k, s');
      AgentKeepsInv(s, k, s');
    }
  }

  lemma AgentKeepsInv(s: State, k: nat, s': State)
    requires Inv(s) && AgentStep(s, k, s')
    ensures Inv(s')
  {
    if LookStep(s, k, s') {
      LookKeepsInv(s, k, s');
    } else if PassStep(s, k, s') {
      PassKeepsInv(s, k, s');
    } else if TransferStep(s, k, s') {
      TransferKeepsInv(s, k, s');
    } else if LinkStep(s, k, s') {
      LinkKeepsInv(s, k, s');
    } else if NextCasStep(s, k, s') {
      NextCasKeepsInv(s, k, s');
    } else if NextEventStep(s, k, s') {
      NextEventKeepsInv(s, k, s');
    } else if ReadyCasStep(s, k, s') {
      ReadyCasKeepsInv(s, k, s');
    } else {
      ReadyKeepsInv(s, k, s');
    }
  }

  // ---- what holds in every run ---------------------------------------------

  lemma {:induction false} RunKeepsInv(run: seq<State>, i: nat)
    requires i < |run| && IsRun(run)
    ensures Inv(run[i])
  {
    if i > 0 {
      RunKeepsInv(run, i - 1);
      assert NextAt(run, i - 1);
      StepKeepsInv(run[i - 1], run[i]);
    }
  }

  /** At most one agent owns the lock, and ownership passes in the order of the
      tail exchanges: everybody who came before the owner is done, everybody
      who came after it is waiting. */
  lemma OwnershipInOrder(run: seq<State>, i: nat, k: nat)
    requires i < |run| && IsRun(run) && k < |run[i].q| && Owns(run[i].q[k].pc)
    ensures k == run[i].served
    ensures forall j :: 0 <= j < k ==> run[i].q[j].pc == Done
    ensures forall j :: k < j < |run[i].q| ==> Waiting(run[i].q[j].pc)
  {
    RunKeepsInv(run, i);
    var s := run[i];
    forall j | s.served < j < |s.q| ensures Waiting(s.q[j].pc) {
      assert BehindInv(s, j);
    }
  }

  /** No reordering: arrivals go to the end, nobody leaves but the head, and
      only the head may change its node. */
  ghost predicate Fifo(s: State, s': State) {
    && |s.q| <= |s'.q| <= |s.q| + 1 && s.served <= s'.served <= s.served + 1
    && (s'.served > s.served ==> s.served < |s.q| && Owns(s.q[s.served].pc) && s'.q[s.served].pc == Done)
    && forall j :: 0 <= j < |s.q| && j != s.served ==> s'.q[j].node == s.q[j].node
  }

  lemma AcquireIsFifo(s: State, k: nat, s': State)
    requires Inv(s) && AcquireStep(s, k, s')
    ensures Fifo(s, s')
  {
  }

  lemma ReleaseIsFifo(s: State, k: nat, s': State)
    requires Inv(s) && (LookStep(s, k, s') || PassStep(s, k, s') || TransferStep(s, k, s'))
    ensures Fifo(s, s')
  {
    ActorPlaced(s, k);
  }

  lemma QueueIsFifo(s: State, s': State)
    requires Inv(s) && Next(s, s')
    ensures Fifo(s, s')
  {
    if k: nat :| AgentStep(s, k, s') {
      if AcquireStep(s, k, s') {
        AcquireIsFifo(s, k, s');
      } else {
        ReleaseIsFifo(s, k, s');
      }
    }
  }

  /** The second read of `next`, after waiting on nextFlag, finds the
      successor. */
  lemma RereadFindsSuccessor(run: seq<State>, i: nat, k: nat)
    requires i < |run| && IsRun(run) && k < |run[i].q| && run[i].q[k].pc.RelReread?
    ensures k + 1 < |run[i].q| && Can(run[i], k) && Me(run[i], k).next == run[i].q[k + 1].node != 0
  {
    RunKeepsInv(run, i);
    ActorPlaced(run[i], k);
  }

  /** Node transfer puts the spare node in the place of the queue's head and
      changes nothing else in the queue. */
  lemma TransferReplacesHead(s: State, k: nat, s': State)
    requires Inv(s) && TransferStep(s, k, s')
    ensures k == s.served == s'.served && |s'.q| == |s.q|
    ensures s'.q[k].node == s.q[k].node || (s'.q[k] == Agent(s.q[k].pc.spare, Held) && s'.q[k].node != s.q[k].node)
    ensures forall j :: 0 <= j < |s.q| && j != k ==> s'.q[j] == s.q[j]
    ensures s'.tail == s.tail || (s.tail == s.q[k].node && s'.tail == s'.q[k].node)
  {
    ActorPlaced(s, k);
  }

  // ---- when a node may serve again -----------------------------------------

  /** A released node is written to only by an agent that announces itself to
      it. */
  lemma OnlyAnnouncersWrite(s: State, k: nat, s': State, n: nat)
    requires Inv(s) && AgentStep(s, k, s') && n in s.nodes && Released(s, n)
    ensures n in s'.nodes && (s'.nodes[n] != s.nodes[n] ==> Announcing(s.q[k].pc, n))
  {
    if AcquireStep(s, k, s') {
      AcquireWrites(s, k, s', n);
    } else if PassStep(s, k, s') {
      PassWrites(s, k, s', n);
    } else {
      HeadWrites(s, k, s', n);
    }
  }

  lemma PassWrites(s: State, k: nat, s': State, n: nat)
    requires Inv(s) && PassStep(s, k, s') && n in s.nodes && Released(s, n)
    ensures n in s'.nodes && s'.nodes[n] == s.nodes[n]
  {
    ActorPlaced(s, k);
    if !RelCasStep(s, k, s') {
      assert s.q[k].pc.next == s.q[k + 1].node;
    }
  }

  lemma HeadWrites(s: State, k: nat, s': State, n: nat)
    requires Inv(s) && (LookStep(s, k, s') || TransferStep(s, k, s')) && n in s.nodes && Released(s, n)
    ensures n in s'.nodes && s'.nodes[n] == s.nodes[n]
  {
    ActorPlaced(s, k);
  }

  lemma AcquireWrites(s: State, k: nat, s': State, n: nat)
    requires Inv(s) && AcquireStep(s, k, s') && n in s.nodes && Released(s, n)
    ensures n in s'.nodes && (s'.nodes[n] != s.nodes[n] ==> Announcing(s.q[k].pc, n))
  {
    ActorPlaced(s, k);
  }

  /** Publishing a released node again keeps the invariant if and only if no
      agent announces itself to it. */
  lemma ReuseKeepsInvExactlyWhen(s: State, n: nat, s': State)
    requires Inv(s) && n in s.nodes && Released(s, n) && Arrival(s, n, s')
    ensures Inv(s') <==> Quiet(s, n)
  {
    if Quiet(s, n) {
      ArriveKeepsInv(s, n, s');
    } else {
      var k :| s.served <= k < |s.q| && Announcing(s.q[k].pc, n);
      assert k > s.served ==> BehindInv(s, k);
      assert s'.q[k] == s.q[k] && s'.nodes[n].next == 0;
    }
  }

  /** Otherwise the late agent raises the flag of a node that has no
      successor, which its new owner may take for one. */
  lemma LateFlag(s: State, n: nat, s': State, k: nat) returns (s'': State)
    requires Inv(s) && n in s.nodes && Released(s, n) && Arrival(s, n, s')
    requires s.served <= k < |s.q| && s.q[k].pc == NextCas(n)
    ensures NextCasStep(s', k, s'') && s''.nodes[n].nextFlag.Raised() && s''.nodes[n].next == 0
    ensures s''.q[|s.q|].node == n
  {
    s'' := s'.(nodes := s'.nodes[n := s'.nodes[n].(nextFlag := Set)], q := s'.q[k := Agent(s'.q[k].node, ReadyRead)]);
    assert s'.q[k] == s.q[k] && Can(s', k);
  }

  /** Agent 0 takes the lock with node 1; agent 1 links to it with node 2 and
      pauses; agent 0 releases. */
  function Early(i: nat): State
    requires i < 6
  {
    if i == 0 then State(0, map[], [], 0)
    else if i == 1 then State(1, map[1 := Fresh(0)], [Agent(1, Held)], 0)
    else if i == 2 then State(2, map[1 := Fresh(0), 2 := Fresh(1)], [Agent(1, Held), Agent(2, Link(1))], 0)
    else if i == 3 then State(2, map[1 := Fresh(0).(next := 2), 2 := Fresh(1)], [Agent(1, Held), Agent(2, NextCas(1))], 0)
    else if i == 4 then State(2, map[1 := Fresh(0).(next := 2), 2 := Fresh(1)], [Agent(1, PassCas(2)), Agent(2, NextCas(1))], 0)
    else State(2, map[1 := Fresh(0).(next := 2), 2 := Fresh(1).(readyFlag := Set)], [Agent(1, Done), Agent(2, NextCas(1))], 1)
  }

  lemma EarlyStep(i: nat)
    requires i < 5
    ensures Next(Early(i), Early(i + 1))
  {
    if i == 0 {
      assert ArriveStep(Early(0), 1, Early(1));
    } else if i == 1 {
      assert ArriveStep(Early(1), 2, Early(2));
    } else if i == 2 {
      assert LinkStep(Early(2), 1, Early(3));
      assert AgentStep(Early(2), 1, Early(3));
    } else if i == 3 {
      assert ReleaseStep(Early(3), 0, Early(4));
      assert AgentStep(Early(3), 0, Early(4));
    } else {
      assert PassCasStep(Early(4), 0, Early(5));
      assert AgentStep(Early(4), 0, Early(5));
    }
  }

  /** This does happen: release may return while the successor has yet to set
      nextFlag, because the link alone is enough to find it. */
  lemma ReleasedTooEarly()
    ensures IsRun(seq(6, i requires 0 <= i < 6 => Early(i)))
    ensures Early(5).q == [Agent(1, Done), Agent(2, NextCas(1))] && Released(Early(5), 1) && !Quiet(Early(5), 1)
  {
    var run := seq(6, i requires 0 <= i < 6 => Early(i));
    forall i: nat | i < |run| - 1 ensures NextAt(run, i) {
      EarlyStep(i);
    }
    assert Announcing(Early(5).q[1].pc, 1);
  }

  /** Agents that wait for somebody else. */
  predicate Stalled(s: State, k: nat)
    requires Can(s, k)
  {
    || (s.q[k].pc.ReadyWait? && !Me(s, k).readyFlag.Raised())
    || (s.q[k].pc.RelFlagWait? && !Me(s, k).nextFlag.Raised())
    || (s.q[k].pc.MoveSpin? && Me(s, k).next == 0)
  }

  /** Everybody else can act. */
  lemma CanAct(s: State, k: nat) returns (s': State)
    requires Inv(s) && s.served <= k < |s.q| && Can(s, k) && !Stalled(s, k)
    ensures AgentStep(s, k, s')
  {
    ActorInQueue(s, k);
    var n, me := s.q[k].node, Me(s, k);
    match s.q[k].pc {
      case Link(p) =>
        s' := s.(nodes := s.nodes[p := s.nodes[p].(next := n)], q := s.q[k := Agent(n, NextCas(p))]);
        assert LinkStep(s, k, s');
      case NextCas(p) =>
        s' := if s.nodes[p].nextFlag == Clear
        then s.(nodes := s.nodes[p := s.nodes[p].(nextFlag := Set)], q := s.q[k := Agent(n, ReadyRead)])
        else s.(q := s.q[k := Agent(n, NextEvent(p))]);
        assert NextCasStep(s, k, s');
      case NextEvent(p) =>
        s' := if s.nodes[p].nextFlag.Handle?
        then s.(nodes := s.nodes[p := s.nodes[p].(nextFlag := Handle(true))], q := s.q[k := Agent(n, ReadyRead)])
        else s.(q := s.q[k := Agent(n, ReadyRead)]);
        assert NextEventStep(s, k, s');
      case ReadyRead =>
        s' := s.(q := s.q[k := Agent(n, if me.readyFlag == Clear then ReadyCas else Held)]);
        assert ReadyReadStep(s, k, s');
      case ReadyCas =>
        s' := if me.readyFlag == Clear
        then s.(nodes := s.nodes[n := me.(readyFlag := Handle(false))], q := s.q[k := Agent(n, ReadyWait)])
        else s.(q := s.q[k := Agent(n, Held)]);
        assert ReadyCasStep(s, k, s');
      case ReadyWait =>
        s' := s.(q := s.q[k := Agent(n, Held)]);
        assert ReadyWaitStep(s, k, s');
      case Held =>
        s' := s.(q := s.q[k := Agent(n, if me.next == 0 then RelCas else PassCas(me.next))]);
        assert ReleaseStep(s, k, s');
      case RelCas =>
        s' := if s.tail == n then s.(tail := 0, served := s.served + 1, q := s.q[k := Agent(n, Done)])
        else s.(q := s.q[k := Agent(n, RelFlagRead)]);
        assert RelCasStep(s, k, s');
      case RelFlagRead =>
        s' := s.(q := s.q[k := Agent(n, if me.nextFlag == Clear then RelFlagCas else RelReread)]);
        assert RelFlagReadStep(s, k, s');
      case RelFlagCas =>
        s' := if me.nextFlag == Clear
        then s.(nodes := s.nodes[n := me.(nextFlag := Handle(false))], q := s.q[k := Agent(n, RelFlagWait)])
        else s.(q := s.q[k := Agent(n, RelReread)]);
        assert RelFlagCasStep(s, k, s');
      case RelFlagWait =>
        s' := s.(q := s.q[k := Agent(n, RelReread)]);
        assert RelFlagWaitStep(s, k, s');
      case RelReread =>
        s' := s.(q := s.q[k := Agent(n, PassCas(me.next))]);
        assert RelRereadStep(s, k, s');
      case PassCas(x) =>
        s' := if s.nodes[x].readyFlag == Clear
        then s.(nodes := s.nodes[x := s.nodes[x].(readyFlag := Set)], served := s.served + 1, q := s.q[k := Agent(n, Done)])
        else s.(q := s.q[k := Agent(n, PassEvent(x))]);
        assert PassCasStep(s, k, s');
      case PassEvent(x) =>
        s' := s.(nodes := s.nodes[x := s.nodes[x].(readyFlag := Handle(true))], served := s.served + 1,
                 q := s.q[k := Agent(n, Done)]);
        assert PassEventStep(s, k, s');
      case MoveCas(f) =>
        s' := if s.tail == n then s.(tail := f, q := s.q[k := Agent(f, Held)]) else s.(q := s.q[k := Agent(n, MoveSpin(f))]);
        assert MoveCasStep(s, k, s');
      case MoveSpin(f) =>
        s' := s.(q := s.q[k := Agent(n, MoveCopy(f))]);
        assert MoveSpinStep(s, k, s');
      case MoveCopy(f) =>
        s' := s.(nodes := s.nodes[f := s.nodes[f].(next := me.next)], q := s.q[k := Agent(f, Held)]);
        assert MoveCopyStep(s, k, s');
    }
  }

  /** The nodes an agent is about to touch exist. */
  lemma ActorInQueue(s: State, k: nat)
    requires Inv(s) && s.served <= k < |s.q|
    ensures s.q[k].pc != Done
    ensures s.q[k].pc.Link? || s.q[k].pc.NextCas? || s.q[k].pc.NextEvent? ==> s.q[k].pc.pred in s.nodes
    ensures s.q[k].pc.PassCas? || s.q[k].pc.PassEvent? ==> s.q[k].pc.next in s.nodes
    ensures s.q[k].pc.MoveCopy? ==> s.q[k].pc.spare in s.nodes
  {
    assert k > s.served ==> BehindInv(s, k);
  }

  /** The lock never wedges: while anybody is in the queue, the head can act or
      the agent right behind it, which the head waits for, can. */
  lemma NeverStuck(run: seq<State>, i: nat) returns (k: nat, s': State)
    requires i < |run| && IsRun(run) && run[i].served < |run[i].q|
    ensures run[i].served <= k <= run[i].served + 1 && AgentStep(run[i], k, s')
  {
    RunKeepsInv(run, i);
    var s := run[i];
    k := s.served;
    if Stalled(s, k) {
      k := k + 1;
      assert BehindInv(s, k);
    }
    s' := CanAct(s, k);
  }

  // ---- what each call achieves ---------------------------------------------

  /** An acquisition, or a try, gets the lock at once exactly when nobody is in
      the queue; otherwise it stands behind the last agent there. */
  lemma ArrivalOutcome(s: State, n: nat, s': State)
    requires Inv(s) && ArriveStep(s, n, s')
    ensures |s'.q| == |s.q| + 1 && s'.q[..|s.q|] == s.q && s'.q[|s.q|].node == n == s'.tail
    ensures s'.q[|s.q|].pc == if s.served == |s.q| then Held else Link(s.q[|s.q| - 1].node)
  {
  }

  /** It can always be made. */
  lemma CanArrive(s: State, n: nat) returns (s': State)
    requires Inv(s) && Usable(s, n)
    ensures ArriveStep(s, n, s')
  {
    s' := s.(tail := n, nodes := s.nodes[n := Fresh(|s.q|)],
             q := s.q + [Agent(n, if s.tail == 0 then Held else Link(s.tail))]);
  }

  /** A try fails only while somebody is in the queue, and changes nothing there;
      and then it can. */
  lemma TryFailsExactlyWhenTaken(s: State, n: nat) returns (s': State)
    requires Inv(s) && Usable(s, n)
    ensures (exists u :: BusyStep(s, n, u)) <==> s.served < |s.q|
    ensures forall u :: BusyStep(s, n, u) ==> u.q == s.q && u.tail == s.tail && u.served == s.served
    ensures s.served < |s.q| ==> BusyStep(s, n, s')
  {
    s' := s.(nodes := s.nodes[n := Fresh(|s.q|)]);
    assert s.served < |s.q| ==> s.tail != 0 && BusyStep(s, n, s');
  }

  /** The owner can hand its place to any usable node. */
  lemma CanTransfer(s: State, f: nat) returns (s': State)
    requires Inv(s) && Usable(s, f) && s.served < |s.q| && s.q[s.served].pc.Held?
    ensures MoveStep(s, s.served, f, s') && s'.q[s.served].pc == MoveCas(f)
  {
    var k := s.served;
    s' := s.(nodes := s.nodes[f := Fresh(k)], q := s.q[k := Agent(s.q[k].node, MoveCas(f))]);
  }
}
