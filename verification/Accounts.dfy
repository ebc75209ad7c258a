/** The account list as a value: the slots of the pool, the three memo maps and
    the online counter, what every operation does to it, and what all of them
    keep. */
module Accounts {
  import opened Counting
  import opened ObjectPool

  datatype OnOff = Initial | Online | Offline

  /** account_state_t; `ext` says that ext_data is set. */
  datatype Account = Account(
    keyid: nat, ready: bool, uid: string, nick: string, pwd: string,
    connid: nat, uuid: nat, onoff: OnOff, onoffTime: int, ext: bool,
    conflict: nat)         // login_checker.conflict_keyid, 0 = none

  datatype List = List(
    base: nat,                      // _base_id
    slots: seq<Node<Account>>,      // _all_elements
    uids: map<int, nat>,            // _mapUidHash2ConnState, to slots
    conns: map<nat, nat>,           // _mapConnId2ConnState
    uuids: map<nat, nat>,           // _mapInnerUuid2ConnState
    online: int)                    // _szOnlineCount

  type Hash = string -> int

  ghost predicate Injective(h: Hash) {
    forall a, b :: h(a) == h(b) ==> a == b
  }

  // ---- reading the list ----------------------------------------------------

  predicate Live(s: List, i: int) {
    0 <= i < |s.slots| && s.slots[i].used
  }

  /** The key of slot `i`, and the slot of a key. */
  function Key(s: List, i: int): int {
    s.base + |s.slots| - i
  }

  function SlotOf(s: List, key: int): int {
    s.base + |s.slots| - key
  }

  function IsOnline(n: Node<Account>): int {
    BoolToInt(n.used && n.data.onoff.Online?)
  }

  // ---- the invariant -------------------------------------------------------

  /** Slot `i`'s account is filled in. */
  predicate Filled(s: List, i: int)
    requires Live(s, i)
  {
    var a := s.slots[i].data;
    a.keyid == Key(s, i) && a.ready && a.connid > 0 && a.uuid > 0
  }

  /** Two logins of one user, on different connections, that know of each
      other. */
  predicate Paired(s: List, i: int, j: int)
    requires Live(s, i) && Live(s, j)
  {
    var a, b := s.slots[i].data, s.slots[j].data;
    i != j && a.uid == b.uid && a.conflict == Key(s, j) && b.conflict == Key(s, i) && a.connid != b.connid
  }

  ghost predicate PairInv(s: List) {
    && (forall i :: Live(s, i) ==> Filled(s, i))
    && (forall i :: Live(s, i) && s.slots[i].data.conflict > 0 ==>
          Live(s, SlotOf(s, s.slots[i].data.conflict)) && Paired(s, i, SlotOf(s, s.slots[i].data.conflict)))
    && (forall i, j :: Live(s, i) && Live(s, j) && i != j && s.slots[i].data.uid == s.slots[j].data.uid ==> Paired(s, i, j))
  }

  /** Every memo entry points to a live account with that key. */
  ghost predicate MemoInv(h: Hash, s: List) {
    && (forall k :: k in s.uids ==> Live(s, s.uids[k]) && h(s.slots[s.uids[k]].data.uid) == k)
    && (forall k :: k in s.conns ==> Live(s, s.conns[k]) && s.slots[s.conns[k]].data.connid == k)
    && (forall k :: k in s.uuids ==> Live(s, s.uuids[k]) && s.slots[s.uuids[k]].data.uuid == k)
  }

  ghost predicate Inv(h: Hash, s: List) {
    Injective(h) && PairInv(s) && MemoInv(h, s) && s.online == Sum(s.slots, IsOnline)
  }

  /** The invariant, quantified over an equal list so that the solver unfolds
      it only where a lemma asks for it. */
  ghost predicate Sound(h: Hash, s: List) {
    forall t :: t == s ==> Inv(h, t)
  }

  /** At most two live accounts share a user id. */
  lemma AtMostTwo(s: List, i: int, j: int, k: int)
    requires PairInv(s) && Live(s, i) && Live(s, j) && Live(s, k)
    requires s.slots[i].data.uid == s.slots[j].data.uid == s.slots[k].data.uid
    ensures i == j || j == k || i == k
  {
    if i != j && i != k {
      assert Paired(s, i, j) && Paired(s, i, k);
    }
  }

  // ---- what the operations do ----------------------------------------------

  function WithAccount(s: List, i: nat, a: Account): List
    requires i < |s.slots|
  {
    s.(slots := s.slots[i := s.slots[i].(data := a)])
  }

  /** `Offline` */
  function WentOffline(s: List, i: nat, now: int): List
    requires i < |s.slots|
  {
    var a := s.slots[i].data;
    WithAccount(s, i, a.(onoff := Offline, onoffTime := now))
    .(online := if a.onoff.Online? then s.online - 1 else s.online)
  }

  /** `ReleaseInternal` of a ready account. */
  function Released(h: Hash, s: List, i: nat, now: int): List
    requires i < |s.slots|
  {
    var a := s.slots[i].data;
    var t := WentOffline(s.(uids := s.uids - {h(a.uid)},
                            conns := if a.connid > 0 then s.conns - {a.connid} else s.conns,
                            uuids := if a.uuid > 0 then s.uuids - {a.uuid} else s.uuids), i, now);
    t.(slots := t.slots[i := Node(t.slots[i].data.(ready := false), false)])
  }

  /** Forgetting a conflict, on both sides. */
  function Unpaired(s: List, i: nat): List
    requires i < |s.slots|
    requires s.slots[i].data.conflict > 0 ==> 0 <= SlotOf(s, s.slots[i].data.conflict) < |s.slots|
  {
    var c := s.slots[i].data.conflict;
    if c > 0 then
      var t := WithAccount(s, i, s.slots[i].data.(conflict := 0));
      var j := SlotOf(s, c);
      WithAccount(t, j, t.slots[j].data.(conflict := 0))
    else s
  }

  /** `Unregister` */
  function Unregistered(h: Hash, s: List, i: nat, now: int): List
    requires i < |s.slots|
    requires s.slots[i].data.conflict > 0 ==> 0 <= SlotOf(s, s.slots[i].data.conflict) < |s.slots|
  {
    Released(h, Unpaired(s, i), i, now)
  }

  /** `Register` in the fresh slot `i`; `partner` is -1, or the account the new
      one is in conflict with. */
  function Registered(s: List, i: nat, a: Account, partner: int): List
    requires i < |s.slots| && -1 <= partner < |s.slots|
  {
    var slots := if partner < 0 then s.slots
                 else s.slots[partner := s.slots[partner].(data := s.slots[partner].data.(conflict := a.keyid))];
    var slots' := slots[i := Node(a, true)];
    s.(slots := slots', online := Sum(slots', IsOnline))
  }

  // ---- every operation keeps the invariant ---------------------------------

  /** The fields by which accounts are found and paired. */
  predicate SameIdentity(a: Account, b: Account) {
    && a.keyid == b.keyid && a.ready == b.ready && a.uid == b.uid && a.connid == b.connid && a.uuid == b.uuid
    && a.conflict == b.conflict
  }

  ghost predicate Alike(s: List, t: List) {
    && t.base == s.base && |t.slots| == |s.slots|
    && forall j :: 0 <= j < |s.slots| ==> t.slots[j].used == s.slots[j].used && SameIdentity(t.slots[j].data, s.slots[j].data)
  }

  lemma AlikeKeepsPairs(s: List, t: List)
    requires PairInv(s) && Alike(s, t)
    ensures PairInv(t)
  {
    forall i | Live(t, i) ensures Live(s, i) && Filled(t, i) {
      assert Live(s, i) && Filled(s, i);
    }
    forall i | Live(t, i) && t.slots[i].data.conflict > 0
      ensures Live(t, SlotOf(t, t.slots[i].data.conflict)) && Paired(t, i, SlotOf(t, t.slots[i].data.conflict))
    {
      assert Live(s, i);
      assert Paired(s, i, SlotOf(s, s.slots[i].data.conflict));
    }
    forall i, j | Live(t, i) && Live(t, j) && i != j && t.slots[i].data.uid == t.slots[j].data.uid ensures Paired(t, i, j) {
      assert Live(s, i) && Live(s, j);
      assert Paired(s, i, j);
    }
  }

  lemma AlikeKeepsMemo(h: Hash, s: List, t: List)
    requires MemoInv(h, s) && Alike(s, t) && t.uids == s.uids && t.conns == s.conns && t.uuids == s.uuids
    ensures MemoInv(h, t)
  {
  }

  /** The online counter follows one account's change. */
  function Recounted(s: List, i: nat, a: Account): int
    requires i < |s.slots|
  {
    s.online - BoolToInt(s.slots[i].data.onoff.Online?) + BoolToInt(a.onoff.Online?)
  }

  /** Changing an account in anything but its identity, with the counter kept
      up: Offline, KeepAlive, a repeated registration, setting ext_data. */
  lemma TouchKeepsInv(h: Hash, s: List, i: nat, a: Account)
    requires Sound(h, s) && Live(s, i) && SameIdentity(a, s.slots[i].data)
    ensures Sound(h, WithAccount(s, i, a).(online := Recounted(s, i, a)))
  {
    assert Inv(h, s);
    SumUpdate(s.slots, i, s.slots[i].(data := a), IsOnline);
    var t := WithAccount(s, i, a).(online := Recounted(s, i, a));
    AlikeKeepsPairs(s, t);
    AlikeKeepsMemo(h, s, t);
  }

  /** A correct memo entry may be added at any time. */
  lemma MemoUidKeepsInv(h: Hash, s: List, i: nat)
    requires Sound(h, s) && Live(s, i)
    ensures Sound(h, s.(uids := s.uids[h(s.slots[i].data.uid) := i]))
  {
    assert Inv(h, s);
    var t := s.(uids := s.uids[h(s.slots[i].data.uid) := i]);
    AlikeKeepsPairs(s, t);
    assert MemoInv(h, t) by {
      assert forall j :: Live(t, j) <==> Live(s, j);
    }
  }

  lemma MemoConnKeepsInv(h: Hash, s: List, i: nat)
    requires Sound(h, s) && Live(s, i)
    ensures Sound(h, s.(conns := s.conns[s.slots[i].data.connid := i]))
  {
    assert Inv(h, s);
    var t := s.(conns := s.conns[s.slots[i].data.connid := i]);
    AlikeKeepsPairs(s, t);
    assert MemoInv(h, t) by {
      assert forall j :: Live(t, j) <==> Live(s, j);
    }
  }

  lemma MemoUuidKeepsInv(h: Hash, s: List, i: nat)
    requires Sound(h, s) && Live(s, i)
    ensures Sound(h, s.(uuids := s.uuids[s.slots[i].data.uuid := i]))
  {
    assert Inv(h, s);
    var t := s.(uuids := s.uuids[s.slots[i].data.uuid := i]);
    AlikeKeepsPairs(s, t);
    assert MemoInv(h, t) by {
      assert forall j :: Live(t, j) <==> Live(s, j);
    }
  }

  /** The account in slot `i` may take the inner uuid `u`: it has it already,
      or the memo does not find it under its old one. */
  predicate MayRebind(s: List, i: nat, u: nat)
    requires i < |s.slots|
  {
    var old_ := s.slots[i].data.uuid;
    u == old_ || !(old_ in s.uuids && s.uuids[old_] == i)
  }

  /** A changed inner uuid keeps everything but the memo entry for the old
      one. */
  lemma ReboundKeepsMemo(h: Hash, s: List, i: nat, u: nat)
    requires MemoInv(h, s) && Live(s, i) && MayRebind(s, i, u)
    ensures MemoInv(h, WithAccount(s, i, s.slots[i].data.(uuid := u)))
  {
    var t := WithAccount(s, i, s.slots[i].data.(uuid := u));
    assert forall j :: Live(t, j) <==> Live(s, j);
  }

  lemma ReboundKeepsPairs(s: List, i: nat, u: nat)
    requires PairInv(s) && Live(s, i) && u > 0
    ensures PairInv(WithAccount(s, i, s.slots[i].data.(uuid := u)))
  {
    var t := WithAccount(s, i, s.slots[i].data.(uuid := u));
    forall j | Live(t, j) ensures Filled(t, j) {
      assert Live(s, j) && Filled(s, j);
    }
    forall j | Live(t, j) && t.slots[j].data.conflict > 0
      ensures Live(t, SlotOf(t, t.slots[j].data.conflict)) && Paired(t, j, SlotOf(t, t.slots[j].data.conflict))
    {
      assert Live(s, j);
      assert Paired(s, j, SlotOf(s, s.slots[j].data.conflict));
    }
    forall j, k | Live(t, j) && Live(t, k) && j != k && t.slots[j].data.uid == t.slots[k].data.uid ensures Paired(t, j, k) {
      assert Live(s, j) && Live(s, k);
      assert Paired(s, j, k);
    }
  }

  /** Giving a live account another inner uuid keeps the invariant if and only
      if the memo does not hold the account under the old one. */
  lemma RebindKeepsInvExactlyWhen(h: Hash, s: List, i: nat, u: nat)
    requires Sound(h, s) && Live(s, i) && u > 0
    ensures Sound(h, WithAccount(s, i, s.slots[i].data.(uuid := u))) <==> MayRebind(s, i, u)
  {
    assert Inv(h, s);
    var b := s.slots[i].data;
    var t := WithAccount(s, i, b.(uuid := u));
    if MayRebind(s, i, u) {
      ReboundKeepsMemo(h, s, i, u);
      ReboundKeepsPairs(s, i, u);
      SumUpdate(s.slots, i, s.slots[i].(data := b.(uuid := u)), IsOnline);
      assert Inv(h, t);
    } else {
      StaleMemo(h, t, b.uuid);
    }
  }

  /** A memo entry for an inner uuid that its account does not have. */
  lemma StaleMemo(h: Hash, t: List, k: nat)
    requires k in t.uuids && Live(t, t.uuids[k]) && t.slots[t.uuids[k]].data.uuid != k
    ensures !Sound(h, t)
  {
    assert !Inv(h, t);
  }

  /** The same when presence, times and texts that do not identify the account
      change as well, as in a repeated registration. */
  lemma RenewKeepsInvExactlyWhen(h: Hash, s: List, i: nat, a: Account)
    requires Sound(h, s) && Live(s, i) && a.uuid > 0 && SameIdentity(a.(uuid := s.slots[i].data.uuid), s.slots[i].data)
    ensures Sound(h, WithAccount(s, i, a).(online := Recounted(s, i, a))) <==> MayRebind(s, i, a.uuid)
  {
    var b := s.slots[i].data;
    var mid := WithAccount(s, i, b.(uuid := a.uuid));
    var t := WithAccount(s, i, a).(online := Recounted(s, i, a));
    RebindKeepsInvExactlyWhen(h, s, i, a.uuid);
    if MayRebind(s, i, a.uuid) {
      TouchKeepsInv(h, mid, i, a);
      assert WithAccount(mid, i, a).(online := Recounted(mid, i, a)) == t;
    } else {
      StaleMemo(h, t, b.uuid);
    }
  }

  // ---- releasing -----------------------------------------------------------

  /** Clearing both sides of a conflict leaves everything right except that the
      two accounts still share their user id. */
  lemma UnpairedFacts(h: Hash, s: List, i: nat)
    requires Inv(h, s) && Live(s, i)
    ensures s.slots[i].data.conflict > 0 ==> 0 <= SlotOf(s, s.slots[i].data.conflict) < |s.slots|
    ensures var t := Unpaired(s, i);
      && |t.slots| == |s.slots| && t == s.(slots := t.slots) && t.slots[i].data == s.slots[i].data.(conflict := 0)
      && forall j :: 0 <= j < |s.slots| ==>
           && t.slots[j].used == s.slots[j].used
           && t.slots[j].data == (if s.slots[j].used && s.slots[j].data.uid == s.slots[i].data.uid
                                  then s.slots[j].data.(conflict := 0) else s.slots[j].data)
  {
    var c := s.slots[i].data.conflict;
    if c > 0 {
      assert Paired(s, i, SlotOf(s, c));
    }
    forall j | Live(s, j) && j != i && s.slots[j].data.uid == s.slots[i].data.uid ensures c > 0 && j == SlotOf(s, c) {
      assert Paired(s, i, j);
    }
  }

  lemma {:induction false} SamePresence(a: seq<Node<Account>>, b: seq<Node<Account>>)
    requires |a| == |b|
    requires forall j :: 0 <= j < |a| ==> IsOnline(a[j]) == IsOnline(b[j])
    ensures Sum(a, IsOnline) == Sum(b, IsOnline)
    decreases |a|
  {
    if |a| > 0 {
      SamePresence(a[..|a| - 1], b[..|b| - 1]);
    }
  }

  /** The list after `Unregister`, slot by slot. */
  ghost predicate After(s: List, i: nat, t: List)
    requires i < |s.slots|
  {
    && t.base == s.base && |t.slots| == |s.slots| && !t.slots[i].used
    && forall j :: 0 <= j < |s.slots| && j != i ==>
         && t.slots[j].used == s.slots[j].used
         && t.slots[j].data == (if s.slots[j].used && s.slots[j].data.uid == s.slots[i].data.uid
                                then s.slots[j].data.(conflict := 0) else s.slots[j].data)
  }

  lemma UnregisteredIsAfter(h: Hash, s: List, i: nat, now: int)
    requires Inv(h, s) && Live(s, i)
    ensures s.slots[i].data.conflict > 0 ==> 0 <= SlotOf(s, s.slots[i].data.conflict) < |s.slots|
    ensures After(s, i, Unregistered(h, s, i, now))
    ensures var t, a := Unregistered(h, s, i, now), s.slots[i].data;
      && t.uids == s.uids - {h(a.uid)} && t.conns == s.conns - {a.connid} && t.uuids == s.uuids - {a.uuid}
      && t.online == Sum(t.slots, IsOnline)
  {
    UnpairedFacts(h, s, i);
    var u, t := Unpaired(s, i), Unregistered(h, s, i, now);
    assert Filled(s, i);
    assert t.slots == u.slots[i := t.slots[i]];
    SamePresence(s.slots, u.slots);
    SumUpdate(u.slots, i, t.slots[i], IsOnline);
  }

  lemma AfterKeepsPairs(s: List, i: nat, t: List)
    requires PairInv(s) && Live(s, i) && After(s, i, t)
    ensures PairInv(t)
  {
    forall j | Live(t, j) ensures Filled(t, j) {
      assert Live(s, j) && Filled(s, j);
    }
    forall j | Live(t, j) && t.slots[j].data.conflict > 0
      ensures Live(t, SlotOf(t, t.slots[j].data.conflict)) && Paired(t, j, SlotOf(t, t.slots[j].data.conflict))
    {
      assert Live(s, j) && s.slots[j].data.uid != s.slots[i].data.uid;
      var k := SlotOf(s, s.slots[j].data.conflict);
      assert Paired(s, j, k);
    }
    forall j, k | Live(t, j) && Live(t, k) && j != k && t.slots[j].data.uid == t.slots[k].data.uid ensures Paired(t, j, k) {
      assert Live(s, j) && Live(s, k);
      assert Paired(s, j, k);
      if s.slots[j].data.uid == s.slots[i].data.uid {
        AtMostTwo(s, i, j, k);
      }
    }
  }

  /** Slot `j` is found under the same keys in both lists. */
  predicate SameKeys(s: List, t: List, j: int)
    requires Live(s, j)
  {
    Live(t, j) && var a, b := s.slots[j].data, t.slots[j].data; a.uid == b.uid && a.connid == b.connid && a.uuid == b.uuid
  }

  /** The three keys of the released account are the only entries that could
      point to it. */
  lemma AfterKeepsMemo(h: Hash, s: List, i: nat, t: List)
    requires MemoInv(h, s) && Live(s, i) && After(s, i, t)
    requires var a := s.slots[i].data;
      t.uids == s.uids - {h(a.uid)} && t.conns == s.conns - {a.connid} && t.uuids == s.uuids - {a.uuid}
    ensures MemoInv(h, t)
  {
    assert forall j :: Live(s, j) && j != i ==> SameKeys(s, t, j);
  }

  /** Unregistering either side of a pair, or an unpaired account, keeps the
      invariant; the other side of the pair becomes unpaired. */
  lemma UnregisterKeepsInv(h: Hash, s: List, i: nat, now: int)
    requires Sound(h, s) && Live(s, i)
    ensures s.slots[i].data.conflict > 0 ==> 0 <= SlotOf(s, s.slots[i].data.conflict) < |s.slots|
    ensures Sound(h, Unregistered(h, s, i, now)) && After(s, i, Unregistered(h, s, i, now))
  {
    assert Inv(h, s);
    UnregisteredIsAfter(h, s, i, now);
    var t := Unregistered(h, s, i, now);
    AfterKeepsPairs(s, i, t);
    AfterKeepsMemo(h, s, i, t);
  }

  /** Kick and the bare Release skip the unpairing.  They keep the invariant
      exactly when the account is not in conflict: otherwise its partner keeps
      pointing to a slot that is free. */
  lemma KickKeepsInvExactlyWhen(h: Hash, s: List, i: nat, now: int)
    requires Sound(h, s) && Live(s, i)
    ensures Sound(h, Released(h, s, i, now)) <==> s.slots[i].data.conflict == 0
  {
    assert Inv(h, s);
    var t := Released(h, s, i, now);
    if s.slots[i].data.conflict == 0 {
      UnregisterKeepsInv(h, s, i, now);
    } else {
      var j := SlotOf(s, s.slots[i].data.conflict);
      assert Paired(s, i, j);
      assert Live(t, j) && SlotOf(t, t.slots[j].data.conflict) == i && !Live(t, i);
      assert !Inv(h, t);
    }
  }

  // ---- registering ---------------------------------------------------------

  /** A ready account for slot `i`, not in conflict yet. */
  predicate FreshAccount(s: List, i: nat, a: Account) {
    a.keyid == Key(s, i) && a.ready && a.connid > 0 && a.uuid > 0
  }

  ghost predicate NobodyHas(s: List, uid: string) {
    forall j :: Live(s, j) ==> s.slots[j].data.uid != uid
  }

  lemma RegisteredKeepsMemo(h: Hash, s: List, i: nat, a: Account, p: int)
    requires MemoInv(h, s) && i < |s.slots| && !s.slots[i].used && -1 <= p < |s.slots|
    ensures MemoInv(h, Registered(s, i, a, p))
  {
    var t := Registered(s, i, a, p);
    assert forall j :: Live(s, j) ==> SameKeys(s, t, j);
  }

  /** A first login. */
  lemma RegisterFreshKeepsInv(h: Hash, s: List, i: nat, a: Account)
    requires Sound(h, s) && i < |s.slots| && !s.slots[i].used
    requires FreshAccount(s, i, a) && a.conflict == 0 && NobodyHas(s, a.uid)
    ensures Sound(h, Registered(s, i, a, -1))
  {
    assert Inv(h, s);
    var t := Registered(s, i, a, -1);
    RegisteredKeepsMemo(h, s, i, a, -1);
    forall j | Live(t, j) ensures Filled(t, j) {
      assert j != i ==> Live(s, j) && Filled(s, j);
    }
    forall j | Live(t, j) && t.slots[j].data.conflict > 0
      ensures Live(t, SlotOf(t, t.slots[j].data.conflict)) && Paired(t, j, SlotOf(t, t.slots[j].data.conflict))
    {
      assert Live(s, j);
      assert Paired(s, j, SlotOf(s, s.slots[j].data.conflict));
    }
    forall j, k | Live(t, j) && Live(t, k) && j != k && t.slots[j].data.uid == t.slots[k].data.uid ensures Paired(t, j, k) {
      assert j != i && k != i ==> Live(s, j) && Live(s, k) && Paired(s, j, k);
    }
  }

  /** A second login of the same user on another connection, while the first is
      not in conflict: the two are paired. */
  lemma RegisterConflictKeepsInv(h: Hash, s: List, i: nat, a: Account, p: nat)
    requires Sound(h, s) && i < |s.slots| && !s.slots[i].used && Live(s, p)
    requires FreshAccount(s, i, a) && a.conflict == Key(s, p)
    requires s.slots[p].data.uid == a.uid && s.slots[p].data.conflict == 0 && s.slots[p].data.connid != a.connid
    ensures Sound(h, Registered(s, i, a, p)) && Live(Registered(s, i, a, p), i) && Paired(Registered(s, i, a, p), i, p)
  {
    assert Inv(h, s);
    var t := Registered(s, i, a, p);
    RegisteredKeepsMemo(h, s, i, a, p);
    assert Filled(s, p);
    forall j | Live(s, j) && j != p ensures s.slots[j].data.uid != a.uid && s.slots[j].data.conflict != Key(s, p) {
      assert s.slots[j].data.uid == a.uid ==> Paired(s, j, p);
      assert s.slots[j].data.conflict == Key(s, p) ==> SlotOf(s, s.slots[j].data.conflict) == p && Paired(s, j, p);
    }
    forall j | Live(t, j) ensures Filled(t, j) {
      assert j != i ==> Live(s, j) && Filled(s, j);
    }
    forall j | Live(t, j) && t.slots[j].data.conflict > 0
      ensures Live(t, SlotOf(t, t.slots[j].data.conflict)) && Paired(t, j, SlotOf(t, t.slots[j].data.conflict))
    {
      assert j != i && j != p ==> Live(s, j) && Paired(s, j, SlotOf(s, s.slots[j].data.conflict));
    }
    forall j, k | Live(t, j) && Live(t, k) && j != k && t.slots[j].data.uid == t.slots[k].data.uid ensures Paired(t, j, k) {
      assert j != i ==> Live(s, j);
      assert k != i ==> Live(s, k);
      assert j != i && k != i ==> Paired(s, j, k);
    }
  }

  // ---- what the invariant gives its users ----------------------------------

  /** A memo entry is right. */
  lemma MemoIsRight(h: Hash, s: List, uid: string, connid: nat, uuid: nat)
    requires Sound(h, s)
    ensures h(uid) in s.uids ==> Live(s, s.uids[h(uid)]) && s.slots[s.uids[h(uid)]].data.uid == uid
    ensures connid in s.conns ==> Live(s, s.conns[connid]) && s.slots[s.conns[connid]].data.connid == connid
    ensures uuid in s.uuids ==> Live(s, s.uuids[uuid]) && s.slots[s.uuids[uuid]].data.uuid == uuid
  {
    assert Inv(h, s);
    var k := h(uid);
    if k in s.uids {
      assert Live(s, s.uids[k]) && h(s.slots[s.uids[k]].data.uid) == k;
    }
  }

  /** A live account knows its key and is ready; if it is in conflict, its
      partner is live and knows it. */
  lemma LiveIsFilled(h: Hash, s: List, i: int)
    requires Sound(h, s) && Live(s, i)
    ensures Filled(s, i)
    ensures var c := s.slots[i].data.conflict; c > 0 ==> Live(s, SlotOf(s, c)) && Paired(s, i, SlotOf(s, c))
  {
    assert Inv(h, s);
  }

  /** Two live accounts of one user are a pair. */
  lemma SameUserIsPair(h: Hash, s: List, i: int, j: int)
    requires Sound(h, s) && Live(s, i) && Live(s, j) && i != j && s.slots[i].data.uid == s.slots[j].data.uid
    ensures Paired(s, i, j)
  {
    assert Inv(h, s);
  }

  /** The counter is the full count. */
  lemma OnlineIsCount(h: Hash, s: List)
    requires Sound(h, s)
    ensures s.online == Sum(s.slots, IsOnline)
  {
    assert Inv(h, s);
  }

  lemma EmptyIsSound(h: Hash, s: List)
    requires Injective(h) && s.uids == map[] && s.conns == map[] && s.uuids == map[] && s.online == 0
    requires forall i :: 0 <= i < |s.slots| ==> !s.slots[i].used
    ensures Sound(h, s)
  {
    SumZero(s.slots, IsOnline);
  }

  // ---- over every run ------------------------------------------------------

  /** Any operation on slot `i`: a first login, a second login in conflict with
      slot `p`, an unregistration, a change of anything but identity (and of the
      inner uuid where that is safe), or a memo entry added by a lookup. */
  ghost predicate Step(h: Hash, s: List, i: nat, a: Account, p: nat, now: int, t: List) {
    i < |s.slots| &&
    if !s.slots[i].used then
      && FreshAccount(s, i, a)
      && if NobodyHas(s, a.uid) then a.conflict == 0 && t == Registered(s, i, a, -1)
         else
           && Live(s, p) && a.conflict == Key(s, p) && t == Registered(s, i, a, p)
           && var b := s.slots[p].data; b.uid == a.uid && b.conflict == 0 && b.connid != a.connid
    else
      var b := s.slots[i].data;
      || ((b.conflict > 0 ==> 0 <= SlotOf(s, b.conflict) < |s.slots|) && t == Unregistered(h, s, i, now))
      || (SameIdentity(a.(uuid := b.uuid), b) && a.uuid > 0 && MayRebind(s, i, a.uuid) && t == WithAccount(s, i, a).(online := Recounted(s, i, a)))
      || t == s.(uids := s.uids[h(b.uid) := i])
      || t == s.(conns := s.conns[b.connid := i])
      || t == s.(uuids := s.uuids[b.uuid := i])
  }

  ghost predicate Next(h: Hash, s: List, t: List) {
    exists i: nat, a, p: nat, now :: Step(h, s, i, a, p, now, t)
  }

  ghost predicate NextAt(h: Hash, run: seq<List>, k: nat) {
    k + 1 < |run| && Next(h, run[k], run[k + 1])
  }

  /** Runs may start in any list that satisfies the invariant; by `EmptyIsSound`
      the list of the constructor does. */
  ghost predicate IsRun(h: Hash, run: seq<List>) {
    |run| > 0 && Sound(h, run[0]) && forall k: nat :: k < |run| - 1 ==> NextAt(h, run, k)
  }

  lemma StepKeepsInv(h: Hash, s: List, i: nat, a: Account, p: nat, now: int, t: List)
    requires Sound(h, s) && Step(h, s, i, a, p, now, t)
    ensures Sound(h, t)
  {
    if !s.slots[i].used {
      if NobodyHas(s, a.uid) {
        RegisterFreshKeepsInv(h, s, i, a);
      } else {
        RegisterConflictKeepsInv(h, s, i, a, p);
      }
    } else {
      var b := s.slots[i].data;
      UnregisterKeepsInv(h, s, i, now);
      MemoUidKeepsInv(h, s, i);
      MemoConnKeepsInv(h, s, i);
      MemoUuidKeepsInv(h, s, i);
      if SameIdentity(a.(uuid := b.uuid), b) && a.uuid > 0 {
        RenewKeepsInvExactlyWhen(h, s, i, a);
      }
    }
  }

  lemma {:induction false} RunIsSound(h: Hash, run: seq<List>, k: nat)
    requires IsRun(h, run) && k < |run|
    ensures Sound(h, run[k])
  {
    if k > 0 {
      RunIsSound(h, run, k - 1);
      assert NextAt(h, run, k - 1);
      var i: nat, a, p: nat, now :| Step(h, run[k - 1], i, a, p, now, run[k]);
      StepKeepsInv(h, run[k - 1], i, a, p, now, run[k]);
    }
  }

  /** In every state of every run: live accounts of one user are at most two,
      paired symmetrically, on different connections; memo entries are right;
      the counter is the count. */
  lemma EveryRun(h: Hash, run: seq<List>, k: nat)
    requires IsRun(h, run) && k < |run|
    ensures forall i, j :: Live(run[k], i) && Live(run[k], j) && i != j && run[k].slots[i].data.uid == run[k].slots[j].data.uid ==>
      Paired(run[k], i, j) && forall m :: Live(run[k], m) && run[k].slots[m].data.uid == run[k].slots[i].data.uid ==> m == i || m == j
    ensures MemoInv(h, run[k]) && run[k].online == Sum(run[k].slots, IsOnline)
  {
    RunIsSound(h, run, k);
    var s := run[k];
    assert Inv(h, s);
    forall i, j, m | Live(s, i) && Live(s, j) && Live(s, m) && i != j && s.slots[i].data.uid == s.slots[j].data.uid == s.slots[m].data.uid
      ensures m == i || m == j
    {
      AtMostTwo(s, i, j, m);
    }
  }
}
