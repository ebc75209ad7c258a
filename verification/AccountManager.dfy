/** CSimpleAccountManager: registering and unregistering logins. */
module AccountManager {
  import opened Counting
  import opened ObjectPool
  import opened Accounts
  import opened AccountStateList

  /** ACC_REG_RESULT */
  datatype RegResult =
    | Ok | Conflict | Duplicate
    | ListIsFull | MainAccountIsNotReady | ConflictTooManyTimes | UidOverflow | InvalidUid

  /** What a login says about itself. */
  datatype Login = Login(uid: string, nick: string, pwd: string, connid: nat, uuid: nat, now: int)

  predicate TooLong(g: Login) {
    |g.uid| >= 36 || |g.nick| >= 36 || |g.pwd| >= 40
  }

  /** The account a login gets. */
  function Account0(g: Login, keyid: nat, ext: bool, conflict: nat): Account {
    Account(keyid, true, g.uid, g.nick, g.pwd, g.connid, g.uuid, Online, g.now, ext, conflict)
  }

  predicate Full(slots: seq<Node<Account>>) {
    forall j :: 0 <= j < |slots| ==> slots[j].used
  }

  /** The answer when the live account `a` already has the user id. */
  function Verdict(s: List, a: Account, g: Login): RegResult {
    if a.conflict > 0 then ConflictTooManyTimes
    else if !a.ext then MainAccountIsNotReady
    else if a.connid == g.connid then Duplicate
    else if Full(s.slots) then ListIsFull
    else Conflict
  }

  /** Equal up to the memo of user ids, which lookups may extend. */
  predicate SameButMemo(s: List, t: List) {
    s.(uids := map[]) == t.(uids := map[])
  }

  /** Only a repeated login that changes the account's inner uuid while the memo
      holds it under the old one leaves a wrong memo entry behind. */
  predicate LeavesNoStaleMemo(s: List, g: Login, r: RegResult, account: int) {
    r.Duplicate? && 0 <= account < |s.slots| ==> MayRebind(s, account, g.uuid)
  }

  /** A list and a login for which this happens: user "u" is registered on
      connection 1 with inner uuid 7, has been looked up by it, and registers
      again with inner uuid 8.  A lookup of 7 then still answers the account. */
  lemma StaleUuid(h: Hash) returns (s: List, g: Login)
    requires Injective(h)
    ensures Sound(h, s) && g.connid > 0 && g.uuid > 0 && Answer(s, g, Duplicate) && !LeavesNoStaleMemo(s, g, Duplicate, 0)
    ensures Live(s, 0) && 7 in s.uuids && s.uuids[7] == 0
  {
    var a := Account(1, true, "u", "", "", 1, 7, Online, 0, true, 0);
    s := List(0, [Node(a, true)], map[], map[], map[7 := 0], 1);
    g := Login("u", "", "", 1, 8, 0);
    assert Sum(s.slots, IsOnline) == 1 by {
      assert s.slots[..0] == [];
    }
    assert Inv(h, s);
  }

  /** The answer to a login. */
  ghost predicate Answer(s: List, g: Login, r: RegResult) {
    if g.uid == "" then r == InvalidUid
    else if TooLong(g) then r == UidOverflow
    else
      && (NobodyHas(s, g.uid) ==> r == if Full(s.slots) then ListIsFull else Ok)
      && forall p :: Live(s, p) && s.slots[p].data.uid == g.uid ==> r == Verdict(s, s.slots[p].data, g)
  }

  /** The list after a login, up to the memo of user ids.  A first login takes
      a free slot; a conflicting one does too and is paired with the account
      that was there; a repeated one renews its account; an error changes
      nothing. */
  ghost predicate Effect(s: List, g: Login, r: RegResult, account: int, t: List) {
    match r
    case Ok =>
      && 0 <= account < |s.slots| && !Live(s, account)
      && SameButMemo(t, Registered(s, account, Account0(g, Key(s, account), false, 0), -1))
    case Conflict =>
      && 0 <= account < |s.slots| && !Live(s, account) && Live(t, account)
      && exists p :: ConflictsWith(s, g, account, p, t)
    case Duplicate =>
      && Live(s, account) && s.slots[account].data.uid == g.uid && s.slots[account].data.connid == g.connid
      && var b := s.slots[account].data; var a := Account0(g, b.keyid, b.ext, b.conflict);
         SameButMemo(t, WithAccount(s, account, a).(online := Recounted(s, account, a)))
    case _ => SameButMemo(t, s)
  }

  /** The fresh account and account `p`, which was there, are now a pair. */
  ghost predicate ConflictsWith(s: List, g: Login, account: int, p: int, t: List)
    requires 0 <= account < |s.slots| && Live(t, account)
  {
    && Live(s, p) && Live(t, p) && Paired(t, account, p)
    && SameButMemo(t, Registered(s, account, Account0(g, Key(s, account), false, Key(s, p)), p))
  }

  /** When each answer is due, for a user id that some live account `a` has. */
  lemma AnswerToKnownUser(s: List, g: Login, r: RegResult, p: int)
    requires Answer(s, g, r) && Live(s, p) && s.slots[p].data.uid == g.uid
    requires 0 < |g.uid| < 36 && |g.nick| < 36 && |g.pwd| < 40
    ensures var a, free := s.slots[p].data, exists j :: 0 <= j < |s.slots| && !s.slots[j].used;
      && (r == ConflictTooManyTimes <==> a.conflict > 0)
      && (r == MainAccountIsNotReady <==> a.conflict == 0 && !a.ext)
      && (r == Duplicate <==> a.conflict == 0 && a.ext && a.connid == g.connid)
      && (r == Conflict <==> a.conflict == 0 && a.ext && a.connid != g.connid && free)
      && (r == ListIsFull <==> a.conflict == 0 && a.ext && a.connid != g.connid && !free)
  {
  }

  /** And for a user id that nobody has, or a login that is not acceptable. */
  lemma AnswerToNewUser(s: List, g: Login, r: RegResult)
    requires Answer(s, g, r) && NobodyHas(s, g.uid)
    ensures var free, long := exists j :: 0 <= j < |s.slots| && !s.slots[j].used, |g.uid| >= 36 || |g.nick| >= 36 || |g.pwd| >= 40;
      && (r == Ok <==> g.uid != "" && !long && free)
      && (r == ListIsFull <==> g.uid != "" && !long && !free)
  {
  }

  lemma AnswerToBadLogin(s: List, g: Login, r: RegResult)
    requires Answer(s, g, r)
    ensures r == InvalidUid <==> g.uid == ""
    ensures r == UidOverflow <==> g.uid != "" && (|g.uid| >= 36 || |g.nick| >= 36 || |g.pwd| >= 40)
  {
    if g.uid != "" && !TooLong(g) && !NobodyHas(s, g.uid) {
      var p :| Live(s, p) && s.slots[p].data.uid == g.uid;
      AnswerToKnownUser(s, g, r, p);
    }
  }

  /** What the account of a successful login says, field by field, and what the
      others keep. */
  lemma LoginIsBound(s: List, g: Login, r: RegResult, account: int, t: List)
    requires Effect(s, g, r, account, t) && (r == Ok || r == Conflict || r == Duplicate)
    ensures Live(t, account) && |t.slots| == |s.slots|
    ensures var a := t.slots[account].data;
      && a.uid == g.uid && a.nick == g.nick && a.pwd == g.pwd && a.connid == g.connid && a.uuid == g.uuid
      && a.ready && a.onoff == Online && a.onoffTime == g.now
      && (r != Duplicate ==> a.keyid == s.base + |s.slots| - account && !a.ext && !Live(s, account))
      && (r == Ok ==> a.conflict == 0)
      && (r == Duplicate ==> Live(s, account) && a.keyid == s.slots[account].data.keyid && a.ext == s.slots[account].data.ext
                             && a.conflict == s.slots[account].data.conflict)
    ensures r != Conflict ==> forall j :: 0 <= j < |s.slots| && j != account ==> t.slots[j] == s.slots[j]
  {
    if r == Conflict {
      var p :| ConflictsWith(s, g, account, p, t);
    }
  }

  /** In a conflict the two accounts carry each other's keys; nobody else
      changes. */
  lemma ConflictIsMarked(s: List, g: Login, account: int, p: int, t: List)
    requires 0 <= account < |s.slots| && Live(t, account) && ConflictsWith(s, g, account, p, t)
    ensures Live(s, p) && Live(t, p) && p != account && |t.slots| == |s.slots|
    ensures t.slots[account].data.conflict == s.base + |s.slots| - p
    ensures t.slots[p].data == s.slots[p].data.(conflict := t.slots[account].data.keyid)
    ensures t.slots[account].data.uid == t.slots[p].data.uid && t.slots[account].data.connid != t.slots[p].data.connid
    ensures forall j :: 0 <= j < |s.slots| && j != account && j != p ==> t.slots[j] == s.slots[j]
  {
  }

  /** A login that is not accepted changes nothing but the memo of user ids. */
  lemma RefusalChangesNothing(s: List, g: Login, r: RegResult, account: int, t: List)
    requires Effect(s, g, r, account, t) && r != Ok && r != Conflict && r != Duplicate
    ensures t == s.(uids := t.uids)
  {
  }

  /** What a lookup added to the memo does not matter. */
  lemma AnswerWithoutMemo(s: List, s': List, g: Login, r: RegResult)
    requires s' == s.(uids := s'.uids) && Answer(s', g, r)
    ensures Answer(s, g, r)
  {
    assert forall j :: Live(s, j) <==> Live(s', j);
  }

  lemma ConflictWithoutMemo(s: List, s': List, g: Login, account: int, p: int, t: List)
    requires s' == s.(uids := s'.uids) && 0 <= account < |s.slots| && Live(t, account)
    requires ConflictsWith(s', g, account, p, t)
    ensures ConflictsWith(s, g, account, p, t)
  {
  }

  lemma EffectWithoutMemo(s: List, s': List, g: Login, r: RegResult, account: int, t: List)
    requires s' == s.(uids := s'.uids) && Effect(s', g, r, account, t)
    ensures Effect(s, g, r, account, t)
  {
    if r.Conflict? {
      var p :| ConflictsWith(s', g, account, p, t);
      ConflictWithoutMemo(s, s', g, account, p, t);
    }
  }

  class AccountManager {
    const list: AccountStateList       // _onlineList

    ghost predicate Valid()
      reads this, list, list.pool, list.pool.elements, list.pool.unusedIds
    {
      list.Valid()
    }

    constructor (list: AccountStateList)
      requires list.Valid()
      ensures Valid() && this.list == list
    {
      this.list := list;
    }

    /** The end of `Register`: the account's texts, then its route and state. */
    method Bind(i: nat, g: Login)
      requires list.pool.Valid() && i < list.pool.totalSize
      modifies list`online, list.pool.elements
      ensures list.pool.Valid()
      ensures var s, t := old(list.View()), list.View();
        var b := s.slots[i].data;
        && t.slots == s.slots[i := Node(Account0(g, b.keyid, b.ext, b.conflict), s.slots[i].used)]
        && t == s.(slots := t.slots, online := Sum(t.slots, IsOnline))
    {
      var b := list.pool.elements[i].data;
      list.Put(i, b.(uid := g.uid, nick := g.nick, pwd := g.pwd));
      list.ConfirmAccountIsReady(i, g.connid, g.uuid, g.now);
    }

    /** A first login: a fresh slot, or -1 when the list is full. */
    method RegisterFresh(g: Login) returns (i: int)
      requires Valid() && g.connid > 0 && g.uuid > 0 && NobodyHas(list.View(), g.uid)
      modifies list`online, list.pool, list.pool.elements
      ensures Valid() && -1 <= i < list.pool.totalSize
      ensures i == -1 ==> Full(old(list.View()).slots) && list.View() == old(list.View())
      ensures i >= 0 ==> !Full(old(list.View()).slots) && !Live(old(list.View()), i)
      ensures i >= 0 ==> list.View() == Registered(old(list.View()), i, Account0(g, Key(old(list.View()), i), false, 0), -1)
    {
      ghost var s := list.View();
      i := list.Alloc();
      if i >= 0 {
        Bind(i, g);
        ghost var a := Account0(g, Key(s, i), false, 0);
        RegisterFreshKeepsInv(list.h, s, i, a);
        assert list.View().slots == s.slots[i := Node(a, true)];
      }
    }

    /** Each account is told the other's key. */
    method MarkConflict(i: nat, p: nat)
      requires list.pool.Valid() && i < list.pool.totalSize && p < list.pool.totalSize && i != p
      modifies list.pool.elements
      ensures list.pool.Valid()
      ensures var s := old(list.View()); var mine, other := s.slots[i], s.slots[p];
        list.View() == s.(slots := s.slots[i := mine.(data := mine.data.(conflict := other.data.keyid))]
                                          [p := other.(data := other.data.(conflict := mine.data.keyid))])
    {
      var mine, other := list.pool.elements[i].data, list.pool.elements[p].data;
      list.Put(i, mine.(conflict := other.keyid));
      list.Put(p, other.(conflict := mine.keyid));
    }

    /** A second login on another connection: the two accounts are marked as
        being in conflict with each other.  The fresh slot is never the one of
        the account it is in conflict with. */
    method RegisterConflict(g: Login, p: nat) returns (i: int)
      requires Valid() && g.connid > 0 && g.uuid > 0 && Live(list.View(), p)
      requires var a := list.View().slots[p].data; a.uid == g.uid && a.conflict == 0 && a.connid != g.connid
      modifies list`online, list.pool, list.pool.elements
      ensures Valid() && -1 <= i < list.pool.totalSize && i != p
      ensures i == -1 ==> Full(old(list.View()).slots) && list.View() == old(list.View())
      ensures i >= 0 ==> !Full(old(list.View()).slots) && !Live(old(list.View()), i)
      ensures i >= 0 ==> var s := old(list.View());
        && list.View() == Registered(s, i, Account0(g, Key(s, i), false, Key(s, p)), p)
        && Live(list.View(), i) && Live(list.View(), p) && Paired(list.View(), i, p)
    {
      ghost var s := list.View();
      LiveIsFilled(list.h, s, p);
      i := list.Alloc();
      if i >= 0 {
        MarkConflict(i, p);
        Bind(i, g);
        ghost var a := Account0(g, Key(s, i), false, Key(s, p));
        RegisterConflictKeepsInv(list.h, s, i, a, p);
        assert list.View().slots == Registered(s, i, a, p).slots;
      }
    }

    /** The same login again on the same connection, perhaps with another inner
        uuid: the list stays right exactly when the memo does not hold the
        account under the old one. */
    method RegisterAgain(g: Login, p: nat)
      requires Valid() && Live(list.View(), p) && g.uuid > 0
      requires var a := list.View().slots[p].data; a.uid == g.uid && a.connid == g.connid
      modifies list`online, list.pool.elements
      ensures list.pool.Valid() && (Valid() <==> MayRebind(old(list.View()), p, g.uuid))
      ensures var s := old(list.View()); var b := s.slots[p].data; var a := Account0(g, b.keyid, b.ext, b.conflict);
        list.View() == WithAccount(s, p, a).(online := Recounted(s, p, a))
    {
      ghost var s := list.View();
      ghost var b := s.slots[p].data;
      ghost var a := Account0(g, b.keyid, b.ext, b.conflict);
      LiveIsFilled(list.h, s, p);
      OnlineIsCount(list.h, s);
      RenewKeepsInvExactlyWhen(list.h, s, p, a);
      SumUpdate(s.slots, p, Node(a, true), IsOnline);
      Bind(p, g);
    }

    /** `Register` once the lookup of the user id has answered `p`. */
    method RegisterFound(g: Login, p: int) returns (r: RegResult, account: int)
      requires Valid() && g.connid > 0 && g.uuid > 0 && g.uid != "" && !TooLong(g)
      requires p == -1 ==> NobodyHas(list.View(), g.uid)
      requires p != -1 ==> Live(list.View(), p) && list.View().slots[p].data.uid == g.uid
      modifies list`online, list.pool, list.pool.elements
      ensures Answer(old(list.View()), g, r) && Effect(old(list.View()), g, r, account, list.View())
      ensures list.pool.Valid() && (Valid() <==> LeavesNoStaleMemo(old(list.View()), g, r, account))
    {
      if p == -1 {
        account := RegisterFresh(g);
        return if account == -1 then ListIsFull else Ok, account;
      }
      var a := list.pool.elements[p].data;
      OneVerdict(list.View(), g, p);
      if a.conflict > 0 {
        return ConflictTooManyTimes, -1;
      }
      if !a.ext {
        return MainAccountIsNotReady, -1;
      }
      if g.connid != a.connid {
        ghost var s := list.View();
        account := RegisterConflict(g, p);
        assert account != p;
        assert account >= 0 ==> ConflictsWith(s, g, account, p, list.View());
        return if account == -1 then ListIsFull else Conflict, account;
      }
      RegisterAgain(g, p);
      return Duplicate, p;
    }

    /** `Register`: the answer and the new list are those that the live accounts
        with the user id decide, whichever of them a lookup finds.  The list
        stays right unless a repeated login changes an inner uuid that the memo
        knows. */
    method Register(g: Login) returns (r: RegResult, account: int)
      requires Valid() && g.connid > 0 && g.uuid > 0
      modifies list`online, list`uids, list.pool, list.pool.elements
      ensures Answer(old(list.View()), g, r) && Effect(old(list.View()), g, r, account, list.View())
      ensures list.pool.Valid() && (Valid() <==> LeavesNoStaleMemo(old(list.View()), g, r, account))
    {
      if |g.uid| <= 0 {
        return InvalidUid, -1;
      }
      if TooLong(g) {
        return UidOverflow, -1;
      }
      ghost var s := list.View();
      var p := list.GetByUid(g.uid);
      ghost var s' := list.View();
      r, account := RegisterFound(g, p);
      AnswerWithoutMemo(s, s', g, r);
      EffectWithoutMemo(s, s', g, r, account, list.View());
    }

    /** If two live accounts have the user id, both are in conflict, so it does
        not matter which one a lookup finds. */
    lemma OneVerdict(s: List, g: Login, p: int)
      requires Sound(list.h, s) && Live(s, p) && s.slots[p].data.uid == g.uid
      ensures forall q :: Live(s, q) && s.slots[q].data.uid == g.uid ==> Verdict(s, s.slots[q].data, g) == Verdict(s, s.slots[p].data, g)
    {
      forall q | Live(s, q) && s.slots[q].data.uid == g.uid ensures Verdict(s, s.slots[q].data, g) == Verdict(s, s.slots[p].data, g) {
        if q != p {
          SameUserIsPair(list.h, s, p, q);
        }
      }
    }

    /** `Unregister`: a second call for the same account does nothing. */
    method Unregister(i: nat, now: int)
      requires Valid() && i < list.pool.totalSize
      requires list.pool.elements[i].data.ready ==> list.pool.elements[i].used
      modifies list, list.pool, list.pool.elements, list.pool.unusedIds
      ensures Valid()
      ensures !list.pool.elements[i].data.ready
      ensures !old(list.pool.elements[i].data.ready) ==> list.View() == old(list.View())
      ensures old(list.pool.elements[i].data.ready) ==>
        Live(old(list.View()), i) && After(old(list.View()), i, list.View())
    {
      var a := list.pool.elements[i].data;
      if !a.ready {
        return;
      }
      ghost var s := list.View();
      LiveIsFilled(list.h, s, i);
      list.KeysAreObjIds(i);
      UnregisterKeepsInv(list.h, s, i, now);
      if a.conflict > 0 {
        var j := ConvertId(list.pool.baseId, list.pool.totalSize, a.conflict) - 1;
        list.Put(i, a.(conflict := 0));
        list.Put(j, list.pool.elements[j].data.(conflict := 0));
      }
      assert list.View() == Unpaired(s, i);
      list.ReleaseInternal(i, now);
    }

    /** `UnregisterByConnId`: exactly the accounts of that connection go; the
        others stay as they were, except that those whose partner left are no
        longer in conflict. */
    method UnregisterByConnId(connid: nat, now: int)
      requires Valid()
      modifies list, list.pool, list.pool.elements, list.pool.unusedIds
      ensures Valid()
      ensures forall j :: 0 <= j < list.pool.totalSize ==>
        (Live(list.View(), j) <==> Live(old(list.View()), j) && old(list.View()).slots[j].data.connid != connid)
      ensures forall j :: Live(list.View(), j) ==>
        var a, b := old(list.View()).slots[j].data, list.View().slots[j].data; b == a || b == a.(conflict := 0)
    {
      ghost var s := list.View();
      var i := 0;
      while i < list.pool.totalSize
        invariant i <= list.pool.totalSize && Valid()
        invariant forall j :: 0 <= j < list.pool.totalSize ==>
          (Live(list.View(), j) <==> Live(s, j) && (j < i ==> s.slots[j].data.connid != connid))
        invariant forall j :: Live(list.View(), j) ==>
          var a, b := s.slots[j].data, list.View().slots[j].data; b == a || b == a.(conflict := 0)
      {
        if list.pool.elements[i].used && connid == list.pool.elements[i].data.connid {
          LiveIsFilled(list.h, list.View(), i);
          Unregister(i, now);
        }
        i := i + 1;
      }
    }
  }
}
