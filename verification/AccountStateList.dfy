/** CAccountStateList: the pool of accounts with its memo maps and counter. */
module AccountStateList {
  import opened Counting
  import opened ObjectPool
  import opened Accounts

  class AccountStateList {
    const pool: Pool<Account>           // _accountStatePool
    const h: Hash                       // CityHash64 of a user id
    var uids: map<int, nat>
    var conns: map<nat, nat>
    var uuids: map<nat, nat>
    var online: int                     // _szOnlineCount

    ghost function View(): List
      reads this, pool, pool.elements
    {
      List(pool.baseId, pool.elements[..], uids, conns, uuids, online)
    }

    ghost predicate Valid()
      reads this, pool, pool.elements, pool.unusedIds
    {
      pool.Valid() && Sound(h, View())
    }

    constructor (size: nat, h: Hash)
      requires 600_001 + size < WORD && Injective(h)
      ensures Valid() && fresh(pool) && fresh(pool.elements) && fresh(pool.unusedIds)
      ensures this.h == h && pool.totalSize == size && forall i :: !Live(View(), i)
    {
      pool := new Pool<Account>(600_000, size);
      this.h := h;
      uids, conns, uuids, online := map[], map[], map[], 0;
      new;
      EmptyIsSound(h, View());
    }

    /** Keys and slots of the list are the pool's. */
    lemma KeysAreObjIds(i: nat)
      requires pool.Valid() && i < pool.totalSize
      ensures Key(View(), i) == pool.ObjId(i) > 0
      ensures ConvertId(pool.baseId, pool.totalSize, pool.ObjId(i)) == i + 1
    {
    }

    // ---- walking the pool ---------------------------------------------------

    /** The walk over used accounts, stopped at the first that matches. */
    method FirstUsed(p: Account -> bool) returns (r: int)
      requires pool.Valid()
      ensures -1 <= r < pool.totalSize
      ensures r >= 0 ==> Live(View(), r) && p(View().slots[r].data)
      ensures forall j :: Live(View(), j) && (r == -1 || j < r) ==> !p(View().slots[j].data)
    {
      var i := 0;
      while i < pool.totalSize
        invariant i <= pool.totalSize
        invariant forall j :: 0 <= j < i && pool.elements[j].used ==> !p(pool.elements[j].data)
      {
        if pool.elements[i].used && p(pool.elements[i].data) {
          return i;
        }
        i := i + 1;
      }
      return -1;
    }

    /** `CalcOnlineCount` */
    method CalcOnlineCount() returns (n: nat)
      requires pool.Valid()
      ensures n == Sum(pool.elements[..], IsOnline)
    {
      n := 0;
      var i := 0;
      while i < pool.totalSize
        invariant i <= pool.totalSize && n == Sum(pool.elements[..i], IsOnline)
      {
        assert pool.elements[..i + 1][..i] == pool.elements[..i];
        if pool.elements[i].used && pool.elements[i].data.onoff.Online? {
          n := n + 1;
        }
        i := i + 1;
      }
      assert pool.elements[..i] == pool.elements[..];
    }

    // ---- lookups ------------------------------------------------------------

    /** `GetByUid`: -1 exactly when no live account has the user id. */
    method GetByUid(uid: string) returns (r: int)
      requires Valid()
      modifies this`uids
      ensures Valid() && View() == old(View()).(uids := uids)
      ensures r == -1 <==> NobodyHas(View(), uid)
      ensures r != -1 ==> Live(View(), r) && View().slots[r].data.uid == uid
      ensures uids == if r == -1 then old(uids) else old(uids)[h(uid) := r]
    {
      MemoIsRight(h, View(), uid, 0, 0);
      if h(uid) in uids {
        return uids[h(uid)];
      }
      r := FirstUsed((a: Account) => a.uid == uid);
      if r >= 0 {
        MemoUidKeepsInv(h, View(), r);
        uids := uids[h(uid) := r];
      }
    }

    /** `GetByConnId` */
    method GetByConnId(connid: nat) returns (r: int)
      requires Valid()
      modifies this`conns
      ensures Valid() && View() == old(View()).(conns := conns)
      ensures r == -1 <==> forall j :: Live(View(), j) ==> View().slots[j].data.connid != connid
      ensures r != -1 ==> Live(View(), r) && View().slots[r].data.connid == connid
      ensures conns == if r == -1 then old(conns) else old(conns)[connid := r]
    {
      MemoIsRight(h, View(), "", connid, 0);
      if connid in conns {
        return conns[connid];
      }
      r := FirstUsed((a: Account) => a.connid == connid);
      if r >= 0 {
        MemoConnKeepsInv(h, View(), r);
        conns := conns[connid := r];
      }
    }

    /** `GetByInnerUuid` */
    method GetByInnerUuid(uuid: nat) returns (r: int)
      requires Valid()
      modifies this`uuids
      ensures Valid() && View() == old(View()).(uuids := uuids)
      ensures r == -1 <==> forall j :: Live(View(), j) ==> View().slots[j].data.uuid != uuid
      ensures r != -1 ==> Live(View(), r) && View().slots[r].data.uuid == uuid
      ensures uuids == if r == -1 then old(uuids) else old(uuids)[uuid := r]
    {
      MemoIsRight(h, View(), "", 0, uuid);
      if uuid in uuids {
        return uuids[uuid];
      }
      r := FirstUsed((a: Account) => a.uuid == uuid);
      if r >= 0 {
        MemoUuidKeepsInv(h, View(), r);
        uuids := uuids[uuid := r];
      }
    }

    // ---- changing an account ------------------------------------------------

    /** Writes fields of the account in slot `i`. */
    method Put(i: nat, a: Account)
      requires pool.Valid() && i < pool.totalSize
      modifies pool.elements
      ensures pool.Valid() && View() == WithAccount(old(View()), i, a)
    {
      ghost var before := pool.elements[..];
      DataKeepsList(before, pool.unusedIds[..pool.unusedSize], pool.place, i, a);
      pool.elements[i] := pool.elements[i].(data := a);
      assert pool.elements[..] == before[i := before[i].(data := a)];
    }

    /** `Offline` */
    method Offline(i: nat, now: int)
      requires pool.Valid() && i < pool.totalSize
      modifies this`online, pool.elements
      ensures pool.Valid() && View() == WentOffline(old(View()), i, now)
      ensures pool.elements[i].used == old(pool.elements[i].used)
      ensures pool.elements[i].data == old(pool.elements[i].data).(onoff := OnOff.Offline, onoffTime := now)
      ensures forall j :: 0 <= j < pool.totalSize && j != i ==> pool.elements[j] == old(pool.elements[j])
      ensures online == old(online) - BoolToInt(old(pool.elements[i].data).onoff == OnOff.Online)
      ensures old(Valid() && Live(View(), i)) ==> Valid()
    {
      ghost var s := View();
      var a := pool.elements[i].data;
      if a.onoff.Online? {
        online := online - 1;
      }
      Put(i, a.(onoff := OnOff.Offline, onoffTime := now));
      if Sound(h, s) && Live(s, i) {
        TouchKeepsInv(h, s, i, a.(onoff := OnOff.Offline, onoffTime := now));
      }
    }

    /** `KeepAlive` */
    method KeepAlive(i: nat, now: int)
      requires Valid() && Live(View(), i)
      modifies pool.elements
      ensures Valid()
      ensures View() == var a := old(View()).slots[i].data;
        if a.onoff.Online? then WithAccount(old(View()), i, a.(onoffTime := now)) else old(View())
    {
      ghost var s := View();
      var a := pool.elements[i].data;
      if a.onoff.Online? {
        TouchKeepsInv(h, s, i, a.(onoffTime := now));
        Put(i, a.(onoffTime := now));
      }
    }

    /** The environment attaches extension data. */
    method SetExt(i: nat, ext: bool)
      requires Valid() && Live(View(), i)
      modifies pool.elements
      ensures Valid() && View() == WithAccount(old(View()), i, old(View()).slots[i].data.(ext := ext))
    {
      var a := pool.elements[i].data;
      TouchKeepsInv(h, View(), i, a.(ext := ext));
      Put(i, a.(ext := ext));
    }

    /** An account that has been silent for too long. */
    static predicate Lost(n: Node<Account>, tolerance: int, now: int) {
      n.used && n.data.onoff.Online? && now - n.data.onoffTime >= tolerance
    }

    /** An account that `KeepAlive` has just renewed survives the check, whatever
        the tolerance; one that was renewed `d` before survives exactly the
        tolerances above `d`. */
    static lemma RenewedSurvives(n: Node<Account>, tolerance: int, now: int, d: nat)
      requires n.used && n.data.onoff == OnOff.Online && n.data.onoffTime == now - d
      ensures Checked(n, tolerance, now).data.onoff == OnOff.Online <==> tolerance > d
      ensures d == 0 && tolerance > 0 ==> Checked(n, tolerance, now) == n
    {
    }

    static function Checked(n: Node<Account>, tolerance: int, now: int): Node<Account> {
      if Lost(n, tolerance, now) then Node(n.data.(onoff := OnOff.Offline, onoffTime := now), true) else n
    }

    /** `CheckKeepAlive`: exactly the accounts that have been silent for the
        tolerance or longer go offline; nothing else changes. */
    method CheckKeepAlive(tolerance: int, now: int)
      requires Valid()
      modifies this`online, pool.elements
      ensures Valid() && View() == old(View()).(slots := View().slots, online := online)
      ensures forall j :: Live(old(View()), j) && old(View()).slots[j].data.onoff == OnOff.Online ==>
        var a, b := old(View()).slots[j].data, View().slots[j].data;
        && (b.onoff == OnOff.Online <==> now < a.onoffTime + tolerance)
        && b == if now < a.onoffTime + tolerance then a else a.(onoff := OnOff.Offline, onoffTime := now)
      ensures forall j :: 0 <= j < pool.totalSize && !(old(pool.elements[j]).used && old(pool.elements[j]).data.onoff == OnOff.Online) ==>
        pool.elements[j] == old(pool.elements[j])
      ensures forall j :: 0 <= j < pool.totalSize ==> pool.elements[j] == Checked(old(pool.elements[j]), tolerance, now)
    {
      ghost var before := pool.elements[..];
      var i := 0;
      while i < pool.totalSize
        invariant i <= pool.totalSize && Valid()
        invariant forall j :: i <= j < pool.totalSize ==> pool.elements[j] == before[j]
        invariant forall j :: 0 <= j < i ==> pool.elements[j] == Checked(before[j], tolerance, now)
      {
        if Lost(pool.elements[i], tolerance, now) {
          ghost var s := View();
          Offline(i, now);
          assert View().slots == s.slots[i := pool.elements[i]];
        }
        i := i + 1;
      }
    }

    // ---- allocating and releasing -------------------------------------------

    /** A zeroed account with its key. */
    static function Blank(keyid: nat): Account {
      Account(keyid, false, "", "", "", 0, 0, Initial, 0, false, 0)
    }

    /** `Alloc`: a used slot with a blank account, or -1 when the pool is full. */
    method Alloc() returns (r: int)
      requires pool.Valid()
      modifies pool, pool.elements
      ensures pool.Valid() && -1 <= r < pool.totalSize
      ensures r == -1 ==> View() == old(View()) && forall j :: 0 <= j < |View().slots| ==> View().slots[j].used
      ensures r >= 0 ==> !Live(old(View()), r)
      ensures r >= 0 ==> View() == old(View()).(slots := old(View()).slots[r := Node(Blank(Key(old(View()), r)), true)])
      ensures r >= 0 ==> var a := pool.elements[r].data;
        && a.keyid == pool.baseId + pool.totalSize - r && !a.ready && a.uid == a.nick == a.pwd == ""
        && a.connid == a.uuid == a.conflict == 0 && a.onoff == Initial && a.onoffTime == 0 && !a.ext
    {
      ghost var s := View();
      ghost var slot;
      var objid;
      objid, slot := pool.SafeAlloc();
      if objid == 0 {
        return -1;
      }
      var id := ConvertId(pool.baseId, pool.totalSize, objid);
      r := id - 1;
      KeysAreObjIds(slot);
      Put(r, Blank(objid));
      assert View().slots == s.slots[r := Node(Blank(objid), true)];
    }

    /** `Online`, which recounts, and `ConfirmAccountIsReady`. */
    method ConfirmAccountIsReady(i: nat, connid: nat, uuid: nat, now: int)
      requires pool.Valid() && i < pool.totalSize
      modifies this`online, pool.elements
      ensures pool.Valid()
      ensures var a := old(View()).slots[i].data.(connid := connid, uuid := uuid, onoff := Online, onoffTime := now, ready := true);
        View() == WithAccount(old(View()), i, a).(online := Sum(View().slots, IsOnline))
    {
      ghost var s := View();
      var a := pool.elements[i].data.(connid := connid, uuid := uuid, onoff := Online, onoffTime := now);
      Put(i, a);
      var n := CalcOnlineCount();
      online := n;
      Put(i, a.(ready := true));
      ghost var t := WithAccount(s, i, a);
      SumUpdate(t.slots, i, t.slots[i].(data := a.(ready := true)), IsOnline);
      assert View().slots == t.slots[i := t.slots[i].(data := a.(ready := true))];
    }

    /** The account's keys leave the three maps. */
    method Forget(a: Account)
      modifies this`uids, this`conns, this`uuids
      ensures uids == old(uids) - {h(a.uid)}
      ensures conns == if a.connid > 0 then old(conns) - {a.connid} else old(conns)
      ensures uuids == if a.uuid > 0 then old(uuids) - {a.uuid} else old(uuids)
    {
      uids := uids - {h(a.uid)};
      if a.connid > 0 {
        conns := conns - {a.connid};
      }
      if a.uuid > 0 {
        uuids := uuids - {a.uuid};
      }
    }

    /** `ReleaseInternal` */
    method ReleaseInternal(i: nat, now: int)
      requires pool.Valid() && i < pool.totalSize
      requires var n := pool.elements[i]; n.data.ready ==> n.used && n.data.keyid == pool.ObjId(i)
      modifies this, pool, pool.elements, pool.unusedIds
      ensures pool.Valid()
      ensures View() == if old(View()).slots[i].data.ready then Released(h, old(View()), i, now) else old(View())
      ensures old(View()).slots[i].data.ready ==> var a := old(View()).slots[i].data;
        && pool.elements[i] == Node(a.(ready := false, onoff := OnOff.Offline, onoffTime := now), false)
        && (forall j :: 0 <= j < pool.totalSize && j != i ==> pool.elements[j] == old(View()).slots[j])
        && uids == old(uids) - {h(a.uid)} && (a.connid > 0 ==> conns == old(conns) - {a.connid})
        && (a.uuid > 0 ==> uuids == old(uuids) - {a.uuid}) && online == old(online) - BoolToInt(a.onoff == OnOff.Online)
    {
      ghost var s := View();
      var a := pool.elements[i].data;
      if !a.ready {
        return;
      }
      KeysAreObjIds(i);
      Put(i, a.(ready := false));
      Forget(a);
      Offline(i, now);
      ghost var gone := a.(ready := false, onoff := OnOff.Offline, onoffTime := now);
      assert View().slots == s.slots[i := Node(gone, true)];
      pool.Release(a.keyid);
      assert View().slots == s.slots[i := Node(gone, false)] == Released(h, s, i, now).slots;
    }
  }
}
