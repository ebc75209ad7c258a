/** CObjectPool: a fixed array of elements and a list of the unused ones. */
module ObjectPool {
  import opened Counting

  const WORD := 0x1_0000_0000

  /** Identifiers given out count down as slots count up.  The subtraction is
      unsigned and wraps around. */
  function ConvertId(baseId: nat, totalSize: nat, id: nat): nat
    requires 1 + baseId + totalSize < WORD && id < WORD
  {
    var d := 1 + baseId + totalSize - id;
    if d >= 0 then d else d + WORD
  }

  lemma ConvertIdIsInvolution(baseId: nat, totalSize: nat, id: nat)
    requires 1 + baseId + totalSize < WORD && id < WORD
    ensures ConvertId(baseId, totalSize, ConvertId(baseId, totalSize, id)) == id
  {
  }

  /** The ids of the slots are exactly the numbers above the base up to base plus
      size, and count down as slots count up. */
  lemma IdsFillTheRange(baseId: nat, totalSize: nat, o: nat)
    requires 1 + baseId + totalSize < WORD && o < WORD
    ensures baseId < o <= baseId + totalSize <==> exists id :: 1 <= id <= totalSize && ConvertId(baseId, totalSize, id) == o
    ensures forall id :: 1 <= id <= totalSize ==> ConvertId(baseId, totalSize, id) == baseId + totalSize + 1 - id
  {
    if baseId < o <= baseId + totalSize {
      assert ConvertId(baseId, totalSize, baseId + totalSize + 1 - o) == o;
    }
  }

  /** object_pool_node_t */
  datatype Node<T> = Node(data: T, used: bool)

  function Unused<T>(n: Node<T>): int { if n.used then 0 else 1 }

  // ---- the list of unused slots --------------------------------------------

  /** `ids` lists every unused slot exactly once, as slot plus one, and no used
      slot; `place` tells where. */
  ghost predicate Lists<T>(nodes: seq<Node<T>>, ids: seq<nat>, place: seq<nat>) {
    && |place| == |nodes| && |ids| == Sum(nodes, Unused<T>)
    && (forall i :: 0 <= i < |ids| ==> 1 <= ids[i] <= |nodes|)
    && (forall i :: 0 <= i < |ids| ==> !nodes[ids[i] - 1].used && place[ids[i] - 1] == i)
    && (forall s :: 0 <= s < |nodes| && !nodes[s].used ==> place[s] < |ids| && ids[place[s]] == s + 1)
  }

  /** The same, quantified over an equal string of nodes so that the solver
      unfolds it only where a lemma below asks for it. */
  ghost predicate Listed<T(!new)>(nodes: seq<Node<T>>, ids: seq<nat>, place: seq<nat>) {
    forall t :: t == nodes ==> Lists(t, ids, place)
  }

  /** What the list means to its users. */
  lemma ListsExactly<T(!new)>(nodes: seq<Node<T>>, ids: seq<nat>, place: seq<nat>)
    requires Listed(nodes, ids, place)
    ensures |ids| == Sum(nodes, Unused<T>) && |place| == |nodes|
    ensures forall i :: 0 <= i < |ids| ==> 1 <= ids[i] <= |nodes|
    ensures forall i, j :: 0 <= i < j < |ids| ==> ids[i] != ids[j]
    ensures forall s :: 0 <= s < |nodes| ==> (s + 1 in ids <==> !nodes[s].used)
  {
    assert Lists(nodes, ids, place);
    forall s | 0 <= s < |nodes| ensures s + 1 in ids <==> !nodes[s].used {
      if !nodes[s].used {
        assert ids[place[s]] == s + 1;
      }
    }
  }

  /** Taking the last entry, or any entry with the last put in its place. */
  lemma TakeKeepsList<T(!new)>(nodes: seq<Node<T>>, ids: seq<nat>, place: seq<nat>, i: nat)
    requires Listed(nodes, ids, place) && i < |ids|
    ensures 1 <= ids[i] <= |nodes| && 1 <= ids[|ids| - 1] <= |nodes| == |place| && !nodes[ids[i] - 1].used
    ensures var s, last := ids[i] - 1, |ids| - 1;
      Listed(nodes[s := nodes[s].(used := true)], ids[i := ids[last]][..last], place[ids[last] - 1 := i])
  {
    assert Lists(nodes, ids, place);
    var s := ids[i] - 1;
    SumUpdate(nodes, s, nodes[s].(used := true), Unused<T>);
  }

  /** Putting a slot at the end. */
  lemma PushKeepsList<T(!new)>(nodes: seq<Node<T>>, ids: seq<nat>, place: seq<nat>, s: nat)
    requires Listed(nodes, ids, place) && s < |nodes| && nodes[s].used
    ensures |place| == |nodes| && |ids| < |nodes|
    ensures Listed(nodes[s := nodes[s].(used := false)], ids + [s + 1], place[s := |ids|])
  {
    assert Lists(nodes, ids, place);
    UsedLeavesRoom(nodes, s);
    SumUpdate(nodes, s, nodes[s].(used := false), Unused<T>);
  }

  /** While some slot is in use the list has room. */
  lemma UsedLeavesRoom<T(!new)>(nodes: seq<Node<T>>, s: nat)
    requires s < |nodes| && nodes[s].used
    ensures Sum(nodes, Unused<T>) < |nodes|
  {
    var n := nodes[s].(used := false);
    SumUpdate(nodes, s, n, Unused<T>);
    SumAtMost(nodes[s := n], Unused<T>);
  }

  /** Initially every slot is listed, in order. */
  lemma {:induction false} AllUnused<T>(nodes: seq<Node<T>>)
    requires forall i :: 0 <= i < |nodes| ==> !nodes[i].used
    ensures Sum(nodes, Unused<T>) == |nodes|
  {
    if nodes != [] {
      AllUnused(nodes[..|nodes| - 1]);
    }
  }

  /** What the elements hold does not matter to the list. */
  lemma DataKeepsList<T(!new)>(nodes: seq<Node<T>>, ids: seq<nat>, place: seq<nat>, s: nat, data: T)
    requires Listed(nodes, ids, place) && s < |nodes|
    ensures Listed(nodes[s := nodes[s].(data := data)], ids, place)
  {
    assert Lists(nodes, ids, place);
    SumUpdate(nodes, s, nodes[s].(data := data), Unused<T>);
  }

  lemma InitialList<T(!new)>(nodes: seq<Node<T>>, ids: seq<nat>, place: seq<nat>)
    requires |ids| == |place| == |nodes|
    requires forall i :: 0 <= i < |nodes| ==> !nodes[i].used && ids[i] == i + 1 && place[i] == i
    ensures Listed(nodes, ids, place)
  {
    AllUnused(nodes);
  }

  // ---- the pool ------------------------------------------------------------

  class Pool<T(0, !new)> {
    const baseId: nat
    const totalSize: nat
    const elements: array<Node<T>>     // _all_elements
    const unusedIds: array<nat>        // _unused_ids
    var unusedSize: nat                // _unused_size
    ghost var place: seq<nat>

    ghost predicate Valid()
      reads this, elements, unusedIds
    {
      && elements.Length == unusedIds.Length == totalSize && 1 + baseId + totalSize < WORD
      && unusedSize <= totalSize && Listed(elements[..], unusedIds[..unusedSize], place)
    }

    /** Slot `s` is known outside by this identifier. */
    function ObjId(s: nat): nat
      requires 1 + baseId + totalSize < WORD && s < totalSize
    {
      ConvertId(baseId, totalSize, s + 1)
    }

    /** `SafeInit` */
    constructor (baseId: nat, size: nat)
      requires 1 + baseId + size < WORD
      ensures Valid() && fresh(elements) && fresh(unusedIds)
      ensures this.baseId == baseId && totalSize == size && forall s :: 0 <= s < size ==> !elements[s].used
    {
      this.baseId, totalSize, unusedSize := baseId, size, size;
      elements := new Node<T>[size];
      unusedIds := new nat[size];
      place := seq(size, i => i);
      new;
      var i := 0;
      while i < size
        invariant i <= size && unusedSize == size && place == seq(size, j => j)
        invariant forall j :: 0 <= j < i ==> !elements[j].used && unusedIds[j] == j + 1
      {
        elements[i] := elements[i].(used := false);
        unusedIds[i] := i + 1;
        i := i + 1;
      }
      InitialList(elements[..], unusedIds[..unusedSize], place);
    }

    /** `GetObjectNum`: how many slots are in use. */
    method GetObjectNum() returns (n: nat)
      requires Valid()
      ensures n == totalSize - Sum(elements[..], Unused<T>)
    {
      ListsExactly(elements[..], unusedIds[..unusedSize], place);
      n := totalSize - unusedSize;
    }

    /** Marks slot `s` used or unused. */
    method Mark(s: nat, used: bool)
      requires s < elements.Length
      modifies elements
      ensures elements[..] == old(elements[..])[s := old(elements[s]).(used := used)]
    {
      elements[s] := elements[s].(used := used);
    }

    /** `SafeAlloc()`: takes the last listed slot, or 0 when none is left.
        With `Release` the list is a stack: the slot released last goes first. */
    method SafeAlloc() returns (objid: nat, ghost s: nat)
      requires Valid()
      modifies this, elements
      ensures Valid()
      ensures objid == 0 ==> elements[..] == old(elements[..]) && forall j :: 0 <= j < totalSize ==> elements[j].used
      ensures objid > 0 ==> s < totalSize && objid == ObjId(s) && !old(elements[s].used)
      ensures objid > 0 ==> elements[..] == old(elements[..])[s := old(elements[s]).(used := true)]
      ensures objid > 0 ==> unusedSize == old(unusedSize) - 1 && s + 1 == unusedIds[unusedSize]
      ensures objid == 0 <==> old(unusedSize) == 0
    {
      s := 0;
      ghost var ids := unusedIds[..unusedSize];
      if unusedSize == 0 {
        ListsExactly(elements[..], ids, place);
        return 0, 0;
      }
      var id := unusedIds[unusedSize - 1];
      TakeKeepsList(elements[..], ids, place, unusedSize - 1);
      unusedSize := unusedSize - 1;
      assert ids[unusedSize := id][..unusedSize] == unusedIds[..unusedSize];
      place := place[id - 1 := unusedSize];
      Mark(id - 1, true);
      return ConvertId(baseId, totalSize, id), id - 1;
    }

    /** Takes the slot listed at `i` and puts the tail of the list there. */
    method TakeAt(i: nat)
      requires Valid() && i < unusedSize
      modifies this, elements, unusedIds
      ensures Valid()
      ensures 1 <= old(unusedIds[i]) <= totalSize
      ensures var s := old(unusedIds[i]) - 1; elements[..] == old(elements[..])[s := old(elements[s]).(used := true)]
    {
      var id := unusedIds[i];
      ghost var ids := unusedIds[..unusedSize];
      TakeKeepsList(elements[..], ids, place, i);
      var tail := unusedIds[unusedSize - 1];
      unusedIds[i] := tail;
      unusedSize := unusedSize - 1;
      assert ids[i := tail][..unusedSize] == unusedIds[..unusedSize];
      place := place[tail - 1 := i];
      Mark(id - 1, true);
    }

    /** `SafeAlloc(objid)`: takes a given slot, or returns 0 when the slot is in
        use. */
    method SafeAllocId(objid: nat) returns (r: nat)
      requires Valid() && objid < WORD && 1 <= ConvertId(baseId, totalSize, objid) <= totalSize && objid > 0
      modifies this, elements, unusedIds
      ensures Valid()
      ensures var s := ConvertId(baseId, totalSize, objid) - 1;
        && r == (if old(elements[s].used) then 0 else objid)
        && elements[..] == old(elements[..])[s := old(elements[s]).(used := true)]
    {
      var id := ConvertId(baseId, totalSize, objid);
      ghost var ids := unusedIds[..unusedSize];
      ListsExactly(elements[..], ids, place);
      var i := 0;
      while i < unusedSize && id != unusedIds[i]
        invariant i <= unusedSize && forall j :: 0 <= j < i ==> ids[j] != id
      {
        i := i + 1;
      }
      if i < unusedSize {
        assert ids[i] == id;
        TakeAt(i);
        return objid;
      }
      return 0;
    }

    /** `ReleaseInternal`: the slot goes to the end of the list. */
    method Release(objid: nat)
      requires Valid() && objid < WORD && 1 <= ConvertId(baseId, totalSize, objid) <= totalSize
      requires elements[ConvertId(baseId, totalSize, objid) - 1].used
      modifies this, elements, unusedIds
      ensures Valid()
      ensures var s := ConvertId(baseId, totalSize, objid) - 1;
        elements[..] == old(elements[..])[s := old(elements[s]).(used := false)]
      ensures unusedSize == old(unusedSize) + 1 && unusedIds[..old(unusedSize)] == old(unusedIds[..unusedSize])
      ensures unusedIds[old(unusedSize)] == ConvertId(baseId, totalSize, objid)
    {
      var id := ConvertId(baseId, totalSize, objid);
      ghost var ids := unusedIds[..unusedSize];
      PushKeepsList(elements[..], ids, place, id - 1);
      Mark(id - 1, false);
      unusedSize := unusedSize + 1;
      unusedIds[unusedSize - 1] := id;
      place := place[id - 1 := unusedSize - 1];
      assert unusedIds[..unusedSize] == ids + [id];
    }
  }
}
