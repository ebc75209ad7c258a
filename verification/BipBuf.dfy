/** `bip_buf`: a buffer of twice its capacity whose single committed region
    slides back to the front when the room behind it runs out. */
module BipBuf {
  import opened Bytes
  import opened PowerOfTwo

  class BipBuf {
    var buffer: array<byte>       // _buffer
    var capacity: nat             // _available_capacity
    var aStart: nat               // committed region
    var aEnd: nat
    var rStart: nat               // reservation, empty when rStart == rEnd
    var rEnd: nat

    /** What is in the committed region. */
    ghost var contents: seq<byte>

    /** History: every byte ever committed, and how many of them have been
        decommitted. */
    ghost var committed: seq<byte>
    ghost var dropped: nat

    /** The contiguous block holds the committed bytes minus the decommitted
        prefix; the reservation follows it, fits in the buffer, and together
        they never exceed the capacity. */
    ghost predicate Valid()
      reads this, buffer
    {
      && buffer.Length == 2 * capacity
      && aStart <= aEnd <= 2 * capacity && aEnd - aStart <= capacity
      && rStart <= rEnd && (rStart == rEnd ==> rStart == 0)
      && (rStart < rEnd ==> rStart == aEnd && rEnd <= 2 * capacity && rEnd - aStart <= capacity)
      && |contents| == aEnd - aStart && (forall i :: 0 <= i < |contents| ==> contents[i] == buffer[aStart + i])
      && Piece(committed, dropped, |committed|, contents)
    }

    constructor Create(capacity: nat)
      ensures Valid() && fresh(buffer) && this.capacity == capacity && committed == contents == [] && dropped == 0
      ensures CommittedSize() == 0 && ReservationSize() == 0
    {
      this.capacity := capacity;
      buffer := new byte[2 * capacity];
      aStart, aEnd, rStart, rEnd := 0, 0, 0, 0;
      contents, committed, dropped := [], [], 0;
    }

    /** `bip_buf_get_contiguous_block` */
    method ContiguousBlock() returns (block: seq<byte>)
      requires Valid()
      ensures block == contents
    {
      block := buffer[aStart..aEnd];
    }

    /** The first `n` reserved bytes. */
    function Reserved(n: nat): (s: seq<byte>)
      requires rStart + n <= buffer.Length
      reads this, buffer
      ensures |s| == n && forall i :: 0 <= i < n ==> s[i] == buffer[rStart + i]
    {
      var a, start := buffer, rStart;
      seq(n, i requires 0 <= i < n reads a => a[start + i])
    }

    function CommittedSize(): nat
      requires aStart <= aEnd
      reads this
    {
      aEnd - aStart
    }

    function ReservationSize(): nat
      requires rStart <= rEnd
      reads this
    {
      rEnd - rStart
    }

    /** Moves the committed region to the front of the buffer.  The caller has
        found too little room for `size` bytes behind the region, which puts
        the region above the capacity, so the copy never overlaps it. */
    method Slide(ghost size: nat)
      requires Valid() && rStart == rEnd
      requires size <= capacity - (aEnd - aStart) && 2 * capacity - aEnd < size
      modifies this`aStart, this`aEnd, buffer
      ensures Valid() && aStart == 0 && aEnd == old(aEnd - aStart) && old(aStart) > capacity
    {
      assert aStart > capacity && aEnd - aStart < aStart;
      Memcpy(buffer, 0, buffer, aStart, aEnd - aStart);
      aStart, aEnd := 0, aEnd - aStart;
    }

    /** `bip_buf_reserve`: everything free is reserved. */
    method Reserve() returns (ok: bool, size: nat)
      requires Valid()
      modifies this`aStart, this`aEnd, this`rStart, this`rEnd, buffer
      ensures Valid()
      ensures ok <==> old(rStart == rEnd) && old(aEnd - aStart) < capacity
      ensures ok ==> size == capacity - CommittedSize() == ReservationSize() > 0 && rStart == aEnd
      ensures ok ==> aStart == if old(aStart == aEnd || 2 * capacity - aEnd < capacity - (aEnd - aStart)) then 0 else old(aStart)
      ensures !ok ==> size == 0 && rStart == old(rStart) && rEnd == old(rEnd)
    {
      if rEnd - rStart > 0 {
        return false, 0;
      }
      var regionASize := aEnd - aStart;
      var freespace := capacity - regionASize;
      if freespace == 0 {
        return false, 0;
      }
      size := freespace;
      if regionASize == 0 {
        aStart, aEnd := 0, 0;
      } else if capacity + capacity - aEnd < size {
        Slide(size);
      }
      rStart := aEnd;
      rEnd := rStart + size;
      ok := true;
    }

    /** The growing branch: the block moves to a larger buffer. */
    method Grow(size: nat)
      requires Valid() && rStart == rEnd && 0 < capacity + size <= TWO_31
      modifies this`buffer, this`capacity, this`aStart, this`aEnd
      ensures Valid() && fresh(buffer)
      ensures RoundsTo(old(capacity) + size, capacity) && capacity >= old(capacity) + size
      ensures aStart == 0 && aEnd == old(aEnd - aStart)
    {
      var bufSize := aEnd - aStart;
      capacity := RoundUp(capacity + size);
      var tmp := new byte[capacity + capacity];
      if bufSize > 0 {
        Memcpy(tmp, 0, buffer, aStart, bufSize);
      }
      buffer, aStart, aEnd := tmp, 0, bufSize;
    }

    /** `bip_buf_force_reserve`: grows the buffer when `size` does not fit,
        except that a full buffer is refused. */
    method ForceReserve(size: nat) returns (ok: bool)
      requires Valid()
      requires size > capacity - (aEnd - aStart) ==> capacity + size <= TWO_31
      modifies this`buffer, this`capacity, this`aStart, this`aEnd, this`rStart, this`rEnd, buffer
      ensures Valid() && (buffer == old(buffer) || fresh(buffer))
      ensures ok <==> old(rStart == rEnd) && size > 0 && old(aEnd - aStart < capacity)
      ensures ok ==> ReservationSize() == size && rStart == aEnd
      ensures ok ==> aStart == if old(aStart == aEnd || 2 * capacity - aEnd < size || size > capacity - (aEnd - aStart)) then 0
                               else old(aStart)
      ensures if ok && size > old(capacity - (aEnd - aStart)) then RoundsTo(old(capacity) + size, capacity)
              else capacity == old(capacity)
      ensures !ok ==> rStart == old(rStart) && rEnd == old(rEnd)
    {
      if rEnd - rStart > 0 || size == 0 {
        return false;
      }
      var regionASize := aEnd - aStart;
      var freespace := capacity - regionASize;
      if freespace == 0 {
        return false;
      }
      if size > freespace {
        Grow(size);
      } else if regionASize == 0 {
        aStart, aEnd := 0, 0;
      } else if capacity + capacity - aEnd < size {
        Slide(size);
      }
      rStart := aEnd;
      rEnd := rStart + size;
      ok := true;
    }

    /** What the owner of the reservation does: a read from the socket puts
        bytes at its start. */
    method Write(bytes: seq<byte>)
      requires Valid() && |bytes| <= ReservationSize()
      modifies buffer
      ensures Valid()
      ensures Reserved(|bytes|) == bytes
    {
      var i := 0;
      while i < |bytes|
        invariant i <= |bytes|
        invariant forall j :: rStart <= j < rStart + i ==> buffer[j] == bytes[j - rStart]
        invariant forall j :: 0 <= j < buffer.Length && !(rStart <= j < rStart + i) ==> buffer[j] == old(buffer[j])
      {
        buffer[rStart + i] := bytes[i];
        i := i + 1;
      }
    }

    /** `bip_buf_commit`: the first `size` reserved bytes join the block. */
    method Commit(size: nat)
      requires Valid()
      modifies this`aEnd, this`rStart, this`rEnd, this`contents, this`committed
      ensures Valid() && ReservationSize() == 0
      ensures var n := Min(size, old(rEnd - rStart));
        committed == old(committed) + old(Reserved(n)) && contents == old(contents) + old(Reserved(n))
    {
      var reservationSize := rEnd - rStart;
      ghost var taken := Reserved(Min(size, reservationSize));
      assert reservationSize > 0 ==> forall i :: 0 <= i < |taken| ==> taken[i] == buffer[aEnd + i];
      committed, contents := committed + taken, contents + taken;
      if reservationSize > 0 {
        var n := if size > reservationSize then reservationSize else size;
        aEnd := rStart + n;
      }
      rStart, rEnd := 0, 0;
    }

    /** `bip_buf_decommit`: the first `size` bytes leave the block. */
    method Decommit(size: nat) returns (bytes: nat)
      requires Valid()
      modifies this`aStart, this`contents, this`dropped
      ensures Valid() && bytes == Min(size, old(aEnd - aStart))
      ensures dropped == old(dropped) + bytes && Piece(old(contents), bytes, |old(contents)|, contents)
    {
      var committedSize := aEnd - aStart;
      bytes := if size >= committedSize then committedSize else size;
      ghost var rest := contents[bytes..];
      PieceOfPiece(committed, dropped, |committed|, contents, bytes, |contents|, rest);
      contents, dropped := rest, dropped + bytes;
      aStart := aStart + bytes;
    }

    /** `bip_buf_reset` */
    method Reset()
      requires Valid()
      modifies this`aStart, this`aEnd, this`rStart, this`rEnd, this`contents, this`dropped
      ensures Valid() && contents == [] && ReservationSize() == 0 && dropped == |committed|
    {
      contents, dropped := [], |committed|;
      aStart, aEnd, rStart, rEnd := 0, 0, 0, 0;
    }
  }
}
