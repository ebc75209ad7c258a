/** The packet codec of one connection: CTcpOuterPacket and CTcpInnerPacket,
    which differ only in the size and the fields of the packet leading. */
module TcpPacket {
  import opened Bytes
  import opened FramePage
  import opened Wire
  import opened BipBuf

  datatype PageState = ReceiveLeading | ReceiveBody | SkipPage

  // ---- one step of the reader, against the whole stream --------------------

  // Several predicates below quantify over a string equal to the one they
  // speak of.  That says the same, and keeps the solver from unfolding the
  // reference reader wherever one of them is merely passed along.

  /** Reading `q` from the state (`skip`, `p`) delivers `out`, leaves `p'` under
      reassembly and consumes everything. */
  ghost predicate Reads(cfg: Config, cap: nat, skip: nat, p: Partial, q: seq<byte>, out: seq<seq<byte>>, p': Partial) {
    forall t :: t == q ==> ScanAll(cfg, cap, skip, p, t) == Scan(0, out, p', 0, false, [])
  }

  /** Reading `q` consumes everything and leaves `skip'` bytes to discard. */
  ghost predicate Ends(cfg: Config, cap: nat, skip: nat, p: Partial, q: seq<byte>, out: seq<seq<byte>>, p': Partial, skip': nat, over: bool) {
    forall t :: t == q ==> ScanAll(cfg, cap, skip, p, t) == Scan(0, out, p', skip', over, [])
  }

  /** Reading `buf` in one go fails with `rc` after delivering `out`. */
  ghost predicate FailsWith(cfg: Config, cap: nat, skip: nat, p: Partial, buf: seq<byte>, rc: int, out: seq<seq<byte>>) {
    forall t :: t == buf ==> ScanAll(cfg, cap, skip, p, t).rc == rc && ScanAll(cfg, cap, skip, p, t).out == out
  }

  /** At position `k` stands the header `l` of a page that fits. */
  ghost predicate PageHead(cap: nat, l: Leading, s: seq<byte>, k: nat) {
    k + PAGE_LEADING <= |s| && l == ReadHeader(s[k], s[k + 1]) && 0 < l.size && PAGE_LEADING + l.size <= cap
  }

  ghost predicate Announces(cap: nat, l: Leading, s: seq<byte>, k: nat) {
    forall t :: t == s ==> PageHead(cap, l, t, k)
  }

  /** From position `k` nothing can be consumed without more input. */
  ghost predicate HungryAt(cap: nat, s: seq<byte>, k: nat) {
    && k <= |s|
    && (|s| < k + PAGE_LEADING ||
        var l := ReadHeader(s[k], s[k + 1]);
        0 < l.size && PAGE_LEADING + l.size <= cap && |s| < k + PAGE_LEADING + l.size)
  }

  ghost predicate Starved(cap: nat, s: seq<byte>, k: nat) {
    forall t :: t == s ==> HungryAt(cap, t, k)
  }

  // Where a position may be 0, what stands behind it is a string of its own
  // rather than a suffix `s[k..]`: suffixes of suffixes cost the solver dearly.

  lemma SplitAt(s: seq<byte>, k: nat) returns (rest: seq<byte>)
    requires k <= |s|
    ensures Piece(s, k, |s|, rest) && s == s[..k] + rest
  {
    rest := s[k..];
  }

  lemma PieceBehind(s: seq<byte>, k: nat, rest: seq<byte>, i: nat, j: nat)
    requires Piece(s, k, |s|, rest) && i <= j <= |rest|
    ensures rest[i..j] == s[k + i..k + j] && s[..k + j] == s[..k] + rest[..j]
  {
  }

  /** What comes behind `q` is read as if it came first. */
  lemma ReadsThen(cfg: Config, cap: nat, skip: nat, p: Partial, q: seq<byte>, out: seq<seq<byte>>, p': Partial, s: seq<byte>)
    requires Reads(cfg, cap, skip, p, q, out, p')
    ensures ScanAll(cfg, cap, skip, p, q + s) == ScanAll(cfg, cap, 0, p', s).After(out, false)
  {
    ScanInPieces(cfg, cap, skip, p, q, s);
    assert [] + s == s;
  }

  /** What is read behind `q` comes behind what `q` delivers. */
  lemma ReadsOn(cfg: Config, cap: nat, skip: nat, p: Partial, q: seq<byte>, out: seq<seq<byte>>, p': Partial,
                s: seq<byte>, more: seq<seq<byte>>, p'': Partial)
    requires Reads(cfg, cap, skip, p, q, out, p') && Reads(cfg, cap, 0, p', s, more, p'')
    ensures Reads(cfg, cap, skip, p, q + s, out + more, p'')
  {
    ReadsThen(cfg, cap, skip, p, q, out, p', s);
    assert ScanAll(cfg, cap, 0, p', s) == Scan(0, more, p'', 0, false, []);
  }

  lemma ReadsSame(cfg: Config, cap: nat, skip: nat, p: Partial, q: seq<byte>, q': seq<byte>, out: seq<seq<byte>>, p': Partial)
    requires Reads(cfg, cap, skip, p, q, out, p') && q == q'
    ensures Reads(cfg, cap, skip, p, q', out, p')
  {
  }

  lemma ReadsIsEnds(cfg: Config, cap: nat, skip: nat, p: Partial, q: seq<byte>, out: seq<seq<byte>>, p': Partial)
    requires Reads(cfg, cap, skip, p, q, out, p')
    ensures Ends(cfg, cap, skip, p, q, out, p', 0, false)
  {
  }

  /** A complete page at position `k`. */
  ghost predicate PageAt(cap: nat, l: Leading, s: seq<byte>, k: nat) {
    Announces(cap, l, s, k) && 0 < l.size && PAGE_LEADING + l.size <= cap && k + PAGE_LEADING + l.size <= |s|
  }

  lemma ScanPageAt(cfg: Config, cap: nat, p: Partial, l: Leading, s: seq<byte>)
    requires PageAt(cap, l, s, 0)
    ensures var n := PAGE_LEADING + l.size; var r := ConsumePage(cfg, p, l, s[PAGE_LEADING..n]);
      && (r.rc < 0 ==> ScanAll(cfg, cap, 0, p, s).rc == r.rc && ScanAll(cfg, cap, 0, p, s).out == [])
      && (r.rc >= 0 ==> Reads(cfg, cap, 0, p, s[..n], r.out, r.partial))
  {
    var n := PAGE_LEADING + l.size;
    var data, more := s[PAGE_LEADING..n], s[n..];
    assert PageHead(cap, l, s, 0);
    HeaderIsUnique(s[0], s[1]);
    assert s == Header(l) + data + more;
    assert s[..n] == Header(l) + data + [];
    ScanPage(cfg, cap, p, l, data, more);
    ScanPage(cfg, cap, p, l, data, []);
  }

  /** Consuming a page with these data gives `r`; sealed like the others. */
  ghost predicate Gives(cfg: Config, p: Partial, l: Leading, data: seq<byte>, r: PageResult) {
    forall t :: t == data ==> ConsumePage(cfg, p, l, t) == r
  }

  /** A rejected page makes the whole stream fail the same way. */
  lemma PageFails(cfg: Config, cap: nat, skip: nat, p: Partial, q: seq<byte>, out: seq<seq<byte>>, p': Partial,
                  l: Leading, s: seq<byte>, r: PageResult)
    requires Reads(cfg, cap, skip, p, q, out, p') && PageAt(cap, l, s, 0)
    requires Gives(cfg, p', l, s[PAGE_LEADING..PAGE_LEADING + l.size], r) && r.rc < 0
    ensures FailsWith(cfg, cap, skip, p, q + s, r.rc, out)
  {
    assert ConsumePage(cfg, p', l, s[PAGE_LEADING..PAGE_LEADING + l.size]) == r;
    ScanPageAt(cfg, cap, p', l, s);
    ReadsThen(cfg, cap, skip, p, q, out, p', s);
  }

  /** An accepted page moves the reader behind it. */
  lemma PageReads(cfg: Config, cap: nat, skip: nat, p: Partial, q: seq<byte>, out: seq<seq<byte>>, p': Partial,
                  l: Leading, s: seq<byte>, r: PageResult)
    requires Reads(cfg, cap, skip, p, q, out, p') && PageAt(cap, l, s, 0)
    requires Gives(cfg, p', l, s[PAGE_LEADING..PAGE_LEADING + l.size], r) && r.rc >= 0
    ensures Reads(cfg, cap, skip, p, q + s[..PAGE_LEADING + l.size], out + r.out, r.partial)
  {
    assert ConsumePage(cfg, p', l, s[PAGE_LEADING..PAGE_LEADING + l.size]) == r;
    ScanPageAt(cfg, cap, p', l, s);
    ReadsOn(cfg, cap, skip, p, q, out, p', s[..PAGE_LEADING + l.size], r.out, r.partial);
  }

  lemma PageBehind(cap: nat, l: Leading, s: seq<byte>, k: nat, rest: seq<byte>)
    requires PageAt(cap, l, s, k) && Piece(s, k, |s|, rest)
    ensures PageAt(cap, l, rest, 0)
  {
    assert PageHead(cap, l, s, k);
    assert rest[0] == s[k] && rest[1] == s[k + 1];
    assert PageHead(cap, l, rest, 0);
  }

  /** The same two at position `k` of a buffer. */
  lemma PageStepFails(cfg: Config, cap: nat, p: Partial, buf: seq<byte>, k: nat, out: seq<seq<byte>>, p': Partial, l: Leading, r: PageResult)
    requires k <= |buf| && Reads(cfg, cap, 0, p, buf[..k], out, p') && PageAt(cap, l, buf, k)
    requires Gives(cfg, p', l, buf[k + PAGE_LEADING..k + PAGE_LEADING + l.size], r) && r.rc < 0
    ensures FailsWith(cfg, cap, 0, p, buf, r.rc, out)
  {
    var s := SplitAt(buf, k);
    PageBehind(cap, l, buf, k, s);
    PieceBehind(buf, k, s, PAGE_LEADING, PAGE_LEADING + l.size);
    PageFails(cfg, cap, 0, p, buf[..k], out, p', l, s, r);
  }

  lemma PageStepReads(cfg: Config, cap: nat, p: Partial, buf: seq<byte>, k: nat, out: seq<seq<byte>>, p': Partial, l: Leading, r: PageResult)
    requires k <= |buf| && Reads(cfg, cap, 0, p, buf[..k], out, p') && PageAt(cap, l, buf, k)
    requires Gives(cfg, p', l, buf[k + PAGE_LEADING..k + PAGE_LEADING + l.size], r) && r.rc >= 0
    ensures Reads(cfg, cap, 0, p, buf[..k + PAGE_LEADING + l.size], out + r.out, r.partial)
  {
    var s := SplitAt(buf, k);
    PageBehind(cap, l, buf, k, s);
    PieceBehind(buf, k, s, PAGE_LEADING, PAGE_LEADING + l.size);
    PageReads(cfg, cap, 0, p, buf[..k], out, p', l, s, r);
    ReadsSame(cfg, cap, 0, p, buf[..k] + s[..PAGE_LEADING + l.size], buf[..k + PAGE_LEADING + l.size], out + r.out, r.partial);
  }

  /** An empty page at position `k`, or an oversized one that fills the rest. */
  lemma BadPageStep(cfg: Config, cap: nat, skip: nat, p: Partial, buf: seq<byte>, k: nat, out: seq<seq<byte>>, p': Partial)
    requires k + PAGE_LEADING <= |buf| <= k + cap && Reads(cfg, cap, skip, p, buf[..k], out, p')
    ensures var l := ReadHeader(buf[k], buf[k + 1]); var scan := ScanAll(cfg, cap, skip, p, buf);
      && (l.size == 0 ==> scan.rc == -99 && scan.out == out)
      && (l.size > 0 && PAGE_LEADING + l.size > cap ==>
            scan == Scan(0, out, p', PAGE_LEADING + l.size - (|buf| - k), true, []))
  {
    var s := SplitAt(buf, k);
    ReadsThen(cfg, cap, skip, p, buf[..k], out, p', s);
  }

  /** The packet's pages are those already sent, followed by the pages of `c`
      unless the last one is out.  Quantified like the predicates above. */
  ghost predicate Sent(content: seq<byte>, pages: seq<byte>, c: seq<byte>, start: bool, end: bool) {
    forall t, u :: t == content && u == c ==> Pages(t, true) == pages + (if end then [] else Pages(u, start))
  }

  /** One more page out. */
  lemma SentNext(content: seq<byte>, pages: seq<byte>, c: seq<byte>, start: bool, page: seq<byte>, rest: seq<byte>)
    requires Sent(content, pages, c, start, false)
    requires var m := Min(PAGE_DATA, |c|); page == Header(Leading(start, m == |c|, m)) + c[..m] && Piece(c, m, |c|, rest)
    ensures var m := Min(PAGE_DATA, |c|); Sent(content, pages + page, rest, false, m == |c|)
  {
    var m := Min(PAGE_DATA, |c|);
    assert c[m..] == rest;
    var tail := if m == |c| then [] else Pages(c[m..], false);
    var all, left := Pages(content, true), Pages(c, start);
    assert left == page + tail;
    assert all == pages + left;
    Associate(pages, page, tail);
  }

  lemma SentAll(content: seq<byte>, pages: seq<byte>, c: seq<byte>, start: bool)
    requires Sent(content, pages, c, start, true)
    ensures ArePages(content, true, pages)
  {
    var last := Pages(c, start);
    assert Pages(content, true) == pages + [];
  }

  /** packet_buffer_alloc and packet_buffer_free.  Buffers are told apart by the
      order in which they were made; `free` is the free list, head first. */
  class BufferPool {
    var free: seq<nat>
    var made: nat

    ghost predicate Valid()
      reads this
    {
      && (forall i :: 0 <= i < |free| ==> free[i] < made)
      && forall i, j :: 0 <= i < j < |free| ==> free[i] != free[j]
    }

    function InUse(): int
      reads this
    {
      made - |free|
    }

    /** A buffer that somebody holds. */
    predicate Taken(entry: nat)
      reads this
    {
      entry < made && entry !in free
    }

    constructor ()
      ensures Valid() && InUse() == 0
    {
      free, made := [], 0;
    }

    /** Takes the head of the free list.  Only an empty list is refilled, by
        `numHint` new buffers, the newest first. */
    method Alloc(numHint: nat) returns (entry: nat)
      requires Valid() && numHint > 0
      modifies this
      ensures Valid() && InUse() == old(InUse()) + 1
      ensures Taken(entry) && !old(Taken(entry)) && forall b :: old(Taken(b)) ==> Taken(b)
      ensures old(free) != [] ==> [entry] + free == old(free) && made == old(made)
      ensures old(free) == [] ==> made == old(made) + numHint && entry == made - 1
      decreases free == []
    {
      if free != [] {
        entry := free[0];
        free := free[1..];
      } else {
        for i := 0 to numHint
          invariant Valid() && |free| == i && made == old(made) + i
          invariant i > 0 ==> free[0] == made - 1
          invariant forall b :: old(Taken(b)) ==> Taken(b)
          invariant forall k :: 0 <= k < |free| ==> free[k] >= old(made)
        {
          free, made := [made] + free, made + 1;
        }
        entry := Alloc(numHint);
      }
    }

    method Free(entry: nat)
      requires Valid() && Taken(entry)
      modifies this
      ensures Valid() && InUse() == old(InUse()) - 1 && made == old(made) && free == [entry] + old(free)
    {
      free := [entry] + free;
    }
  }

  class TcpPacket {
    const cfg: Config
    const numHint: nat             // how many receive buffers to make at once
    const pool: BufferPool
    var state: PageState           // _eRecvPageState
    var leading: Leading           // _recv_page_leading
    var held: bool                 // _ref_recv_buf != nullptr
    var recvBuf: nat               // _ref_recv_buf
    var recvData: array<byte>      // _ref_recv_buf->data
    var recvSize: nat              // _ref_recv_buf->size
    var got: seq<seq<byte>>        // what _gotPacketCb has been called with
    var sent: seq<byte>            // what SendRaw has been given
    ghost var lost: nat            // receive buffers overwritten and never freed
    ghost var others: int          // receive buffers in use elsewhere

    ghost predicate Valid()
      reads this, pool
    {
      && (held ==> recvData.Length == cfg.recvCap && 0 < recvSize <= recvData.Length && pool.Taken(recvBuf))
      && leading.size < 0x4000 && numHint > 0
      && pool.Valid() && pool.InUse() == others + lost + Bit(held)
    }

    /** The packet under reassembly. */
    ghost function Part(): Partial
      requires held ==> recvSize <= recvData.Length
      reads this, recvData
    {
      if held then Held(recvData[..recvSize], lost) else Nothing(lost)
    }

    /** Bytes of an oversized page still to discard. */
    ghost function Skipping(): nat
      reads this
    {
      if state == SkipPage then leading.size else 0
    }

    /** What the reader's state says about the bytes not yet consumed, those
        from position `k` on: in the body state the saved header is the first
        two of them. */
    ghost predicate Ready(buf: seq<byte>, k: nat, cap: nat)
      reads this
    {
      && k <= |buf| <= k + cap
      && (state == ReceiveBody ==> Announces(cap, leading, buf, k) && 0 < leading.size && PAGE_LEADING + leading.size <= cap)
      && (state == SkipPage ==> leading.size > 0)
    }

    /** `n` bytes are not enough to go on. */
    ghost predicate WantsMore(n: nat)
      reads this
    {
      match state
      case ReceiveLeading => n < PAGE_LEADING
      case ReceiveBody => n < PAGE_LEADING + leading.size
      case SkipPage => n == 0
    }

    /** A reader that wants more has left nothing it could consume, and room
        for at least one more byte. */
    lemma WantsMoreIsStarved(buf: seq<byte>, k: nat, cap: nat)
      requires Ready(buf, k, cap) && WantsMore(|buf| - k)
      ensures Starved(cap, buf, k) && (cap >= PAGE_LEADING ==> |buf| - k < cap)
    {
      assert state == ReceiveBody ==> PageHead(cap, leading, buf, k);
      assert HungryAt(cap, buf, k);
    }

    /** More bytes do not change what the reader knows of the first ones. */
    lemma ReadyGrows(buf: seq<byte>, more: seq<byte>, cap: nat)
      requires Ready(buf, 0, cap) && |buf + more| <= cap
      ensures Ready(buf + more, 0, cap)
    {
      assert state == ReceiveBody ==> PageHead(cap, leading, buf, 0) && PageHead(cap, leading, buf + more, 0);
    }

    /** Behind the consumed bytes the position is 0 again. */
    lemma BehindConsumed(buf: seq<byte>, k: nat, rest: seq<byte>, cap: nat)
      requires Piece(buf, k, |buf|, rest)
      ensures Ready(buf, k, cap) ==> Ready(rest, 0, cap)
      ensures Starved(cap, buf, k) ==> Starved(cap, rest, 0)
    {
      if Ready(buf, k, cap) && state == ReceiveBody {
        assert PageHead(cap, leading, buf, k);
        assert buf[k] == rest[0] && buf[k + 1] == rest[1];
        assert PageHead(cap, leading, rest, 0);
      }
      if Starved(cap, buf, k) {
        assert HungryAt(cap, buf, k);
        assert |buf| >= k + PAGE_LEADING ==> buf[k] == rest[0] && buf[k + 1] == rest[1];
        assert HungryAt(cap, rest, 0);
      }
    }

    constructor (cfg: Config, numHint: nat, pool: BufferPool)
      requires numHint > 0 && pool.Valid()
      ensures Valid() && Ready([], 0, 0) && fresh(recvData)
      ensures this.cfg == cfg && this.pool == pool && state == ReceiveLeading && !held && got == [] && sent == [] && lost == 0
    {
      this.cfg, this.numHint, this.pool := cfg, numHint, pool;
      state, leading := ReceiveLeading, Leading(false, false, 0);
      held, recvBuf, recvData, recvSize := false, 0, new byte[0], 0;
      got, sent := [], [];
      lost, others := 0, pool.InUse();
    }

    /** `_ref_recv_buf->data + size` gets the page's data. */
    method AppendRecv(data: seq<byte>)
      requires recvSize + |data| <= recvData.Length
      modifies this`recvSize, recvData
      ensures recvSize == old(recvSize) + |data| && recvData[..recvSize] == old(recvData[..recvSize]) + data
    {
      CopyIn(recvData, recvSize, data);
      recvSize := recvSize + |data|;
    }

    method DropRecv()
      requires Valid() && held
      modifies this`held, pool
      ensures Valid() && !held
    {
      held := false;
      pool.Free(recvBuf);
    }

    /** The first page of several: a new receive buffer. */
    method ReceiveFirst(data: seq<byte>) returns (rc: int)
      requires Valid() && |data| > 0 && leading.start && !leading.end
      modifies this`held, this`recvBuf, this`recvData, this`recvSize, this`lost, recvData, pool
      ensures Valid() && (recvData == old(recvData) || fresh(recvData))
      ensures var r := ConsumePage(cfg, old(Part()), leading, data);
        rc == r.rc && r.out == [] && Part() == r.partial
    {
      rc := 0;
      lost := lost + Bit(held);
      recvBuf := pool.Alloc(numHint);
      recvData, recvSize := new byte[cfg.recvCap], 0;
      held := true;
      if recvSize + |data| <= recvData.Length {
        AppendRecv(data);
        assert recvData[..recvSize] == data;
      } else {
        rc := -2;
        held := false;
        pool.Free(recvBuf);
      }
    }

    /** A later page: the data go behind what is already there. */
    method ReceiveNext(data: seq<byte>) returns (rc: int)
      requires Valid() && |data| > 0 && !leading.start && held
      modifies this`held, this`recvSize, this`got, recvData, pool
      ensures Valid()
      ensures var r := ConsumePage(cfg, old(Part()), leading, data);
        rc == r.rc && got == old(got) + r.out && Part() == r.partial
    {
      rc := 0;
      if recvSize + |data| > recvData.Length {
        rc := if leading.end then -4 else -5;
        DropRecv();
      } else {
        AppendRecv(data);
        if leading.end {
          if recvData[0] > 0 && recvSize >= cfg.lead + recvData[0] {
            got := got + [recvData[..recvSize]];
          } else {
            rc := -3;
          }
          DropRecv();
        }
      }
    }

    /** `ConsumePacket`: one complete page of the current header.  The
        receive buffers in use are, by `Valid`, the one that is held and those
        lost; the pool loses one exactly when a first page arrives while another
        packet is under reassembly. */
    method ConsumePacket(data: seq<byte>) returns (rc: int)
      requires Valid() && |data| > 0
      modifies this`held, this`recvBuf, this`recvData, this`recvSize, this`got, this`lost, recvData, pool
      ensures Valid() && (recvData == old(recvData) || fresh(recvData))
      ensures var r := ConsumePage(cfg, old(Part()), leading, data);
        rc == r.rc && got == old(got) + r.out && Part() == r.partial
    {
      rc := 0;
      if leading.start && leading.end {
        if data[0] > 0 && |data| >= cfg.lead + data[0] {
          got := got + [data];
        } else {
          rc := -1;
        }
      } else if leading.start {
        rc := ReceiveFirst(data);
      } else if held {
        rc := ReceiveNext(data);
      } else {
        rc := -6;
      }
    }

    /** State LEADING, with at least a header in the buffer at position `k`.
        Returns whether the page can be read; otherwise `nconsumed` is the
        result of the whole call. */
    method LeadingStep(buf: seq<byte>, cap: nat, k: nat, ghost p: Partial, ghost out: seq<seq<byte>>)
      returns (go: bool, nconsumed: int)
      requires Valid() && k + PAGE_LEADING <= |buf| <= cap && state == ReceiveLeading
      requires Reads(cfg, cap, 0, p, buf[..k], out, Part())
      modifies this`state, this`leading
      ensures Valid()
      ensures go ==> state == ReceiveBody && nconsumed == k && Ready(buf, k, cap)
      ensures !go && nconsumed < 0 ==> FailsWith(cfg, cap, 0, p, buf, nconsumed, out)
      ensures !go && nconsumed >= 0 ==> nconsumed == |buf| && state == SkipPage && leading.size > 0
      ensures !go && nconsumed >= 0 ==> Ends(cfg, cap, 0, p, buf, out, Part(), leading.size, true)
    {
      BadPageStep(cfg, cap, 0, p, buf, k, out, Part());
      leading := ReadHeader(buf[k], buf[k + 1]);
      if leading.size == 0 {
        return false, -99;
      }
      if PAGE_LEADING + leading.size <= cap {
        state := ReceiveBody;
        return true, k;
      }
      var nskip := |buf| - k;
      leading := leading.(size := leading.size - (nskip - PAGE_LEADING));
      state := SkipPage;
      return false, k + nskip;
    }

    /** State BODY, with the whole page in the buffer at position `k`. */
    method BodyStep(buf: seq<byte>, cap: nat, k: nat, ghost p: Partial, ghost out: seq<seq<byte>>)
      returns (rc: int, ghost more: seq<seq<byte>>)
      requires Valid() && k <= |buf| && state == ReceiveBody && PageAt(cap, leading, buf, k)
      requires Reads(cfg, cap, 0, p, buf[..k], out, Part())
      modifies this`state, this`held, this`recvBuf, this`recvData, this`recvSize, this`got, this`lost, recvData, pool
      ensures Valid() && (recvData == old(recvData) || fresh(recvData))
      ensures rc < 0 ==> FailsWith(cfg, cap, 0, p, buf, rc, out) && got == old(got)
      ensures rc >= 0 ==> state == ReceiveLeading && got == old(got) + more
      ensures rc >= 0 ==> Reads(cfg, cap, 0, p, buf[..k + PAGE_LEADING + leading.size], out + more, Part())
    {
      var nwants := PAGE_LEADING + leading.size;
      ghost var r := ConsumePage(cfg, Part(), leading, buf[k + PAGE_LEADING..k + nwants]);
      if r.rc < 0 {
        PageStepFails(cfg, cap, p, buf, k, out, Part(), leading, r);
      } else {
        PageStepReads(cfg, cap, p, buf, k, out, Part(), leading, r);
      }
      rc := ConsumePacket(buf[k + PAGE_LEADING..k + nwants]);
      more := r.out;
      if rc >= 0 {
        state := ReceiveLeading;
      }
    }

    /** State SKIP: discards what is there of the oversized page. */
    method SkipStep(buf: seq<byte>, cap: nat) returns (nconsumed: nat)
      requires Valid() && state == SkipPage && Ready(buf, 0, cap)
      modifies this`state, this`leading
      ensures Valid() && nconsumed == Min(|buf|, old(leading.size)) && Ready(buf, nconsumed, cap)
      ensures Ends(cfg, cap, old(leading.size), Part(), buf[..nconsumed], [], Part(), Skipping(), false)
    {
      nconsumed := Min(|buf|, leading.size);
      leading := leading.(size := leading.size - nconsumed);
      if leading.size == 0 {
        state := ReceiveLeading;
      }
    }

    /** What a call that halts at `n` has done: it failed, or read the bytes
        before `n` and wants more. */
    ghost predicate Halted(buf: seq<byte>, cap: nat, p: Partial, n: int, out: seq<seq<byte>>)
      requires held ==> recvSize <= recvData.Length
      reads this, recvData
    {
      if n < 0 then FailsWith(cfg, cap, 0, p, buf, n, out)
      else
        && n <= |buf| && Ready(buf, n, cap) && WantsMore(|buf| - n)
        && Ends(cfg, cap, 0, p, buf[..n], out, Part(), Skipping(), state == SkipPage)
    }

    /** One turn of the loop in state LEADING. */
    method LeadingTurn(buf: seq<byte>, cap: nat, k: nat, ghost p: Partial, ghost out: seq<seq<byte>>)
      returns (go: bool, n: int)
      requires Valid() && Ready(buf, k, cap) && |buf| <= cap && state == ReceiveLeading
      requires Reads(cfg, cap, 0, p, buf[..k], out, Part())
      modifies this`state, this`leading
      ensures Valid()
      ensures if go then state == ReceiveBody && n == k && Ready(buf, k, cap) else Halted(buf, cap, p, n, out)
    {
      if |buf| - k < PAGE_LEADING {
        ReadsIsEnds(cfg, cap, 0, p, buf[..k], out, Part());
        return false, k;
      }
      go, n := LeadingStep(buf, cap, k, p, out);
      assert !go && n >= 0 ==> buf[..n] == buf;
    }

    /** One turn of the loop in state BODY. */
    method BodyTurn(buf: seq<byte>, cap: nat, k: nat, ghost p: Partial, ghost out: seq<seq<byte>>)
      returns (go: bool, n: int, ghost more: seq<seq<byte>>)
      requires Valid() && Ready(buf, k, cap) && |buf| <= cap && state == ReceiveBody
      requires Reads(cfg, cap, 0, p, buf[..k], out, Part())
      modifies this`state, this`held, this`recvBuf, this`recvData, this`recvSize, this`got, this`lost, recvData, pool
      ensures Valid() && (recvData == old(recvData) || fresh(recvData)) && got == old(got) + more
      ensures go ==> state == ReceiveLeading && k < n <= |buf| && Reads(cfg, cap, 0, p, buf[..n], out + more, Part())
      ensures !go ==> more == [] && Halted(buf, cap, p, n, out)
    {
      more := [];
      var nwants := PAGE_LEADING + leading.size;
      if |buf| - k < nwants {
        ReadsIsEnds(cfg, cap, 0, p, buf[..k], out, Part());
        return false, k, [];
      }
      n, more := BodyStep(buf, cap, k, p, out);
      if n < 0 {
        return false, n, [];
      }
      go, n := true, k + nwants;
    }

    /** The loop over the states LEADING and BODY. */
    method PageLoop(buf: seq<byte>, cap: nat) returns (nconsumed: int, ghost out: seq<seq<byte>>)
      requires Valid() && Ready(buf, 0, cap) && state != SkipPage
      modifies this`state, this`leading, this`held, this`recvBuf, this`recvData, this`recvSize, this`got, this`lost, recvData, pool
      ensures Valid() && (recvData == old(recvData) || fresh(recvData)) && got == old(got) + out
      ensures Halted(buf, cap, old(Part()), nconsumed, out)
    {
      nconsumed, out := 0, [];
      ghost var part := Part();
      var go := true;
      while go
        invariant Valid() && (recvData == old(recvData) || fresh(recvData)) && got == old(got) + out
        invariant go ==> 0 <= nconsumed <= |buf| && Ready(buf, nconsumed, cap) && state != SkipPage
        invariant go ==> Reads(cfg, cap, 0, part, buf[..nconsumed], out, Part())
        invariant !go ==> Halted(buf, cap, part, nconsumed, out)
        decreases go, |buf| - nconsumed, state == ReceiveLeading
      {
        if state == ReceiveLeading {
          go, nconsumed := LeadingTurn(buf, cap, nconsumed, part, out);
        } else {
          ghost var more;
          go, nconsumed, more := BodyTurn(buf, cap, nconsumed, part, out);
          assert old(got) + out + more == old(got) + (out + more);
          out := out + more;
        }
      }
    }

    /** `ConsumeFramePage`: consumes as many complete pages as the buffer holds.

        Reading the consumed bytes in one go delivers the same packets and ends
        in the same state; an error is the error of reading the buffer in one
        go.  Unless the call started inside an oversized page, what is left is
        hungry.  On a buffer of capacity at least 2 it never leaves the buffer
        full.  The 14-bit counter of bytes to discard never goes negative. */
    method ConsumeFramePage(buf: seq<byte>, cap: nat) returns (nconsumed: int, ghost out: seq<seq<byte>>)
      requires Valid() && Ready(buf, 0, cap)
      modifies this`state, this`leading, this`held, this`recvBuf, this`recvData, this`recvSize, this`got, this`lost, recvData, pool
      ensures Valid() && (recvData == old(recvData) || fresh(recvData)) && got == old(got) + out
      ensures nconsumed < 0 ==> old(state) != SkipPage && FailsWith(cfg, cap, 0, old(Part()), buf, nconsumed, out)
      ensures nconsumed >= 0 ==> nconsumed <= |buf| && Ready(buf, nconsumed, cap)
      ensures nconsumed >= 0 ==>
        Ends(cfg, cap, old(Skipping()), old(Part()), buf[..nconsumed], out, Part(), Skipping(),
             old(state) != SkipPage && state == SkipPage)
      ensures nconsumed >= 0 && old(state) != SkipPage ==> Starved(cap, buf, nconsumed)
      ensures nconsumed >= 0 && cap >= 2 ==> |buf| - nconsumed < cap
      ensures old(state) == SkipPage ==> nconsumed == Min(|buf|, old(leading.size)) && out == []
    {
      if state == SkipPage {
        nconsumed := SkipStep(buf, cap);
        out := [];
      } else {
        nconsumed, out := PageLoop(buf, cap);
        if nconsumed >= 0 {
          WantsMoreIsStarved(buf, nconsumed, cap);
        }
      }
    }

    /** Decommits what was consumed. */
    method DropConsumed(bb: BipBuf, n: nat)
      requires bb.Valid() && n <= |bb.contents|
      modifies bb`aStart, bb`contents, bb`dropped
      ensures bb.Valid() && Piece(old(bb.contents), n, |old(bb.contents)|, bb.contents)
    {
      if n > 0 {
        var bytes := bb.Decommit(n);
      }
    }

    /** The read half of `DecodeStream`: the buffer stays as it is. */
    method ReadBlock(bb: BipBuf) returns (nConsumed: int, ghost out: seq<seq<byte>>)
      requires Valid() && bb.Valid() && recvData != bb.buffer && Ready(bb.contents, 0, bb.capacity)
      modifies this`state, this`leading, this`held, this`recvBuf, this`recvData, this`recvSize, this`got, this`lost, recvData, pool
      ensures Valid() && bb.Valid() && recvData != bb.buffer && got == old(got) + out
      ensures recvData == old(recvData) || fresh(recvData)
      ensures nConsumed < 0 ==>
        old(state) != SkipPage && FailsWith(cfg, bb.capacity, 0, old(Part()), bb.contents, nConsumed, out)
      ensures nConsumed >= 0 ==> nConsumed <= |bb.contents| && Ready(bb.contents, nConsumed, bb.capacity)
      ensures nConsumed >= 0 ==>
        Ends(cfg, bb.capacity, old(Skipping()), old(Part()), bb.contents[..nConsumed], out, Part(), Skipping(),
             old(state) != SkipPage && state == SkipPage)
      ensures nConsumed >= 0 && old(state) != SkipPage ==> Starved(bb.capacity, bb.contents, nConsumed)
      ensures nConsumed >= 0 && bb.capacity >= 2 ==> |bb.contents| - nConsumed < bb.capacity
      ensures old(state) == SkipPage ==> nConsumed == Min(|bb.contents|, old(leading.size)) && out == []
    {
      var block := bb.ContiguousBlock();
      nConsumed, out := ConsumeFramePage(block, bb.capacity);
    }

    /** `DecodeStream`: reads from the bip buffer and decommits what was
        consumed.  A negative result stands for the exception, which leaves the
        buffer as it was. */
    method DecodeStream(bb: BipBuf) returns (nConsumed: int, ghost out: seq<seq<byte>>)
      requires Valid() && bb.Valid() && recvData != bb.buffer && Ready(bb.contents, 0, bb.capacity)
      modifies this`state, this`leading, this`held, this`recvBuf, this`recvData, this`recvSize, this`got, this`lost, recvData, pool
      modifies bb`aStart, bb`contents, bb`dropped
      ensures Valid() && bb.Valid() && recvData != bb.buffer && got == old(got) + out
      ensures recvData == old(recvData) || fresh(recvData)
      ensures nConsumed < 0 ==> bb.contents == old(bb.contents)
      ensures nConsumed < 0 ==>
        old(state) != SkipPage && FailsWith(cfg, bb.capacity, 0, old(Part()), old(bb.contents), nConsumed, out)
      ensures nConsumed >= 0 ==>
        && Piece(old(bb.contents), nConsumed, |old(bb.contents)|, bb.contents)
        && Ready(bb.contents, 0, bb.capacity)
      ensures nConsumed >= 0 ==>
        Ends(cfg, bb.capacity, old(Skipping()), old(Part()), old(bb.contents)[..nConsumed], out, Part(), Skipping(),
             old(state) != SkipPage && state == SkipPage)
      ensures nConsumed >= 0 && old(state) != SkipPage ==> Starved(bb.capacity, bb.contents, 0)
      ensures nConsumed >= 0 && bb.capacity >= 2 ==> bb.CommittedSize() < bb.capacity
      ensures old(state) == SkipPage ==> nConsumed == Min(|old(bb.contents)|, old(leading.size)) && out == []
    {
      ghost var c := bb.contents;
      nConsumed, out := ReadBlock(bb);
      if nConsumed >= 0 {
        DropConsumed(bb, nConsumed);
        BehindConsumed(c, nConsumed, bb.contents, bb.capacity);
      }
    }

    // ---- sending ------------------------------------------------------------

    method SendRaw(bytes: seq<byte>) returns (n: nat)
      modifies this`sent
      ensures sent == old(sent) + bytes && n == |bytes|
    {
      sent := sent + bytes;
      n := |bytes|;
    }

    /** The packet leading.  The padding of the inner one is not written. */
    method PutLeading(data: array<byte>, uuid: nat, serial: byte, nameLen: nat)
      requires (cfg.lead == 2 || cfg.lead == 16) && PAGE_LEADING + cfg.lead <= data.Length
      modifies data
      ensures IsPacketLeading(cfg.lead, data[PAGE_LEADING..PAGE_LEADING + cfg.lead], nameLen, serial, uuid)
    {
      data[PAGE_LEADING] := nameLen % 256;
      data[PAGE_LEADING + 1] := serial;
      if cfg.lead == 16 {
        var u := LittleEndian(uuid, 8);
        CopyIn(data, PAGE_LEADING + 8, u);
        assert data[PAGE_LEADING + 8..PAGE_LEADING + 16] == u;
        assert data[PAGE_LEADING..PAGE_LEADING + 16][8..16] == data[PAGE_LEADING + 8..PAGE_LEADING + 16];
      }
    }

    /** `EncodeStream`: header, packet leading and name at the front of the send
        buffer. */
    method EncodeStream(data: array<byte>, uuid: nat, serial: byte, name: seq<byte>)
      returns (nOutBodyOffset: nat, ghost b: seq<byte>)
      requires (cfg.lead == 2 || cfg.lead == 16) && PAGE_LEADING + cfg.lead + |name| <= data.Length
      modifies data
      ensures nOutBodyOffset == PAGE_LEADING + cfg.lead + |name|
      ensures IsPacketLeading(cfg.lead, b, |name|, serial, uuid) && data[PAGE_LEADING..nOutBodyOffset] == b + name
    {
      nOutBodyOffset := PAGE_LEADING + cfg.lead + |name|;
      PutLeading(data, uuid, serial, |name|);
      b := data[PAGE_LEADING..PAGE_LEADING + cfg.lead];
      PutPiece(data, PAGE_LEADING + cfg.lead, name);
    }

    /** Puts the next piece of the body behind what is already in the buffer. */
    method PutPiece(data: array<byte>, nOffset: nat, piece: seq<byte>)
      requires PAGE_LEADING <= nOffset && nOffset + |piece| <= data.Length
      modifies data
      ensures data[PAGE_LEADING..nOffset + |piece|] == old(data[PAGE_LEADING..nOffset]) + piece
    {
      CopyIn(data, nOffset, piece);
    }

    /** Closes the page with its header. */
    method PutHeader(data: array<byte>, size: nat, h: seq<byte>)
      requires |h| == PAGE_LEADING <= size <= data.Length
      modifies data
      ensures data[..size] == h + old(data[PAGE_LEADING..size])
    {
      CopyIn(data, 0, h);
    }

    /** One page of `Post`: copies the next piece of the body behind what is
        already in the buffer, closes the header and sends the page.  `c` is
        the packet from the first byte of this page on, `left` what remains of
        the body. */
    method SendPage(data: array<byte>, nOffset: nat, start: bool, rest: seq<byte>, ghost c: seq<byte>)
      returns (left: seq<byte>, end: bool, n: nat, ghost page: seq<byte>)
      requires PAGE_LEADING <= nOffset <= PAGE_MAX <= data.Length
      requires c == data[PAGE_LEADING..nOffset] + rest
      modifies data, this`sent
      ensures var m := Min(PAGE_DATA, |c|);
        && Piece(c, m, |c|, left) && end == (m == |c|)
        && page == Header(Leading(start, end, m)) + c[..m]
        && (page[0] % 2 == 1 <==> start) && (page[0] / 2 % 2 == 1 <==> m == |c|) && page[0] / 4 + 64 * (page[1] as int) == m
      ensures sent == old(sent) + page && n == |page|
    {
      var nsends := Min(PAGE_MAX - nOffset, |rest|);
      end := |rest| - nsends <= 0;
      left := Behind(rest, nsends);
      ghost var front := data[PAGE_LEADING..nOffset];
      PutPiece(data, nOffset, rest[..nsends]);
      var size := nOffset + nsends;
      assert c[..size - PAGE_LEADING] == front + rest[..nsends];
      var h := Header(Leading(start, end, size - PAGE_LEADING));
      HeaderBits(Leading(start, end, size - PAGE_LEADING));
      PutHeader(data, size, h);
      page := data[..size];
      n := SendRaw(data[..size]);
    }

    /** The page loop of `Post`, entered with the front of the packet in the
        buffer and the body to follow. */
    method SendPages(data: array<byte>, offset: nat, body: seq<byte>, ghost content: seq<byte>) returns (szSend: nat, ghost pages: seq<byte>)
      requires PAGE_LEADING < offset <= PAGE_MAX <= data.Length
      requires content == data[PAGE_LEADING..offset] + body
      modifies data, this`sent
      ensures sent == old(sent) + pages && szSend == |pages| && ArePages(content, true, pages)
    {
      var nOffset, rest, start, end := offset, body, true, false;
      szSend := 0;
      ghost var c := content;
      pages := [];
      while !end
        invariant PAGE_LEADING <= nOffset <= PAGE_MAX
        invariant sent == old(sent) + pages && szSend == |pages|
        invariant !end ==> c == data[PAGE_LEADING..nOffset] + rest && |c| > 0
        invariant Sent(content, pages, c, start, end)
        decreases !end, |c|
      {
        ghost var page;
        var left, last, n;
        left, last, n, page := SendPage(data, nOffset, start, rest, c);
        SentNext(content, pages, c, start, page, left);
        pages := pages + page;
        szSend := szSend + n;
        c, rest, start, end, nOffset := left, left, false, last, PAGE_LEADING;
      }
      SentAll(content, pages, c, start);
    }

    /** The packet goes out as its pages. */
    method PostPages(uuid: nat, serial: byte, name: seq<byte>, body: seq<byte>)
      returns (szSend: nat, ghost b: seq<byte>, ghost pages: seq<byte>)
      requires (cfg.lead == 2 || cfg.lead == 16) && PAGE_LEADING + cfg.lead + |name| <= PAGE_MAX
      modifies this`sent
      ensures IsPacketLeading(cfg.lead, b, |name|, serial, uuid) && ArePages(b + name + body, true, pages)
      ensures sent == old(sent) + pages && szSend == |pages|
    {
      var data := new byte[2 * PAGE_MAX - 32];
      var nOffset;
      nOffset, b := EncodeStream(data, uuid, serial, name);
      szSend, pages := SendPages(data, nOffset, body, b + name + body);
    }

    /** `Post`: nothing is sent unless the connection is ready; otherwise the
        packet goes out as its pages. */
    method Post(ready: bool, uuid: nat, serial: byte, name: seq<byte>, body: seq<byte>)
      returns (szSend: nat, ghost b: seq<byte>)
      requires (cfg.lead == 2 || cfg.lead == 16) && PAGE_LEADING + cfg.lead + |name| <= PAGE_MAX
      modifies this`sent
      ensures !ready ==> szSend == 0 && sent == old(sent)
      ensures ready ==> IsPacketLeading(cfg.lead, b, |name|, serial, uuid)
      ensures ready ==> sent == old(sent) + Pages(b + name + body, true) && szSend == |Pages(b + name + body, true)|
    {
      szSend, b := 0, [];
      if ready {
        ghost var pages;
        szSend, b, pages := PostPages(uuid, serial, name, body);
        assert Pages(b + name + body, true) == pages;
      }
    }
  }
}
