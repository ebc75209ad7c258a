/** Frame pages: how a packet is cut into pages, and a reference reader of a
    whole byte stream.  The incremental reader is in TcpPacket.dfy. */
module FramePage {
  import opened Bytes

  const PAGE_MAX := 8192          // PER_FRAME_PAGE_SIZE_MAX
  const PAGE_LEADING := 2         // SIZE_OF_FRAME_PAGE_LEADING
  const PAGE_DATA := 8190

  /** The receiver: the size of the packet leading (2 outer, 16 inner) and the
      room in a receive buffer. */
  datatype Config = Config(lead: nat, recvCap: nat)

  // ---- the page header -----------------------------------------------------

  /** tcp_frame_page_leading_t: two flags and a 14-bit size, little-endian. */
  datatype Leading = Leading(start: bool, end: bool, size: nat)

  function Bit(b: bool): nat { if b then 1 else 0 }

  function Header(l: Leading): (h: seq<byte>)
    requires l.size < 0x4000
    ensures |h| == PAGE_LEADING
  {
    var v := Bit(l.start) + 2 * Bit(l.end) + 4 * l.size;
    [v % 256, v / 256]
  }

  function ReadHeader(lo: byte, hi: byte): (l: Leading)
    ensures l.size < 0x4000
  {
    var v := lo + 256 * hi;
    Leading(v % 2 == 1, v / 2 % 2 == 1, v / 4)
  }

  lemma HeaderRoundTrip(l: Leading)
    requires l.size < 0x4000
    ensures ReadHeader(Header(l)[0], Header(l)[1]) == l
  {
  }

  /** Where the fields lie: the start flag is bit 0 of the first byte, the end
      flag is bit 1, and the size takes the other six bits and, above them, the
      second byte. */
  lemma HeaderBits(l: Leading)
    requires l.size < 0x4000
    ensures var h := Header(l);
      && (h[0] % 2 == 1 <==> l.start) && (h[0] / 2 % 2 == 1 <==> l.end)
      && h[0] / 4 + 64 * (h[1] as int) == l.size
  {
    var h := Header(l);
    var v := Bit(l.start) + 2 * Bit(l.end) + 4 * l.size;
    assert h[0] as int + 256 * (h[1] as int) == v;
    assert h[0] / 4 + 64 * (h[1] as int) == v / 4;
  }

  lemma HeaderIsUnique(lo: byte, hi: byte)
    ensures Header(ReadHeader(lo, hi)) == [lo, hi]
  {
    var v := lo + 256 * hi;
    Bits(v);
    LowHigh(v, lo, hi);
  }

  lemma Bits(v: nat)
    ensures v == v % 2 + 2 * (v / 2 % 2) + 4 * (v / 4)
  {
    var half := v / 2;
    assert v == 2 * half + v % 2;
    assert half == 2 * (half / 2) + half % 2;
    assert half / 2 == v / 4;
  }

  lemma LowHigh(v: nat, lo: byte, hi: byte)
    requires v == lo + 256 * hi
    ensures v % 256 == lo && v / 256 == hi
  {
  }

  // ---- one page ------------------------------------------------------------

  /** The packet under reassembly (_ref_recv_buf).  `lost` counts the receive
      buffers overwritten by a first page that arrived before the last one. */
  datatype Partial = Nothing(lost: nat) | Held(data: seq<byte>, lost: nat)

  datatype PageResult = PageResult(rc: int, out: seq<seq<byte>>, partial: Partial)

  /** The packet's own leading is plausible: a nonempty name that fits. */
  predicate Named(cfg: Config, data: seq<byte>) {
    |data| > 0 && data[0] > 0 && |data| >= cfg.lead + data[0]
  }

  /** What ConsumePacket does with the data of one page. */
  function ConsumePage(cfg: Config, p: Partial, l: Leading, data: seq<byte>): PageResult {
    if l.start && l.end then
      if Named(cfg, data) then PageResult(0, [data], p) else PageResult(-1, [], p)
    else if l.start then
      var lost := if p.Held? then p.lost + 1 else p.lost;
      if |data| <= cfg.recvCap then PageResult(0, [], Held(data, lost)) else PageResult(-2, [], Nothing(lost))
    else if p.Nothing? then
      PageResult(-6, [], p)
    else
      var all := p.data + data;
      if l.end then
        if |all| > cfg.recvCap then PageResult(-4, [], Nothing(p.lost))
        else if Named(cfg, all) then PageResult(0, [all], Nothing(p.lost))
        else PageResult(-3, [], Nothing(p.lost))
      else if |all| <= cfg.recvCap then PageResult(0, [], Held(all, p.lost))
      else PageResult(-5, [], Nothing(p.lost))
  }

  // ---- the whole stream ----------------------------------------------------

  /** The outcome of reading a stream: return code, packets delivered, packet
      under reassembly, bytes of an oversized page still to discard, whether
      some page was oversized, and the bytes not consumed. */
  datatype Scan = Scan(rc: int, out: seq<seq<byte>>, partial: Partial, skip: nat, over: bool, rest: seq<byte>)
  {
    function After(o: seq<seq<byte>>, v: bool): Scan {
      this.(out := o + out, over := v || over)
    }
  }

  /** What happens at the head of a stream: reading stops, or `n` bytes are
      consumed and reading goes on behind them. */
  datatype Head = Stop(scan: Scan) | More(n: nat, out: seq<seq<byte>>, partial: Partial, over: bool)

  function ReadHead(cfg: Config, cap: nat, skip: nat, p: Partial, s: seq<byte>): (h: Head)
    ensures h.More? ==> 0 < h.n <= |s|
  {
    if skip > 0 then
      if |s| <= skip then Stop(Scan(0, [], p, skip - |s|, false, [])) else More(skip, [], p, false)
    else if |s| < PAGE_LEADING then
      Stop(Scan(0, [], p, 0, false, s))
    else
      var l := ReadHeader(s[0], s[1]);
      var n := PAGE_LEADING + l.size;
      if l.size == 0 then
        Stop(Scan(-99, [], p, 0, false, s))
      else if n > cap then
        if |s| <= n then Stop(Scan(0, [], p, n - |s|, true, [])) else More(n, [], p, true)
      else if |s| < n then
        Stop(Scan(0, [], p, 0, false, s))
      else
        var r := ConsumePage(cfg, p, l, s[PAGE_LEADING..n]);
        if r.rc < 0 then Stop(Scan(r.rc, [], r.partial, 0, false, s)) else More(n, r.out, r.partial, false)
  }

  /** Reads a stream page by page, discarding pages that exceed `cap`. */
  function ScanAll(cfg: Config, cap: nat, skip: nat, p: Partial, s: seq<byte>): Scan
    decreases |s|
  {
    match ReadHead(cfg, cap, skip, p, s)
    case Stop(scan) => scan
    case More(n, out, p', over) => ScanAll(cfg, cap, 0, p', s[n..]).After(out, over)
  }

  /** The bytes cannot be consumed any further without more input. */
  predicate Hungry(cap: nat, s: seq<byte>) {
    |s| < PAGE_LEADING ||
    var l := ReadHeader(s[0], s[1]);
    0 < l.size && PAGE_LEADING + l.size <= cap && |s| < PAGE_LEADING + l.size
  }

  lemma ScanHungry(cfg: Config, cap: nat, p: Partial, s: seq<byte>)
    requires Hungry(cap, s)
    ensures ScanAll(cfg, cap, 0, p, s) == Scan(0, [], p, 0, false, s)
  {
  }

  /** Reading `a + b` is reading `a` and then what is left of it followed by
      `b`; an error in the first piece is the error of the whole. */
  ghost predicate Splits(cfg: Config, cap: nat, skip: nat, p: Partial, a: seq<byte>, b: seq<byte>) {
    var first := ScanAll(cfg, cap, skip, p, a);
    var both := ScanAll(cfg, cap, skip, p, a + b);
    if first.rc == 0 then
      both == ScanAll(cfg, cap, first.skip, first.partial, first.rest + b).After(first.out, first.over)
    else
      both.rc == first.rc && both.out == first.out && both.partial == first.partial && both.over == first.over
  }

  /** More bytes behind a consumed page, or behind an error, change nothing. */
  lemma HeadStable(cfg: Config, cap: nat, skip: nat, p: Partial, a: seq<byte>, b: seq<byte>)
    ensures var h, h' := ReadHead(cfg, cap, skip, p, a), ReadHead(cfg, cap, skip, p, a + b);
      && (h.More? ==> h' == h)
      && (h.Stop? && h.scan.rc < 0 ==> h' == Stop(h.scan.(rest := a + b)))
  {
    if skip == 0 && |a| >= PAGE_LEADING {
      var n := PAGE_LEADING + ReadHeader(a[0], a[1]).size;
      if |a| >= n {
        assert (a + b)[PAGE_LEADING..n] == a[PAGE_LEADING..n];
      }
    }
  }

  lemma AfterAfter(z: Scan, o1: seq<seq<byte>>, v1: bool, o2: seq<seq<byte>>, v2: bool)
    ensures z.After(o1, v1).After(o2, v2) == z.After(o2 + o1, v2 || v1)
  {
    assert o2 + (o1 + z.out) == (o2 + o1) + z.out;
  }

  lemma AfterNothing(z: Scan)
    ensures z.After([], false) == z
  {
    assert [] + z.out == z.out;
  }

  lemma SkipScan(cfg: Config, cap: nat, skip: nat, p: Partial, s: seq<byte>)
    requires skip > 0
    ensures ScanAll(cfg, cap, skip, p, s) ==
            if |s| <= skip then Scan(0, [], p, skip - |s|, false, []) else ScanAll(cfg, cap, 0, p, s[skip..])
  {
    if |s| > skip {
      AfterNothing(ScanAll(cfg, cap, 0, p, s[skip..]));
    }
  }

  /** Discarding `skip` bytes may be interrupted anywhere. */
  lemma SkipInPieces(cfg: Config, cap: nat, skip: nat, p: Partial, a: seq<byte>, b: seq<byte>)
    requires 0 < skip && |a| <= skip
    ensures ScanAll(cfg, cap, skip, p, a + b) == ScanAll(cfg, cap, skip - |a|, p, b)
  {
    SkipScan(cfg, cap, skip, p, a + b);
    if |a| < skip {
      SkipScan(cfg, cap, skip - |a|, p, b);
      assert |a + b| > skip ==> (a + b)[skip..] == b[skip - |a|..];
    } else if b == [] {
      assert a + b == a;
    } else {
      assert (a + b)[skip..] == b;
    }
  }

  lemma OversizedScan(cfg: Config, cap: nat, p: Partial, n: nat, s: seq<byte>)
    requires |s| >= PAGE_LEADING && n == PAGE_LEADING + ReadHeader(s[0], s[1]).size && n > PAGE_LEADING && n > cap
    ensures ScanAll(cfg, cap, 0, p, s) ==
            if |s| <= n then Scan(0, [], p, n - |s|, true, []) else ScanAll(cfg, cap, 0, p, s[n..]).After([], true)
  {
  }

  /** An oversized page is so many bytes to discard, wherever it is cut. */
  lemma OversizedInPieces(cfg: Config, cap: nat, p: Partial, n: nat, a: seq<byte>, b: seq<byte>)
    requires |a| >= PAGE_LEADING && n == PAGE_LEADING + ReadHeader(a[0], a[1]).size
    requires n > PAGE_LEADING && n > cap && |a| <= n
    ensures ScanAll(cfg, cap, 0, p, a + b) == ScanAll(cfg, cap, n - |a|, p, b).After([], true)
  {
    var s := a + b;
    assert s[0] == a[0] && s[1] == a[1];
    OversizedScan(cfg, cap, p, n, s);
    OversizedRest(cfg, cap, p, n, a, b);
  }

  lemma OversizedRest(cfg: Config, cap: nat, p: Partial, n: nat, a: seq<byte>, b: seq<byte>)
    requires |a| <= n && n > 0
    requires ScanAll(cfg, cap, 0, p, a + b) ==
             if |a + b| <= n then Scan(0, [], p, n - |a + b|, true, []) else ScanAll(cfg, cap, 0, p, (a + b)[n..]).After([], true)
    ensures ScanAll(cfg, cap, 0, p, a + b) == ScanAll(cfg, cap, n - |a|, p, b).After([], true)
  {
    if |a| < n {
      SkipScan(cfg, cap, n - |a|, p, b);
      assert |a + b| > n ==> (a + b)[n..] == b[n - |a|..];
    } else if b != [] {
      assert (a + b)[n..] == b;
    }
  }

  /** `Splits`, from what reading `a` alone gives. */
  lemma SplitsFrom(cfg: Config, cap: nat, skip: nat, p: Partial, a: seq<byte>, b: seq<byte>, k: nat, over: bool, rest: seq<byte>)
    requires ScanAll(cfg, cap, skip, p, a) == Scan(0, [], p, k, over, rest)
    requires ScanAll(cfg, cap, skip, p, a + b) == ScanAll(cfg, cap, k, p, rest + b).After([], over)
    ensures Splits(cfg, cap, skip, p, a, b)
  {
  }

  /** When reading stops inside bytes to discard, or hungry, it can go on from
      there. */
  lemma ResumeAtStop(cfg: Config, cap: nat, skip: nat, p: Partial, a: seq<byte>, b: seq<byte>)
    requires var h := ReadHead(cfg, cap, skip, p, a); h.Stop? && h.scan.rc == 0
    ensures Splits(cfg, cap, skip, p, a, b)
  {
    var scan := ReadHead(cfg, cap, skip, p, a).scan;
    assert scan == Scan(0, [], p, scan.skip, scan.over, scan.rest);
    assert scan.rest + b == if skip > 0 || scan.over then b else a + b;
    if skip > 0 {
      SkipInPieces(cfg, cap, skip, p, a, b);
      AfterNothing(ScanAll(cfg, cap, skip - |a|, p, b));
    } else if scan.over {
      OversizedInPieces(cfg, cap, p, PAGE_LEADING + ReadHeader(a[0], a[1]).size, a, b);
    } else {
      AfterNothing(ScanAll(cfg, cap, skip, p, a + b));
    }
    SplitsFrom(cfg, cap, skip, p, a, b, scan.skip, scan.over, scan.rest);
  }

  /** A stream may be cut anywhere: whatever the bytes, reading it in two
      pieces gives the same packets and the same first error. */
  lemma {:induction false} ScanInPieces(cfg: Config, cap: nat, skip: nat, p: Partial, a: seq<byte>, b: seq<byte>)
    ensures Splits(cfg, cap, skip, p, a, b)
    decreases |a|
  {
    var h := ReadHead(cfg, cap, skip, p, a);
    HeadStable(cfg, cap, skip, p, a, b);
    if h.More? {
      var tail := a[h.n..];
      assert (a + b)[h.n..] == tail + b;
      ScanInPieces(cfg, cap, 0, h.partial, tail, b);
      var x := ScanAll(cfg, cap, 0, h.partial, tail);
      assert ScanAll(cfg, cap, skip, p, a) == x.After(h.out, h.over);
      assert ScanAll(cfg, cap, skip, p, a + b) == ScanAll(cfg, cap, 0, h.partial, tail + b).After(h.out, h.over);
      AfterAfter(ScanAll(cfg, cap, x.skip, x.partial, x.rest + b), x.out, x.over, h.out, h.over);
    } else if h.scan.rc == 0 {
      ResumeAtStop(cfg, cap, skip, p, a, b);
    }
  }
}
