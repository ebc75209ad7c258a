/** The sender's side: what goes on the wire, and that a reader of the stream
    gets back exactly what was sent. */
module Wire {
  import opened Bytes
  import opened FramePage

  /** A packet's bytes cut into pages of at most PAGE_DATA bytes each; the
      first page carries the start flag, the last one the end flag. */
  function Pages(content: seq<byte>, start: bool): seq<byte>
    decreases |content|
  {
    var n := Min(PAGE_DATA, |content|);
    var last := n == |content|;
    Header(Leading(start, last, n)) + content[..n] + (if last then [] else Pages(content[n..], false))
  }

  function Stream(contents: seq<seq<byte>>): seq<byte> {
    if contents == [] then [] else Pages(contents[0], true) + Stream(contents[1..])
  }

  /** A receiver accepts the packet: its own leading is plausible and, if it
      takes several pages, it fits the receive buffer. */
  predicate Deliverable(cfg: Config, content: seq<byte>) {
    Named(cfg, content) && (|content| <= PAGE_DATA || |content| <= cfg.recvCap)
  }

  // ---- reading one page ----------------------------------------------------

  lemma HeadOfPage(cfg: Config, cap: nat, p: Partial, l: Leading, data: seq<byte>, s: seq<byte>)
    requires 0 < l.size == |data| < 0x4000 && PAGE_LEADING + l.size <= cap
    ensures var t, n, r := Header(l) + data + s, PAGE_LEADING + l.size, ConsumePage(cfg, p, l, data);
      && t[n..] == s
      && ReadHead(cfg, cap, 0, p, t) ==
         (if r.rc < 0 then Stop(Scan(r.rc, [], r.partial, 0, false, t)) else More(n, r.out, r.partial, false))
  {
    var t, n := Header(l) + data + s, PAGE_LEADING + l.size;
    HeaderRoundTrip(l);
    assert t[0] == Header(l)[0] && t[1] == Header(l)[1];
    assert t[PAGE_LEADING..n] == data;
    assert t[n..] == s;
  }

  /** A page that its receiver accepts is consumed, and reading goes on. */
  lemma ScanPage(cfg: Config, cap: nat, p: Partial, l: Leading, data: seq<byte>, s: seq<byte>)
    requires 0 < l.size == |data| < 0x4000 && PAGE_LEADING + l.size <= cap
    ensures var r := ConsumePage(cfg, p, l, data);
      ScanAll(cfg, cap, 0, p, Header(l) + data + s) ==
      if r.rc < 0 then Scan(r.rc, [], r.partial, 0, false, Header(l) + data + s)
      else ScanAll(cfg, cap, 0, r.partial, s).After(r.out, false)
  {
    HeadOfPage(cfg, cap, p, l, data, s);
  }

  /** A page too large for the receive buffer is discarded, all 2 + size bytes
      of it and nothing else: reading resumes at the next page. */
  lemma OversizedPageIsDropped(cfg: Config, cap: nat, p: Partial, l: Leading, data: seq<byte>, s: seq<byte>)
    requires 0 < l.size == |data| < 0x4000 && PAGE_LEADING + l.size > cap
    ensures ScanAll(cfg, cap, 0, p, Header(l) + data + s) == ScanAll(cfg, cap, 0, p, s).After([], true)
  {
    HeaderRoundTrip(l);
    var a := Header(l) + data;
    assert a[0] == Header(l)[0] && a[1] == Header(l)[1];
    OversizedInPieces(cfg, cap, p, PAGE_LEADING + l.size, a, s);
  }

  /** The return code of every complete page, in each situation.  A page of
      several is judged by what has been received so far. */
  lemma ReturnCodes(cfg: Config, cap: nat, p: Partial, l: Leading, data: seq<byte>, s: seq<byte>)
    requires 0 < l.size == |data| < 0x4000 && PAGE_LEADING + l.size <= cap
    ensures var scan := ScanAll(cfg, cap, 0, p, Header(l) + data + s);
      var sofar := if p.Held? then p.data + data else data;
      && (l.start && l.end && (data[0] == 0 || cfg.lead + data[0] > |data|) ==> scan.rc == -1)
      && (l.start && !l.end && |data| > cfg.recvCap ==> scan.rc == -2)
      && (!l.start && p.Nothing? ==> scan.rc == -6)
      && (!l.start && p.Held? && |sofar| > cfg.recvCap ==> scan.rc == if l.end then -4 else -5)
      && (!l.start && p.Held? && l.end && |sofar| <= cfg.recvCap && (sofar[0] == 0 || cfg.lead + sofar[0] > |sofar|) ==> scan.rc == -3)
  {
    ScanPage(cfg, cap, p, l, data, s);
  }

  /** And what a page that is in order does: a single one is delivered, whether
      or not another packet is under reassembly; a first one starts a packet, a
      middle one extends it, a last one completes it. */
  lemma GoodPages(cfg: Config, cap: nat, p: Partial, l: Leading, data: seq<byte>, s: seq<byte>)
    requires 0 < l.size == |data| < 0x4000 && PAGE_LEADING + l.size <= cap
    ensures var scan := ScanAll(cfg, cap, 0, p, Header(l) + data + s);
      var sofar := if p.Held? then p.data + data else data;
      && (l.start && l.end && data[0] > 0 && cfg.lead + data[0] <= |data| ==>
            scan == ScanAll(cfg, cap, 0, p, s).After([data], false))
      && (l.start && !l.end && |data| <= cfg.recvCap ==>
            exists lost :: scan == ScanAll(cfg, cap, 0, Held(data, lost), s))
      && (!l.start && !l.end && p.Held? && |sofar| <= cfg.recvCap ==>
            scan == ScanAll(cfg, cap, 0, Held(sofar, p.lost), s))
      && (!l.start && l.end && p.Held? && |sofar| <= cfg.recvCap && sofar[0] > 0 && cfg.lead + sofar[0] <= |sofar| ==>
            scan == ScanAll(cfg, cap, 0, Nothing(p.lost), s).After([sofar], false))
  {
    ScanPage(cfg, cap, p, l, data, s);
    var r := ConsumePage(cfg, p, l, data);
    AfterNothing(ScanAll(cfg, cap, 0, r.partial, s));
  }

  /** The first bytes of a page may say that it is empty: nothing is consumed. */
  lemma EmptyPage(cfg: Config, cap: nat, p: Partial, l: Leading, s: seq<byte>)
    requires l.size == 0
    ensures ScanAll(cfg, cap, 0, p, Header(l) + s) == Scan(-99, [], p, 0, false, Header(l) + s)
  {
    HeaderRoundTrip(l);
    var t := Header(l) + s;
    assert t[0] == Header(l)[0] && t[1] == Header(l)[1];
  }

  // ---- where the pages lie -------------------------------------------------

  /** Page `i` of a packet stands at `i` times 8192 bytes.  Every page but the
      last is full; bit 0 is set in the first one only and bit 1 in the last one
      only; the data are the packet's, in order. */
  ghost predicate PageStands(content: seq<byte>, start: bool, i: nat, pages: seq<byte>) {
    var at, from := 8192 * i, 8190 * i;
    var n := if |content| - from < 8190 then |content| - from else 8190;
    && 0 <= n && at + 2 + n <= |pages|
    && (pages[at] % 2 == 1 <==> start && i == 0) && (pages[at] / 2 % 2 == 1 <==> from + n == |content|)
    && pages[at] / 4 + 64 * (pages[at + 1] as int) == n
    && (forall k :: at + 2 <= k < at + 2 + n ==> pages[k] == content[k - at - 2 + from])
    && (from + n == |content| ==> at + 2 + n == |pages|)
  }

  lemma FirstPage(content: seq<byte>, start: bool, n: nat, h: seq<byte>, tail: seq<byte>, pages: seq<byte>)
    requires n == Min(8190, |content|) && |h| == 2 && (n == |content| ==> tail == []) && pages == h + content[..n] + tail
    requires (h[0] % 2 == 1 <==> start) && (h[0] / 2 % 2 == 1 <==> n == |content|) && h[0] / 4 + 64 * (h[1] as int) == n
    ensures PageStands(content, start, 0, pages)
  {
    assert pages[0] == h[0] && pages[1] == h[1];
  }

  lemma LaterPage(content: seq<byte>, tail: seq<byte>, start: bool, i: nat, page: seq<byte>, rest: seq<byte>, pages: seq<byte>)
    requires |page| == 8192 && |content| > 8190 && Piece(content, 8190, |content|, tail)
    requires PageStands(tail, false, i, rest) && pages == page + rest
    ensures PageStands(content, start, i + 1, pages)
  {
    var at, from := 8192 * i, 8190 * i;
    assert pages[8192 + at] == rest[at] && pages[8192 + at + 1] == rest[at + 1];
    var n := if |tail| - from < 8190 then |tail| - from else 8190;
    forall k | 8192 + at + 2 <= k < 8192 + at + 2 + n ensures pages[k] == content[k - (8192 + at) - 2 + (8190 + from)] {
      assert pages[k] == rest[k - 8192] == tail[k - 8192 - at - 2 + from];
    }
  }

  /** `Pages(content, start) == pages`, quantified over an equal packet so that
      the solver does not cut it up wherever this is passed along. */
  ghost predicate ArePages(content: seq<byte>, start: bool, pages: seq<byte>) {
    forall t :: t == content ==> Pages(t, start) == pages
  }

  lemma FirstOfPages(content: seq<byte>, start: bool, pages: seq<byte>)
    requires ArePages(content, start, pages)
    ensures PageStands(content, start, 0, pages)
  {
    var n := Min(PAGE_DATA, |content|);
    var l := Leading(start, n == |content|, n);
    assert pages == Pages(content, start);
    HeaderBits(l);
    FirstPage(content, start, n, Header(l), if n == |content| then [] else Pages(content[n..], false), pages);
  }

  lemma RestOfPages(content: seq<byte>, start: bool, pages: seq<byte>) returns (tail: seq<byte>, page: seq<byte>, rest: seq<byte>)
    requires |content| > PAGE_DATA && ArePages(content, start, pages)
    ensures Piece(content, PAGE_DATA, |content|, tail) && |page| == PAGE_MAX && pages == page + rest && ArePages(tail, false, rest)
  {
    tail, page := content[PAGE_DATA..], Header(Leading(start, false, PAGE_DATA)) + content[..PAGE_DATA];
    rest := Pages(tail, false);
    assert pages == Pages(content, start);
  }

  lemma {:induction false} PageLayout(content: seq<byte>, start: bool, i: nat, pages: seq<byte>)
    requires (i == 0 || 8190 * i < |content|) && ArePages(content, start, pages)
    ensures PageStands(content, start, i, pages)
    decreases i
  {
    if i == 0 {
      FirstOfPages(content, start, pages);
    } else {
      var tail, page, rest := RestOfPages(content, start, pages);
      PageLayout(tail, false, i - 1, rest);
      LaterPage(content, tail, start, i - 1, page, rest, pages);
    }
  }

  // ---- reading one packet --------------------------------------------------

  lemma SplitFirst(content: seq<byte>, start: bool, s: seq<byte>)
    requires |content| > PAGE_DATA
    ensures Pages(content, start) + s
         == Header(Leading(start, false, PAGE_DATA)) + content[..PAGE_DATA] + (Pages(content[PAGE_DATA..], false) + s)
  {
  }

  /** Later pages complete the packet under reassembly. */
  lemma {:induction false} ScanLaterPages(cfg: Config, cap: nat, lost: nat, acc: seq<byte>, content: seq<byte>, s: seq<byte>)
    requires cap >= PAGE_MAX && |content| > 0
    ensures var all := acc + content;
      var scan := ScanAll(cfg, cap, 0, Held(acc, lost), Pages(content, false) + s);
      if |all| <= cfg.recvCap && Named(cfg, all) then scan == ScanAll(cfg, cap, 0, Nothing(lost), s).After([all], false)
      else scan.rc < 0 && scan.out == []
    decreases |content|
  {
    if |content| <= PAGE_DATA {
      var l := Leading(false, true, |content|);
      assert content[..|content|] == content;
      assert Pages(content, false) + s == Header(l) + content + s;
      ScanPage(cfg, cap, Held(acc, lost), l, content, s);
    } else {
      var data, tail := content[..PAGE_DATA], content[PAGE_DATA..];
      SplitFirst(content, false, s);
      ScanPage(cfg, cap, Held(acc, lost), Leading(false, false, PAGE_DATA), data, Pages(tail, false) + s);
      ScanLaterPages(cfg, cap, lost, acc + data, tail, s);
      assert acc + data + tail == acc + content;
      AfterNothing(ScanAll(cfg, cap, 0, Held(acc + data, lost), Pages(tail, false) + s));
    }
  }

  /** A packet's pages deliver exactly that packet, or an error if it is not
      deliverable.  So a packet gets through if and only if it is. */
  lemma ScanPacket(cfg: Config, cap: nat, lost: nat, content: seq<byte>, s: seq<byte>)
    requires cap >= PAGE_MAX && |content| > 0
    ensures var scan := ScanAll(cfg, cap, 0, Nothing(lost), Pages(content, true) + s);
      if Deliverable(cfg, content) then scan == ScanAll(cfg, cap, 0, Nothing(lost), s).After([content], false)
      else scan.rc < 0 && scan.out == []
  {
    if |content| <= PAGE_DATA {
      var l := Leading(true, true, |content|);
      assert content[..|content|] == content;
      assert Pages(content, true) + s == Header(l) + content + s;
      ScanPage(cfg, cap, Nothing(lost), l, content, s);
    } else {
      var data, tail := content[..PAGE_DATA], content[PAGE_DATA..];
      SplitFirst(content, true, s);
      ScanPage(cfg, cap, Nothing(lost), Leading(true, false, PAGE_DATA), data, Pages(tail, false) + s);
      ScanLaterPages(cfg, cap, lost, data, tail, s);
      assert data + tail == content;
      AfterNothing(ScanAll(cfg, cap, 0, Held(data, lost), Pages(tail, false) + s));
    }
  }

  // ---- reading a whole stream ----------------------------------------------

  /** Any number of deliverable packets, sent one after the other, come out in
      order, with no error, no page oversized, nothing left over and no receive
      buffer lost. */
  lemma {:induction false} StreamRoundTrip(cfg: Config, cap: nat, lost: nat, contents: seq<seq<byte>>)
    requires cap >= PAGE_MAX && forall i :: 0 <= i < |contents| ==> Deliverable(cfg, contents[i])
    ensures ScanAll(cfg, cap, 0, Nothing(lost), Stream(contents)) == Scan(0, contents, Nothing(lost), 0, false, [])
    decreases |contents|
  {
    if contents != [] {
      StreamRoundTrip(cfg, cap, lost, contents[1..]);
      ScanPacket(cfg, cap, lost, contents[0], Stream(contents[1..]));
      assert [contents[0]] + contents[1..] == contents;
    }
  }

  // ---- what a delivered packet says ----------------------------------------

  /** The little-endian bytes of a number. */
  function LittleEndian(v: nat, n: nat): (s: seq<byte>)
    ensures |s| == n
    decreases n
  {
    if n == 0 then [] else [v % 256] + LittleEndian(v / 256, n - 1)
  }

  function FromLittleEndian(s: seq<byte>): nat {
    if s == [] then 0 else s[0] + 256 * FromLittleEndian(s[1..])
  }

  function Pow256(n: nat): nat {
    if n == 0 then 1 else 256 * Pow256(n - 1)
  }

  /** The least significant byte comes first. */
  lemma {:induction false} LittleEndianBytes(v: nat, n: nat, i: nat)
    requires i < n
    ensures Pow256(i) > 0 && LittleEndian(v, n)[i] == v / Pow256(i) % 256
    decreases i
  {
    if i > 0 {
      LittleEndianBytes(v / 256, n - 1, i - 1);
      DivideTwice(v, Pow256(i - 1));
    }
  }

  lemma DivideTwice(v: nat, b: nat)
    requires b > 0
    ensures v / 256 / b == v / (256 * b)
  {
    var q := v / 256;
    var x, y := q / b, q % b;
    assert q == b * x + y;
    Regrouped(b, x);
    QuotientIs(v, 256 * b, x, 256 * y + v % 256);
  }

  lemma Regrouped(b: nat, x: nat)
    ensures 256 * b * x == 256 * (b * x)
  {
  }

  lemma QuotientIs(v: nat, d: nat, x: nat, rest: nat)
    requires d > 0 && v == d * x + rest && rest < d
    ensures v / d == x
  {
    var q := v / d;
    assert v == d * q + v % d;
    if q < x {
      MultiplesApart(d, q, x);
      assert false;
    }
    if x < q {
      MultiplesApart(d, x, q);
      assert false;
    }
  }

  lemma {:induction false} MultiplesApart(d: nat, a: nat, b: nat)
    requires a < b
    ensures d * a + d <= d * b
    decreases b
  {
    OneMore(d, b - 1);
    if a + 1 < b {
      MultiplesApart(d, a, b - 1);
    }
  }

  lemma OneMore(d: nat, b: nat)
    ensures d * (b + 1) == d * b + d
  {
  }

  lemma {:induction false} LittleEndianRoundTrip(v: nat, n: nat)
    requires v < Pow256(n)
    ensures FromLittleEndian(LittleEndian(v, n)) == v
    decreases n
  {
    if n > 0 {
      LittleEndianRoundTrip(v / 256, n - 1);
      assert LittleEndian(v, n)[1..] == LittleEndian(v / 256, n - 1);
    }
  }

  /** The packet leading written by EncodeStream.  Of the inner leading, bytes
      2 to 7 are never written, so they may be anything. */
  predicate IsPacketLeading(lead: nat, b: seq<byte>, nameLen: nat, serial: byte, uuid: nat) {
    && |b| == lead >= 2 && b[0] == nameLen % 256 && b[1] == serial
    && (lead == 16 ==> b[8..16] == LittleEndian(uuid, 8))
  }

  /** A sent packet is plausible exactly when its name length is not a multiple
      of 256, whose 8-bit length field is 0. */
  lemma NamedExactlyWhen(cfg: Config, b: seq<byte>, name: seq<byte>, body: seq<byte>, serial: byte, uuid: nat)
    requires IsPacketLeading(cfg.lead, b, |name|, serial, uuid)
    ensures Named(cfg, b + name + body) <==> |name| % 256 != 0
  {
    assert (b + name + body)[0] == b[0];
  }

  /** From a packet the receiver reads back the serial number and the uuid and,
      exactly when the name is shorter than 256 bytes, the name and the body. */
  lemma FieldsRoundTrip(lead: nat, b: seq<byte>, name: seq<byte>, body: seq<byte>, serial: byte, uuid: nat)
    requires IsPacketLeading(lead, b, |name|, serial, uuid)
    ensures var c := b + name + body;
      && lead + c[0] <= |c| && c[1] == serial
      && (c[lead..lead + c[0]] == name <==> |name| < 256)
      && (c[lead + c[0]..] == body <==> |name| < 256)
      && (lead == 16 && uuid < Pow256(8) ==> FromLittleEndian(c[8..16]) == uuid)
  {
    var c := b + name + body;
    assert c[0] == b[0] == |name| % 256 && c[1] == b[1];
    assert |c[lead..lead + c[0]]| == |name| % 256 && |c[lead + c[0]..]| == |name| - |name| % 256 + |body|;
    if |name| < 256 {
      assert c[lead..lead + c[0]] == name;
      assert c[lead + c[0]..] == body;
    }
    if lead == 16 && uuid < Pow256(8) {
      assert c[8..16] == b[8..16];
      LittleEndianRoundTrip(uuid, 8);
    }
  }
}
