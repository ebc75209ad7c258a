/** What a delivered packet consists of, whatever the bytes: complete pages of
    the stream, from a first one to a last one.

    Pages of the same packet need not follow each other directly: a page that is
    first and last is a packet of its own and leaves the packet under reassembly
    alone, and an oversized page is dropped. */
module Delivery {
  import opened Bytes
  import opened FramePage
  import opened Wire

  datatype Page = Page(start: bool, end: bool, data: seq<byte>)

  /** The complete pages at the head of a stream that fit the buffer, in order;
      oversized ones are left out.  The list ends at an empty page. */
  function CompletePages(cap: nat, s: seq<byte>): seq<Page>
    decreases |s|
  {
    if |s| < PAGE_LEADING then []
    else
      var l := ReadHeader(s[0], s[1]);
      var n := PAGE_LEADING + l.size;
      if l.size == 0 || |s| < n || (n > cap && |s| == n) then []
      else if n > cap then CompletePages(cap, s[n..])
      else [Page(l.start, l.end, s[PAGE_LEADING..n])] + CompletePages(cap, s[n..])
  }

  /** The data of the pages, but for those that are packets of their own. */
  function Joined(pages: seq<Page>): seq<byte> {
    if pages == [] then []
    else
      var last := pages[|pages| - 1];
      Joined(pages[..|pages| - 1]) + if last.start && last.end then [] else last.data
  }

  /** Neither the first nor the last page of a packet of several. */
  predicate Between(page: Page) {
    page.start == page.end
  }

  /** The packet that begins with page `i` has been received up to the last of
      the pages. */
  ghost predicate Open(pages: seq<Page>, i: nat, sofar: seq<byte>) {
    && i < |pages| && pages[i].start && !pages[i].end
    && (forall k :: i < k < |pages| ==> Between(pages[k]))
    && sofar == Joined(pages[i..])
  }

  /** `c` is the packet from page `i` to page `j`. */
  ghost predicate Packet(pages: seq<Page>, i: nat, j: nat, c: seq<byte>) {
    && i <= j < |pages| && pages[i].start && pages[j].end
    && (forall k :: i < k < j ==> Between(pages[k]))
    && if i == j then c == pages[i].data
       else !pages[i].end && !pages[j].start && c == Joined(pages[i..j + 1])
  }

  ghost predicate IsPacket(pages: seq<Page>, c: seq<byte>) {
    exists i: nat, j: nat :: Packet(pages, i, j, c)
  }

  /** Its own leading is plausible. */
  predicate Plausible(cfg: Config, c: seq<byte>) {
    |c| > 0 && 0 < c[0] && cfg.lead + c[0] <= |c|
  }

  // ---- one page more -------------------------------------------------------

  lemma JoinedMore(pages: seq<Page>, i: nat, page: Page)
    requires i <= |pages|
    ensures Joined((pages + [page])[i..]) == Joined(pages[i..]) + if page.start && page.end then [] else page.data
  {
    var more := (pages + [page])[i..];
    assert more == pages[i..] + [page];
    assert more[..|more| - 1] == pages[i..];
  }

  /** What is under reassembly after one more page. */
  lemma OpenMore(cfg: Config, pages: seq<Page>, p: Partial, l: Leading, data: seq<byte>)
    requires p.Held? ==> exists i: nat :: Open(pages, i, p.data)
    ensures var r := ConsumePage(cfg, p, l, data);
      r.rc >= 0 && r.partial.Held? ==> exists i: nat :: Open(pages + [Page(l.start, l.end, data)], i, r.partial.data)
  {
    var r := ConsumePage(cfg, p, l, data);
    var more := pages + [Page(l.start, l.end, data)];
    if r.rc >= 0 && r.partial.Held? {
      if l.start && !l.end {
        assert more[|pages|..] == [Page(l.start, l.end, data)];
        assert Joined([]) == [] && Joined(more[|pages|..]) == data;
        assert Open(more, |pages|, data);
      } else {
        var i: nat :| Open(pages, i, p.data);
        JoinedMore(pages, i, Page(l.start, l.end, data));
        assert Open(more, i, r.partial.data);
      }
    }
  }

  lemma UpToEnd(pages: seq<Page>, i: nat)
    requires i <= |pages|
    ensures pages[i..|pages|] == pages[i..]
  {
  }

  /** What one more page delivers. */
  lemma PacketMore(cfg: Config, pages: seq<Page>, p: Partial, l: Leading, data: seq<byte>)
    requires p.Held? ==> exists i: nat :: Open(pages, i, p.data)
    ensures var r := ConsumePage(cfg, p, l, data);
      forall c :: c in r.out ==> Plausible(cfg, c) && IsPacket(pages + [Page(l.start, l.end, data)], c)
  {
    var r := ConsumePage(cfg, p, l, data);
    var page := Page(l.start, l.end, data);
    var more := pages + [page];
    if l.start && l.end {
      assert Packet(more, |pages|, |pages|, data);
    } else if r.out != [] {
      var i: nat :| Open(pages, i, p.data);
      JoinedMore(pages, i, page);
      UpToEnd(more, i);
      assert Packet(more, i, |more| - 1, p.data + data);
    }
  }

  /** Further pages do not matter to a packet. */
  lemma PacketStays(pages: seq<Page>, more: seq<Page>, c: seq<byte>)
    requires IsPacket(pages, c)
    ensures IsPacket(pages + more, c)
  {
    var i: nat, j: nat :| Packet(pages, i, j, c);
    assert (pages + more)[i..j + 1] == pages[i..j + 1];
    assert Packet(pages + more, i, j, c);
  }

  // ---- every packet of a stream --------------------------------------------

  ghost predicate AllPackets(cfg: Config, pages: seq<Page>, out: seq<seq<byte>>) {
    forall c :: c in out ==> Plausible(cfg, c) && IsPacket(pages, c)
  }

  lemma AllPacketsStay(cfg: Config, pages: seq<Page>, more: seq<Page>, out: seq<seq<byte>>, out': seq<seq<byte>>)
    requires AllPackets(cfg, pages, out) && AllPackets(cfg, pages + more, out')
    ensures AllPackets(cfg, pages + more, out + out')
  {
    forall c | c in out ensures IsPacket(pages + more, c) {
      PacketStays(pages, more, c);
    }
  }

  /** Reading step by step. */
  lemma ScanStep(cfg: Config, cap: nat, p: Partial, s: seq<byte>)
    requires ReadHead(cfg, cap, 0, p, s).More?
    ensures var h := ReadHead(cfg, cap, 0, p, s);
      ScanAll(cfg, cap, 0, p, s).out == h.out + ScanAll(cfg, cap, 0, h.partial, s[h.n..]).out
  {
  }

  lemma PagesStep(cfg: Config, cap: nat, p: Partial, s: seq<byte>)
    requires ReadHead(cfg, cap, 0, p, s).More?
    ensures var h, l := ReadHead(cfg, cap, 0, p, s), ReadHeader(s[0], s[1]);
      if h.over then h.out == [] && h.partial == p && CompletePages(cap, s) == CompletePages(cap, s[h.n..])
      else
        && h.n > PAGE_LEADING && CompletePages(cap, s) == [Page(l.start, l.end, s[PAGE_LEADING..h.n])] + CompletePages(cap, s[h.n..])
        && var r := ConsumePage(cfg, p, l, s[PAGE_LEADING..h.n]); r.rc >= 0 && h.out == r.out && h.partial == r.partial
  {
  }

  /** The packets delivered while reading `s` are packets among the pages `done`
      read before and those of `s`. */
  lemma {:induction false} DeliveredFrom(cfg: Config, cap: nat, done: seq<Page>, p: Partial, s: seq<byte>)
    requires p.Held? ==> exists i: nat :: Open(done, i, p.data)
    ensures AllPackets(cfg, done + CompletePages(cap, s), ScanAll(cfg, cap, 0, p, s).out)
    decreases |s|
  {
    var h := ReadHead(cfg, cap, 0, p, s);
    if h.More? {
      var l, tail := ReadHeader(s[0], s[1]), s[h.n..];
      ScanStep(cfg, cap, p, s);
      PagesStep(cfg, cap, p, s);
      if h.over {
        DeliveredFrom(cfg, cap, done, p, tail);
        assert h.out + ScanAll(cfg, cap, 0, p, tail).out == ScanAll(cfg, cap, 0, p, tail).out;
      } else {
        var page := Page(l.start, l.end, s[PAGE_LEADING..h.n]);
        OpenMore(cfg, done, p, l, page.data);
        PacketMore(cfg, done, p, l, page.data);
        DeliveredFrom(cfg, cap, done + [page], h.partial, tail);
        AllPacketsStay(cfg, done + [page], CompletePages(cap, tail), h.out, ScanAll(cfg, cap, 0, h.partial, tail).out);
        assert done + [page] + CompletePages(cap, tail) == done + CompletePages(cap, s);
      }
    } else {
      assert ScanAll(cfg, cap, 0, p, s).out == [];
    }
  }

  /** For all bytes: every delivered string is the joined data of pages of the
      stream from a first to a last one, and starts with a plausible leading. */
  lemma DeliveredArePackets(cfg: Config, cap: nat, lost: nat, s: seq<byte>)
    ensures forall c :: c in ScanAll(cfg, cap, 0, Nothing(lost), s).out ==>
      IsPacket(CompletePages(cap, s), c) && |c| > 0 && 0 < c[0] && cfg.lead + c[0] <= |c|
  {
    DeliveredFrom(cfg, cap, [], Nothing(lost), s);
    assert [] + CompletePages(cap, s) == CompletePages(cap, s);
  }

  /** The pages of a packet may stand apart: between the two pages of the packet
      [1, 5, 7] stands the packet [1, 5, 9], which is delivered first. */
  lemma PagesMayStandApart(cfg: Config, cap: nat)
    requires cfg.lead == 2 && cfg.recvCap >= 3 && cap >= 5
    ensures var first, single, last := Header(Leading(true, false, 2)) + [1, 5], Header(Leading(true, true, 3)) + [1, 5, 9],
                                       Header(Leading(false, true, 1)) + [7];
      ScanAll(cfg, cap, 0, Nothing(0), first + (single + last)).out == [[1, 5, 9], [1, 5, 7]]
  {
    var last := Header(Leading(false, true, 1)) + [7];
    var single := Header(Leading(true, true, 3)) + [1, 5, 9];
    GoodPages(cfg, cap, Nothing(0), Leading(true, false, 2), [1, 5], single + last);
    var lost :| ScanAll(cfg, cap, 0, Nothing(0), Header(Leading(true, false, 2)) + [1, 5] + (single + last))
             == ScanAll(cfg, cap, 0, Held([1, 5], lost), single + last);
    GoodPages(cfg, cap, Held([1, 5], lost), Leading(true, true, 3), [1, 5, 9], last);
    GoodPages(cfg, cap, Held([1, 5], lost), Leading(false, true, 1), [7], []);
    assert last + [] == last && [1, 5] + [7] == [1, 5, 7];
    assert ScanAll(cfg, cap, 0, Nothing(lost), []).out == [];
  }
}
