/** When the receiver loses a receive buffer: `ConsumePacket` allocates a new one
    for every first page of several, also while a packet is under reassembly,
    whose buffer is then never freed. */
module LostBuffer {
  import opened Bytes
  import opened FramePage
  import opened Wire

  /** At position `k`, behind bytes that have been read completely and left a
      packet under reassembly, stands a complete page that fits the buffer and
      is the first of several. */
  ghost predicate OverwritesAt(cfg: Config, cap: nat, skip: nat, p: Partial, s: seq<byte>, k: nat) {
    k + PAGE_LEADING <= |s| && FirstOfSeveral(cap, s, k) && ReadsToHeld(cfg, cap, skip, p, s[..k])
  }

  // The next two predicates quantify over an equal string, which says the same
  // and keeps the reader from being unfolded where they are passed along.

  ghost predicate ReadsToHeld(cfg: Config, cap: nat, skip: nat, p: Partial, q: seq<byte>) {
    forall t :: t == q ==> EndsHeld(ScanAll(cfg, cap, skip, p, t))
  }

  predicate EndsHeld(scan: Scan) {
    scan.rc == 0 && scan.skip == 0 && scan.rest == [] && scan.partial.Held?
  }

  ghost predicate Loses(cfg: Config, cap: nat, skip: nat, p: Partial, s: seq<byte>) {
    forall t :: t == s ==> ScanAll(cfg, cap, skip, p, t).partial.lost > p.lost
  }

  predicate FirstOfSeveral(cap: nat, s: seq<byte>, k: nat)
    requires k + PAGE_LEADING <= |s|
  {
    var l := ReadHeader(s[k], s[k + 1]);
    l.start && !l.end && 0 < l.size && PAGE_LEADING + l.size <= cap && k + PAGE_LEADING + l.size <= |s|
  }

  /** Reading never gives a lost buffer back. */
  lemma {:induction false} LostGrows(cfg: Config, cap: nat, skip: nat, p: Partial, s: seq<byte>)
    ensures ScanAll(cfg, cap, skip, p, s).partial.lost >= p.lost
    decreases |s|
  {
    var h := ReadHead(cfg, cap, skip, p, s);
    if h.More? {
      LostGrows(cfg, cap, 0, h.partial, s[h.n..]);
    }
  }

  /** One step loses a buffer exactly when it overwrites one. */
  lemma HeadLoses(cfg: Config, cap: nat, skip: nat, p: Partial, s: seq<byte>)
    ensures var h := ReadHead(cfg, cap, skip, p, s);
      var q := if h.Stop? then h.scan.partial else h.partial;
      && p.lost <= q.lost
      && (q.lost > p.lost <==> skip == 0 && p.Held? && |s| >= PAGE_LEADING && FirstOfSeveral(cap, s, 0))
  {
  }

  /** The bytes consumed in one step are read completely. */
  lemma HeadAlone(cfg: Config, cap: nat, skip: nat, p: Partial, s: seq<byte>)
    requires ReadHead(cfg, cap, skip, p, s).More?
    ensures var h := ReadHead(cfg, cap, skip, p, s);
      ScanAll(cfg, cap, skip, p, s[..h.n]) == Scan(0, h.out, h.partial, 0, h.over, [])
  {
    var h := ReadHead(cfg, cap, skip, p, s);
    var a := s[..h.n];
    if skip == 0 && !h.over {
      assert a[PAGE_LEADING..h.n] == s[PAGE_LEADING..h.n];
      assert ReadHead(cfg, cap, skip, p, a) == h && a[h.n..] == [];
      assert ScanAll(cfg, cap, 0, h.partial, []) == Scan(0, [], h.partial, 0, false, []);
      assert h.out + [] == h.out;
    }
  }

  /** Bytes read completely, and what stands behind them. */
  lemma ReadOn(cfg: Config, cap: nat, skip: nat, p: Partial, a: seq<byte>, b: seq<byte>,
               out: seq<seq<byte>>, p': Partial, over: bool)
    requires ScanAll(cfg, cap, skip, p, a) == Scan(0, out, p', 0, over, [])
    ensures ScanAll(cfg, cap, skip, p, a + b) == ScanAll(cfg, cap, 0, p', b).After(out, over)
  {
    ScanInPieces(cfg, cap, skip, p, a, b);
    assert [] + b == b;
  }

  lemma ReadOnToHeld(cfg: Config, cap: nat, skip: nat, p: Partial, a: seq<byte>, b: seq<byte>,
                     out: seq<seq<byte>>, p': Partial, over: bool)
    requires ScanAll(cfg, cap, skip, p, a) == Scan(0, out, p', 0, over, [])
    ensures ReadsToHeld(cfg, cap, skip, p, a + b) <==> ReadsToHeld(cfg, cap, 0, p', b)
  {
    ReadOn(cfg, cap, skip, p, a, b, out, p', over);
    assert EndsHeld(ScanAll(cfg, cap, skip, p, a + b)) <==> EndsHeld(ScanAll(cfg, cap, 0, p', b));
  }

  /** What is overwritten behind the first step is overwritten in the whole. */
  lemma BehindHead(cfg: Config, cap: nat, skip: nat, p: Partial, s: seq<byte>, j: nat)
    requires var h := ReadHead(cfg, cap, skip, p, s); h.More? && OverwritesAt(cfg, cap, 0, h.partial, s[h.n..], j)
    ensures OverwritesAt(cfg, cap, skip, p, s, ReadHead(cfg, cap, skip, p, s).n + j)
  {
    var h := ReadHead(cfg, cap, skip, p, s);
    HeadAlone(cfg, cap, skip, p, s);
    PieceBehind(cfg, cap, skip, p, s, h.n, j, h.out, h.partial, h.over);
  }

  lemma PieceBehind(cfg: Config, cap: nat, skip: nat, p: Partial, s: seq<byte>, n: nat, j: nat,
                    out: seq<seq<byte>>, p': Partial, over: bool)
    requires 0 < n <= |s| && ScanAll(cfg, cap, skip, p, s[..n]) == Scan(0, out, p', 0, over, [])
    requires OverwritesAt(cfg, cap, 0, p', s[n..], j)
    ensures OverwritesAt(cfg, cap, skip, p, s, n + j)
  {
    var tail := s[n..];
    ReadOnToHeld(cfg, cap, skip, p, s[..n], tail[..j], out, p', over);
    assert s[..n + j] == s[..n] + tail[..j];
    assert tail[j] == s[n + j] && tail[j + 1] == s[n + j + 1];
  }

  /** A reader that has nothing to discard has read nothing completely. */
  lemma ReadNothing(cfg: Config, cap: nat, p: Partial)
    ensures ScanAll(cfg, cap, 0, p, []) == Scan(0, [], p, 0, false, [])
  {
  }

  lemma OverwrittenAtOnce(cfg: Config, cap: nat, p: Partial, s: seq<byte>)
    requires p.Held? && |s| >= PAGE_LEADING && FirstOfSeveral(cap, s, 0)
    ensures OverwritesAt(cfg, cap, 0, p, s, 0)
  {
    ReadNothing(cfg, cap, p);
    assert s[..0] == [];
  }

  /** What the first step does not lose is lost behind it. */
  lemma LostLater(cfg: Config, cap: nat, skip: nat, p: Partial, s: seq<byte>)
    requires Loses(cfg, cap, skip, p, s)
    ensures var h := ReadHead(cfg, cap, skip, p, s);
      || (skip == 0 && p.Held? && |s| >= PAGE_LEADING && FirstOfSeveral(cap, s, 0))
      || (h.More? && Loses(cfg, cap, 0, h.partial, s[h.n..]))
  {
    HeadLoses(cfg, cap, skip, p, s);
    assert ScanAll(cfg, cap, skip, p, s).partial.lost > p.lost;
  }

  /** A lost buffer was overwritten somewhere. */
  lemma {:induction false} LostIsOverwritten(cfg: Config, cap: nat, skip: nat, p: Partial, s: seq<byte>) returns (k: nat)
    requires Loses(cfg, cap, skip, p, s)
    ensures OverwritesAt(cfg, cap, skip, p, s, k)
    decreases |s|
  {
    LostLater(cfg, cap, skip, p, s);
    if skip == 0 && p.Held? && |s| >= PAGE_LEADING && FirstOfSeveral(cap, s, 0) {
      OverwrittenAtOnce(cfg, cap, p, s);
      k := 0;
    } else {
      var h := ReadHead(cfg, cap, skip, p, s);
      var j := LostIsOverwritten(cfg, cap, 0, h.partial, s[h.n..]);
      BehindHead(cfg, cap, skip, p, s, j);
      k := h.n + j;
    }
  }

  /** An overwritten buffer is lost. */
  lemma OverwrittenIsLost(cfg: Config, cap: nat, skip: nat, p: Partial, s: seq<byte>, k: nat)
    requires OverwritesAt(cfg, cap, skip, p, s, k)
    ensures Loses(cfg, cap, skip, p, s)
  {
    var a, b := s[..k], s[k..];
    var x := ScanAll(cfg, cap, skip, p, a);
    assert EndsHeld(x);
    ReadOn(cfg, cap, skip, p, a, b, x.out, x.partial, x.over);
    LostGrows(cfg, cap, skip, p, a);
    assert b[0] == s[k] && b[1] == s[k + 1];
    FirstPageLoses(cfg, cap, x.partial, b);
    assert a + b == s;
  }

  lemma FirstPageLoses(cfg: Config, cap: nat, q: Partial, b: seq<byte>)
    requires q.Held? && |b| >= PAGE_LEADING && FirstOfSeveral(cap, b, 0)
    ensures ScanAll(cfg, cap, 0, q, b).partial.lost > q.lost
  {
    var h := ReadHead(cfg, cap, 0, q, b);
    HeadLoses(cfg, cap, 0, q, b);
    if h.More? {
      LostGrows(cfg, cap, 0, h.partial, b[h.n..]);
    }
  }

  /** For every string of bytes, valid or not, and from every state of the
      reader: a receive buffer is lost if and only if somewhere a complete first
      page follows bytes that leave another packet under reassembly. */
  lemma LostExactlyWhen(cfg: Config, cap: nat, skip: nat, p: Partial, s: seq<byte>)
    ensures ScanAll(cfg, cap, skip, p, s).partial.lost > p.lost <==> exists k: nat :: OverwritesAt(cfg, cap, skip, p, s, k)
  {
    if ScanAll(cfg, cap, skip, p, s).partial.lost > p.lost {
      assert Loses(cfg, cap, skip, p, s);
      var k := LostIsOverwritten(cfg, cap, skip, p, s);
    }
    if k: nat :| OverwritesAt(cfg, cap, skip, p, s, k) {
      OverwrittenIsLost(cfg, cap, skip, p, s, k);
      assert ScanAll(cfg, cap, skip, p, s).partial.lost > p.lost;
    }
  }

  /** Two first pages in a row: the buffer of the first is lost. */
  lemma TwoFirstPages(cfg: Config, cap: nat, a: byte, b: byte)
    requires cfg.recvCap >= 1 && cap >= PAGE_LEADING + 1
    ensures var l := Leading(true, false, 1);
      ScanAll(cfg, cap, 0, Nothing(0), Header(l) + [a] + (Header(l) + [b])) == Scan(0, [], Held([b], 1), 0, false, [])
  {
    var l := Leading(true, false, 1);
    ScanPage(cfg, cap, Nothing(0), l, [a], Header(l) + [b]);
    ScanPage(cfg, cap, Held([a], 0), l, [b], []);
    assert Header(l) + [b] + [] == Header(l) + [b];
    ReadNothing(cfg, cap, Held([b], 1));
  }
}
