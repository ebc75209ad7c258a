/** Both ends of a connection: a read loop feeding the codec through the bip
    buffer, and the round trip from Post to the packet callback. */
module Connection {
  import opened Bytes
  import opened FramePage
  import opened Wire
  import opened BipBuf
  import opened TcpPacket

  /** At the start of a connection nothing is held and nothing lost. */
  const START := Nothing(0)

  /** Reading goes on behind bytes that were consumed completely. */
  lemma EndsThen(cfg: Config, cap: nat, q: seq<byte>, out: seq<seq<byte>>, p: Partial, skip: nat, over: bool, s: seq<byte>)
    requires Ends(cfg, cap, 0, START, q, out, p, skip, over)
    ensures ScanAll(cfg, cap, 0, START, q + s) == ScanAll(cfg, cap, skip, p, s).After(out, over)
  {
    assert ScanAll(cfg, cap, 0, START, q) == Scan(0, out, p, skip, over, []);
    ScanInPieces(cfg, cap, 0, START, q, s);
    assert [] + s == s;
  }

  /** The reader's bookkeeping over one call. */
  lemma CallEnds(cfg: Config, cap: nat, q: seq<byte>, out: seq<seq<byte>>, p: Partial, skip: nat, over: bool,
                 s: seq<byte>, out': seq<seq<byte>>, p': Partial, skip': nat, over': bool)
    requires Ends(cfg, cap, 0, START, q, out, p, skip, over) && Ends(cfg, cap, skip, p, s, out', p', skip', over')
    ensures Ends(cfg, cap, 0, START, q + s, out + out', p', skip', over || over')
  {
    EndsThen(cfg, cap, q, out, p, skip, over, s);
    assert ScanAll(cfg, cap, skip, p, s) == Scan(0, out', p', skip', over', []);
  }

  lemma CallFails(cfg: Config, cap: nat, q: seq<byte>, out: seq<seq<byte>>, p: Partial, over: bool,
                  s: seq<byte>, rc: int, out': seq<seq<byte>>)
    requires Ends(cfg, cap, 0, START, q, out, p, 0, over) && FailsWith(cfg, cap, 0, p, s, rc, out')
    ensures FailsWith(cfg, cap, 0, START, q + s, rc, out + out')
  {
    EndsThen(cfg, cap, q, out, p, 0, over, s);
    assert ScanAll(cfg, cap, 0, p, s).rc == rc && ScanAll(cfg, cap, 0, p, s).out == out';
  }

  /** The two lemmas above, at position `k` of a stream. */
  lemma EndsOnStream(cfg: Config, cap: nat, stream: seq<byte>, k: nat, fed: nat, c: seq<byte>, out: seq<seq<byte>>, p: Partial,
                     skip: nat, over: bool, n: nat, rest: seq<byte>, out': seq<seq<byte>>, p': Partial, skip': nat, over': bool)
    requires Piece(stream, k, fed, c) && Piece(c, n, |c|, rest)
    requires Ends(cfg, cap, 0, START, stream[..k], out, p, skip, over)
    requires Ends(cfg, cap, skip, p, c[..n], out', p', skip', over')
    ensures Ends(cfg, cap, 0, START, stream[..k + n], out + out', p', skip', over || over')
    ensures Piece(stream, k + n, fed, rest)
  {
    CallEnds(cfg, cap, stream[..k], out, p, skip, over, c[..n], out', p', skip', over');
    PieceIs(stream, k, k + n, c[..n]);
    PieceOfPiece(stream, k, fed, c, n, |c|, rest);
  }

  lemma FailsOnStream(cfg: Config, cap: nat, stream: seq<byte>, k: nat, fed: nat, c: seq<byte>, out: seq<seq<byte>>, p: Partial,
                      skip: nat, over: bool, rc: int, out': seq<seq<byte>>)
    requires Piece(stream, k, fed, c) && Ends(cfg, cap, 0, START, stream[..k], out, p, skip, over) && skip == 0
    requires FailsWith(cfg, cap, 0, p, c, rc, out')
    ensures FailsWith(cfg, cap, 0, START, stream[..fed], rc, out + out')
  {
    CallFails(cfg, cap, stream[..k], out, p, over, c, rc, out');
  }

  /** Whatever has been fed: consumed bytes and the hungry rest. */
  ghost predicate Fed(cfg: Config, cap: nat, fed: seq<byte>, out: seq<seq<byte>>, p: Partial, rest: seq<byte>) {
    forall t :: t == fed && !ScanAll(cfg, cap, 0, START, t).over ==>
      ScanAll(cfg, cap, 0, START, t) == Scan(0, out, p, 0, false, rest)
  }

  lemma FedSoFar(cfg: Config, cap: nat, q: seq<byte>, out: seq<seq<byte>>, p: Partial, skip: nat, over: bool, rest: seq<byte>)
    requires Ends(cfg, cap, 0, START, q, out, p, skip, over)
    requires !over ==> skip == 0 && Starved(cap, rest, 0)
    ensures Fed(cfg, cap, q + rest, out, p, rest)
  {
    EndsThen(cfg, cap, q, out, p, skip, over, rest);
    if !over {
      assert HungryAt(cap, rest, 0);
      ScanHungry(cfg, cap, p, rest);
    }
  }

  /** The receiver with `fed` bytes of the stream committed and the first `k`
      of them consumed; the rest is the buffer's contents. */
  ghost predicate Consumed(pk: TcpPacket, bb: BipBuf, stream: seq<byte>, k: nat, fed: nat, out: seq<seq<byte>>, over: bool)
    reads pk, pk.pool, pk.recvData, bb, bb.buffer
  {
    && pk.Valid() && bb.Valid() && pk.recvData != bb.buffer && bb.ReservationSize() == 0
    && Piece(stream, k, fed, bb.contents) && pk.Ready(bb.contents, 0, bb.capacity)
    && Ends(pk.cfg, bb.capacity, 0, START, stream[..k], out, pk.Part(), pk.Skipping(), over)
    && (!over ==> pk.state != SkipPage)
  }

  /** The same between two read events: the buffer is not full and, unless some
      page was oversized, what is in it is hungry. */
  ghost predicate Paused(pk: TcpPacket, bb: BipBuf, stream: seq<byte>, k: nat, fed: nat, out: seq<seq<byte>>, over: bool)
    reads pk, pk.pool, pk.recvData, bb, bb.buffer
  {
    && Consumed(pk, bb, stream, k, fed, out, over)
    && bb.CommittedSize() < bb.capacity && (!over ==> Starved(bb.capacity, bb.contents, 0))
  }

  /** `Paused`, quantified over an equal position so that the solver unfolds it
      only where it is asked to. */
  ghost predicate Between(pk: TcpPacket, bb: BipBuf, stream: seq<byte>, k: nat, fed: nat, out: seq<seq<byte>>, over: bool)
    reads pk, pk.pool, pk.recvData, bb, bb.buffer
  {
    forall j :: j == k ==> Paused(pk, bb, stream, j, fed, out, over)
  }

  /** First half of a read event: reserve, let the socket fill in at most `cut`
      bytes, commit.  The reservation succeeds because the buffer is not full. */
  method Fill(bb: BipBuf, avail: seq<byte>, cut: nat) returns (nread: nat)
    requires bb.Valid() && bb.ReservationSize() == 0 && bb.CommittedSize() < bb.capacity
    modifies bb`aStart, bb`aEnd, bb`rStart, bb`rEnd, bb`contents, bb`committed, bb.buffer
    ensures bb.Valid() && bb.ReservationSize() == 0
    ensures nread == Min(Min(cut, old(bb.capacity - bb.CommittedSize())), |avail|)
    ensures nread <= |avail| && (nread > 0 <==> cut > 0 && avail != []) && bb.contents == old(bb.contents) + avail[..nread]
  {
    var ok, size := bb.Reserve();
    nread := Min(Min(cut, size), |avail|);
    bb.Write(avail[..nread]);
    bb.Commit(nread);
  }

  /** The same, for a receiver between two read events. */
  method Take(ghost pk: TcpPacket, bb: BipBuf, stream: seq<byte>, ghost k: nat, fed: nat, cut: nat,
              ghost out: seq<seq<byte>>, ghost over: bool) returns (nread: nat)
    requires Between(pk, bb, stream, k, fed, out, over)
    modifies bb`aStart, bb`aEnd, bb`rStart, bb`rEnd, bb`contents, bb`committed, bb.buffer
    ensures fed + nread <= |stream| && (nread > 0 <==> cut > 0 && fed < |stream|)
    ensures Consumed(pk, bb, stream, k, fed + nread, out, over)
    ensures nread == 0 ==> Between(pk, bb, stream, k, fed, out, over)
  {
    assert Paused(pk, bb, stream, k, fed, out, over);
    ghost var c := bb.contents;
    nread := Fill(bb, stream[fed..], cut);
    pk.ReadyGrows(c, stream[fed..][..nread], bb.capacity);
    Advance(stream, k, fed, c, nread);
  }

  lemma Advance(stream: seq<byte>, k: nat, fed: nat, c: seq<byte>, n: nat)
    requires fed + n <= |stream| && Piece(stream, k, fed, c)
    ensures Piece(stream, k, fed + n, c + stream[fed..][..n])
  {
  }

  /** A call that consumed `n` bytes of the buffer leaves the receiver between
      two read events. */
  lemma CallSucceeded(pk: TcpPacket, bb: BipBuf, stream: seq<byte>, k: nat, fed: nat, c: seq<byte>, out: seq<seq<byte>>, part: Partial,
                      skip: nat, over: bool, skipping: bool, n: nat, out': seq<seq<byte>>)
    requires pk.Valid() && bb.Valid() && pk.recvData != bb.buffer && bb.ReservationSize() == 0
    requires Piece(stream, k, fed, c) && Piece(c, n, |c|, bb.contents)
    requires pk.Ready(bb.contents, 0, bb.capacity)
    requires Ends(pk.cfg, bb.capacity, 0, START, stream[..k], out, part, skip, over) && (!over ==> !skipping)
    requires Ends(pk.cfg, bb.capacity, skip, part, c[..n], out', pk.Part(), pk.Skipping(), !skipping && pk.state == SkipPage)
    requires bb.CommittedSize() < bb.capacity && (!skipping ==> Starved(bb.capacity, bb.contents, 0))
    ensures Between(pk, bb, stream, k + n, fed, out + out', over || (!skipping && pk.state == SkipPage))
  {
    EndsOnStream(pk.cfg, bb.capacity, stream, k, fed, c, out, part, skip, over, n, bb.contents, out', pk.Part(), pk.Skipping(),
                 !skipping && pk.state == SkipPage);
    NowBetween(pk, bb, stream, k + n, fed, out + out', over || (!skipping && pk.state == SkipPage));
  }

  lemma NowBetween(pk: TcpPacket, bb: BipBuf, stream: seq<byte>, k: nat, fed: nat, out: seq<seq<byte>>, over: bool)
    requires Consumed(pk, bb, stream, k, fed, out, over)
    requires bb.CommittedSize() < bb.capacity && (!over ==> Starved(bb.capacity, bb.contents, 0))
    ensures Between(pk, bb, stream, k, fed, out, over)
  {
    assert Paused(pk, bb, stream, k, fed, out, over);
  }

  /** Second half: the codec reads the buffer. */
  method Decode(pk: TcpPacket, bb: BipBuf, stream: seq<byte>, ghost k: nat, fed: nat,
                ghost got0: seq<seq<byte>>, ghost out: seq<seq<byte>>, ghost over: bool)
    returns (rc: int, ghost k': nat, ghost out': seq<seq<byte>>, ghost over': bool)
    requires Consumed(pk, bb, stream, k, fed, out, over) && bb.capacity >= 2 && pk.got == got0 + out
    modifies pk`state, pk`leading, pk`held, pk`recvBuf, pk`recvData, pk`recvSize, pk`got, pk`lost, pk.recvData, pk.pool
    modifies bb`aStart, bb`contents, bb`dropped
    ensures pk.recvData == old(pk.recvData) || fresh(pk.recvData)
    ensures pk.got == got0 + out'
    ensures rc >= 0 ==> Between(pk, bb, stream, k', fed, out', over')
    ensures rc < 0 ==> pk.Valid() && bb.Valid() && FailsWith(pk.cfg, bb.capacity, 0, START, stream[..fed], rc, out')
  {
    ghost var c, part, skip, skipping := bb.contents, pk.Part(), pk.Skipping(), pk.state == SkipPage;
    ghost var new_;
    rc, new_ := pk.DecodeStream(bb);
    out' := out + new_;
    Associate(got0, out, new_);
    k', over' := k, over;
    if rc < 0 {
      FailsOnStream(pk.cfg, bb.capacity, stream, k, fed, c, out, part, skip, over, rc, new_);
    } else {
      k', over' := k + rc, over || (!skipping && pk.state == SkipPage);
      CallSucceeded(pk, bb, stream, k, fed, c, out, part, skip, over, skipping, rc, new_);
    }
  }

  /** A read event. */
  method OnRead(pk: TcpPacket, bb: BipBuf, stream: seq<byte>, ghost k: nat, fed: nat, cut: nat,
                ghost got0: seq<seq<byte>>, ghost out: seq<seq<byte>>, ghost over: bool)
    returns (nread: nat, rc: int, ghost k': nat, ghost out': seq<seq<byte>>, ghost over': bool)
    requires Between(pk, bb, stream, k, fed, out, over) && bb.capacity >= 2 && pk.got == got0 + out
    modifies pk`state, pk`leading, pk`held, pk`recvBuf, pk`recvData, pk`recvSize, pk`got, pk`lost, pk.recvData, pk.pool
    modifies bb`aStart, bb`aEnd, bb`rStart, bb`rEnd, bb`contents, bb`committed, bb`dropped, bb.buffer
    ensures pk.recvData == old(pk.recvData) || fresh(pk.recvData)
    ensures pk.got == got0 + out' && fed + nread <= |stream| && (nread > 0 <==> cut > 0 && fed < |stream|)
    ensures rc >= 0 ==> Between(pk, bb, stream, k', fed + nread, out', over')
    ensures rc < 0 ==> pk.Valid() && bb.Valid() && FailsWith(pk.cfg, bb.capacity, 0, START, stream[..fed + nread], rc, out')
  {
    rc, k', out', over' := 0, k, out, over;
    nread := Take(pk, bb, stream, k, fed, cut, out, over);
    if nread > 0 {
      rc, k', out', over' := Decode(pk, bb, stream, k, fed + nread, got0, out, over);
    }
  }

  lemma FedBetween(pk: TcpPacket, bb: BipBuf, stream: seq<byte>, k: nat, fed: nat, out: seq<seq<byte>>, over: bool)
    requires Between(pk, bb, stream, k, fed, out, over)
    ensures Paused(pk, bb, stream, k, fed, out, over)
    ensures Fed(pk.cfg, bb.capacity, stream[..fed], out, pk.Part(), bb.contents)
  {
    assert Paused(pk, bb, stream, k, fed, out, over);
    FedSoFar(pk.cfg, bb.capacity, stream[..k], out, pk.Part(), pk.Skipping(), over, bb.contents);
  }

  /** The read loop of a connection: event `i` delivers at most `cuts[i]` of the
      bytes still to come.

      However the stream is cut, the packets delivered and the first error are
      those of reading the bytes fed in one pass, as long as no page is larger
      than the buffer; the buffer then holds exactly the bytes that one pass
      would leave.  An error is the one-pass error in any case, and the bytes
      consumed, discarded pages included, are read like one pass over them.
      The receiver never wedges: every event with bytes to come takes at least one. */
  method Receive(pk: TcpPacket, bb: BipBuf, stream: seq<byte>, cuts: seq<nat>)
    returns (fed: nat, rc: int, ghost out: seq<seq<byte>>, ghost k: nat, ghost over: bool)
    requires pk.Valid() && bb.Valid() && pk.recvData != bb.buffer && bb.capacity >= 2
    requires pk.state == ReceiveLeading && !pk.held && pk.lost == 0 && bb.CommittedSize() == bb.ReservationSize() == 0
    modifies pk`state, pk`leading, pk`held, pk`recvBuf, pk`recvData, pk`recvSize, pk`got, pk`lost, pk.recvData, pk.pool
    modifies bb`aStart, bb`aEnd, bb`rStart, bb`rEnd, bb`contents, bb`committed, bb`dropped, bb.buffer
    ensures bb.Valid() && pk.Valid() && fed <= |stream| && rc <= 0 && pk.got == old(pk.got) + out
    ensures rc < 0 ==> FailsWith(pk.cfg, bb.capacity, 0, START, stream[..fed], rc, out)
    ensures rc == 0 ==> Fed(pk.cfg, bb.capacity, stream[..fed], out, pk.Part(), bb.contents)
    ensures rc == 0 ==> Between(pk, bb, stream, k, fed, out, over)
    ensures rc == 0 && |cuts| >= |stream| && (forall i :: 0 <= i < |cuts| ==> cuts[i] > 0) ==> fed == |stream|
  {
    fed, rc, out, k, over := 0, 0, [], 0, false;
    assert Paused(pk, bb, stream, k, fed, out, over);
    var i := 0;
    while i < |cuts|
      invariant i <= |cuts| && rc == 0 && fed <= |stream| && Between(pk, bb, stream, k, fed, out, over)
      invariant pk.recvData == old(pk.recvData) || fresh(pk.recvData)
      invariant pk.got == old(pk.got) + out
      invariant (forall j :: 0 <= j < |cuts| ==> cuts[j] > 0) ==> fed >= i || fed == |stream|
    {
      var nread, n;
      nread, n, k, out, over := OnRead(pk, bb, stream, k, fed, cuts[i], old(pk.got), out, over);
      fed := fed + nread;
      i := i + 1;
      if n < 0 {
        rc := n;
        return;
      }
    }
    FedBetween(pk, bb, stream, k, fed, out, over);
  }

  // ---- from Post to the packet callback ------------------------------------

  datatype Outgoing = Outgoing(uuid: nat, serial: byte, name: seq<byte>, body: seq<byte>)

  /** `content` is the packet: a leading that says so, the name, the body. */
  ghost predicate Carries(lead: nat, o: Outgoing, content: seq<byte>) {
    exists b :: IsPacketLeading(lead, b, |o.name|, o.serial, o.uuid) && content == b + o.name + o.body
  }

  ghost predicate CarriesAll(lead: nat, packets: seq<Outgoing>, contents: seq<seq<byte>>) {
    |contents| == |packets| && forall i :: 0 <= i < |packets| ==> Carries(lead, packets[i], contents[i])
  }

  /** Packets that Post can encode and the receiver can take: the front fits
      the first page, the name length is not a multiple of 256, and a packet of
      several pages fits the receive buffer. */
  predicate Acceptable(cfg: Config, o: Outgoing) {
    && PAGE_LEADING + cfg.lead + |o.name| <= PAGE_MAX
    && |o.name| % 256 != 0
    && (cfg.lead + |o.name| + |o.body| <= PAGE_DATA || cfg.lead + |o.name| + |o.body| <= cfg.recvCap)
  }

  lemma {:induction false} StreamAppend(contents: seq<seq<byte>>, c: seq<byte>)
    ensures Stream(contents + [c]) == Stream(contents) + Pages(c, true)
    decreases |contents|
  {
    if contents == [] {
      assert contents + [c] == [c] && [c][1..] == [];
    } else {
      assert (contents + [c])[1..] == contents[1..] + [c];
      StreamAppend(contents[1..], c);
    }
  }

  method PostOne(sender: TcpPacket, o: Outgoing) returns (ghost content: seq<byte>)
    requires (sender.cfg.lead == 2 || sender.cfg.lead == 16) && PAGE_LEADING + sender.cfg.lead + |o.name| <= PAGE_MAX
    modifies sender`sent
    ensures sender.sent == old(sender.sent) + Pages(content, true) && Carries(sender.cfg.lead, o, content)
  {
    ghost var b;
    var n;
    n, b := sender.Post(true, o.uuid, o.serial, o.name, o.body);
    content := b + o.name + o.body;
  }

  lemma CarriesOneMore(lead: nat, packets: seq<Outgoing>, contents: seq<seq<byte>>, i: nat, content: seq<byte>)
    requires i < |packets| && CarriesAll(lead, packets[..i], contents) && Carries(lead, packets[i], content)
    ensures CarriesAll(lead, packets[..i + 1], contents + [content])
  {
    forall j | 0 <= j < i + 1 ensures Carries(lead, packets[..i + 1][j], (contents + [content])[j]) {
      assert j < i ==> packets[..i][j] == packets[j];
    }
  }

  /** Posting packets one after the other puts their pages on the wire. */
  method PostAll(sender: TcpPacket, packets: seq<Outgoing>) returns (ghost contents: seq<seq<byte>>)
    requires sender.cfg.lead == 2 || sender.cfg.lead == 16
    requires forall i :: 0 <= i < |packets| ==> PAGE_LEADING + sender.cfg.lead + |packets[i].name| <= PAGE_MAX
    modifies sender`sent
    ensures sender.sent == old(sender.sent) + Stream(contents) && CarriesAll(sender.cfg.lead, packets, contents)
  {
    contents := [];
    var i := 0;
    while i < |packets|
      invariant i <= |packets| && CarriesAll(sender.cfg.lead, packets[..i], contents)
      invariant sender.sent == old(sender.sent) + Stream(contents)
    {
      ghost var content := PostOne(sender, packets[i]);
      Associate(old(sender.sent), Stream(contents), Pages(content, true));
      StreamAppend(contents, content);
      CarriesOneMore(sender.cfg.lead, packets, contents, i, content);
      contents := contents + [content];
      i := i + 1;
    }
    assert packets[..|packets|] == packets;
  }

  lemma AcceptableIsDeliverable(cfg: Config, o: Outgoing, content: seq<byte>)
    requires Acceptable(cfg, o) && Carries(cfg.lead, o, content)
    ensures Deliverable(cfg, content)
  {
    var b :| IsPacketLeading(cfg.lead, b, |o.name|, o.serial, o.uuid) && content == b + o.name + o.body;
    NamedExactlyWhen(cfg, b, o.name, o.body, o.serial, o.uuid);
  }

  /** No prefix of a stream of deliverable packets makes the reader fail. */
  lemma WireIsClean(cfg: Config, cap: nat, contents: seq<seq<byte>>, fed: nat)
    requires cap >= PAGE_MAX && fed <= |Stream(contents)|
    requires forall i :: 0 <= i < |contents| ==> Deliverable(cfg, contents[i])
    ensures ScanAll(cfg, cap, 0, START, Stream(contents)[..fed]).rc == 0
  {
    StreamEnds(cfg, cap, contents);
    var rest := SplitAt(Stream(contents), fed);
    PrefixIsClean(cfg, cap, Stream(contents), contents, Stream(contents)[..fed], rest);
  }

  lemma PrefixIsClean(cfg: Config, cap: nat, stream: seq<byte>, contents: seq<seq<byte>>, a: seq<byte>, b: seq<byte>)
    requires stream == a + b && Ends(cfg, cap, 0, START, stream, contents, START, 0, false)
    ensures ScanAll(cfg, cap, 0, START, a).rc == 0
  {
    ScanInPieces(cfg, cap, 0, START, a, b);
    assert ScanAll(cfg, cap, 0, START, stream).rc == 0;
  }

  /** Reading a whole stream of deliverable packets ends with all of them. */
  lemma StreamEnds(cfg: Config, cap: nat, contents: seq<seq<byte>>)
    requires cap >= PAGE_MAX && forall i :: 0 <= i < |contents| ==> Deliverable(cfg, contents[i])
    ensures Ends(cfg, cap, 0, START, Stream(contents), contents, START, 0, false)
  {
    StreamRoundTrip(cfg, cap, 0, contents);
  }

  /** What a receiver that was fed a whole stream has delivered. */
  lemma AllArrived(cfg: Config, cap: nat, stream: seq<byte>, contents: seq<seq<byte>>, out: seq<seq<byte>>, p: Partial, rest: seq<byte>)
    requires Ends(cfg, cap, 0, START, stream, contents, START, 0, false) && Fed(cfg, cap, stream, out, p, rest)
    ensures out == contents && p == START && rest == []
  {
    assert ScanAll(cfg, cap, 0, START, stream) == Scan(0, contents, START, 0, false, []);
  }

  /** No error however much has been fed, and everything once all has. */
  lemma Verdict(cfg: Config, cap: nat, contents: seq<seq<byte>>, stream: seq<byte>, fed: nat, rc: int,
                out: seq<seq<byte>>, p: Partial, rest: seq<byte>)
    requires cap >= PAGE_MAX && stream == Stream(contents) && fed <= |stream| && rc <= 0
    requires forall i :: 0 <= i < |contents| ==> Deliverable(cfg, contents[i])
    requires if rc < 0 then FailsWith(cfg, cap, 0, START, stream[..fed], rc, out)
             else Fed(cfg, cap, stream[..fed], out, p, rest)
    ensures rc == 0 && (fed == |stream| ==> out == contents && p == START && rest == [])
  {
    WireIsClean(cfg, cap, contents, fed);
    StreamEnds(cfg, cap, contents);
    if rc < 0 {
      CleanIsNoFailure(cfg, cap, stream[..fed], rc, out);
    } else if fed == |stream| {
      assert stream[..fed] == stream;
      AllArrived(cfg, cap, stream, contents, out, p, rest);
    }
  }

  lemma CleanIsNoFailure(cfg: Config, cap: nat, s: seq<byte>, rc: int, out: seq<seq<byte>>)
    requires ScanAll(cfg, cap, 0, START, s).rc == 0 && FailsWith(cfg, cap, 0, START, s, rc, out)
    ensures rc == 0
  {
  }

  lemma AllDeliverable(cfg: Config, packets: seq<Outgoing>, contents: seq<seq<byte>>)
    requires CarriesAll(cfg.lead, packets, contents)
    requires forall i :: 0 <= i < |packets| ==> Acceptable(cfg, packets[i])
    ensures forall i :: 0 <= i < |contents| ==> Deliverable(cfg, contents[i])
  {
    forall i | 0 <= i < |contents| ensures Deliverable(cfg, contents[i]) {
      AcceptableIsDeliverable(cfg, packets[i], contents[i]);
    }
  }

  /** Receiving a whole stream of deliverable packets. */
  method ReceiveAll(receiver: TcpPacket, bb: BipBuf, stream: seq<byte>, cuts: seq<nat>, ghost contents: seq<seq<byte>>)
    returns (fed: nat, rc: int)
    requires receiver.Valid() && bb.Valid() && receiver.recvData != bb.buffer && bb.capacity >= PAGE_MAX
    requires receiver.state == ReceiveLeading && !receiver.held && receiver.got == [] && receiver.lost == 0
    requires bb.CommittedSize() == bb.ReservationSize() == 0
    requires stream == Stream(contents) && forall i :: 0 <= i < |contents| ==> Deliverable(receiver.cfg, contents[i])
    modifies receiver`state, receiver`leading, receiver`held, receiver`recvBuf, receiver`recvData, receiver`recvSize
    modifies receiver`got, receiver`lost, receiver.recvData, receiver.pool
    modifies bb`aStart, bb`aEnd, bb`rStart, bb`rEnd, bb`contents, bb`committed, bb`dropped, bb.buffer
    ensures rc == 0 && fed <= |stream| && bb.Valid() && receiver.Valid()
    ensures fed == |stream| ==> receiver.got == contents && bb.CommittedSize() == 0 && !receiver.held && receiver.lost == 0
    ensures |cuts| >= |stream| && (forall i :: 0 <= i < |cuts| ==> cuts[i] > 0) ==> fed == |stream|
  {
    ghost var out, k, over;
    fed, rc, out, k, over := Receive(receiver, bb, stream, cuts);
    Verdict(receiver.cfg, bb.capacity, contents, stream, fed, rc, out, if rc == 0 then receiver.Part() else START,
            if rc == 0 then bb.contents else []);
  }

  /** The round trip: for every list of acceptable packets and every way of
      cutting the bytes into read events, there is no error, and once all bytes
      have arrived the callback has been given exactly those packets, in order,
      with nothing left in the buffer, nothing under reassembly, and every
      receive buffer back in the pool. */
  method RoundTrip(sender: TcpPacket, receiver: TcpPacket, bb: BipBuf, packets: seq<Outgoing>, cuts: seq<nat>) returns (fed: nat, rc: int)
    requires sender != receiver && sender.sent == []
    requires receiver.Valid() && bb.Valid() && receiver.recvData != bb.buffer && bb.capacity >= PAGE_MAX
    requires receiver.state == ReceiveLeading && !receiver.held && receiver.got == [] && receiver.lost == 0
    requires bb.CommittedSize() == bb.ReservationSize() == 0
    requires sender.cfg.lead == receiver.cfg.lead && (sender.cfg.lead == 2 || sender.cfg.lead == 16)
    requires forall i :: 0 <= i < |packets| ==> Acceptable(receiver.cfg, packets[i])
    modifies sender`sent
    modifies receiver`state, receiver`leading, receiver`held, receiver`recvBuf, receiver`recvData, receiver`recvSize, receiver`got, receiver`lost
    modifies receiver.recvData, receiver.pool
    modifies bb`aStart, bb`aEnd, bb`rStart, bb`rEnd, bb`contents, bb`committed, bb`dropped, bb.buffer
    ensures rc == 0 && fed <= |sender.sent| && bb.Valid()
    ensures fed == |sender.sent| ==> CarriesAll(receiver.cfg.lead, packets, receiver.got)
    ensures fed == |sender.sent| ==> bb.CommittedSize() == 0 && !receiver.held
    ensures fed == |sender.sent| ==> receiver.pool.InUse() == old(receiver.pool.InUse())
    ensures |cuts| >= |sender.sent| && (forall i :: 0 <= i < |cuts| ==> cuts[i] > 0) ==> fed == |sender.sent|
  {
    ghost var contents := PostAll(sender, packets);
    var stream := sender.sent;
    assert stream == Stream(contents);
    AllDeliverable(receiver.cfg, packets, contents);
    fed, rc := ReceiveAll(receiver, bb, stream, cuts, contents);
  }
}
