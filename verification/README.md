# Verified model of the framing, locking and account cores

Four cores of the code base, each modelled in Dafny and proved over all inputs,
all interleavings or all runs.

1. **Packet framing over the bip buffer.** `CTcpInnerPacket` and
   `CTcpOuterPacket` cut packets into pages with a 2-byte header and reassemble
   them with a resumable reader on top of `bip_buf`. The two classes differ
   only in the packet leading (16 or 2 bytes), so one Dafny class takes its size
   as a parameter. `FramePage.ScanAll` is an independent reader of a whole
   stream; the incremental reader is proved to agree with it however the stream
   is cut, and `Connection.RoundTrip` goes from `Post` through the buffer to the
   packet callback.
   Modules `Bytes`, `PowerOfTwo`, `BipBuf`, `StrStr`, `FramePage`, `Wire`,
   `TcpPacket`, `Connection`, `LostBuffer`,
   `Delivery`.
2. **Condition variable and read/write lock** of pthreads-win32, as state
   machines whose steps are the atomic actions of any number of threads.
   Modules `Counting`, `CondVar`, `RwLock`.
3. **MCS lock, normal mutex and barrier**, in the same style.
   Modules `McsLock`, `Mutex`, `Barrier`.
4. **Account pool, memo maps and conflict pairing**: `CObjectPool`,
   `CAccountStateList` and `CSimpleAccountManager` as classes over arrays and
   maps, proved against a value-level description whose invariant every
   operation keeps.
   Modules `ObjectPool`, `Accounts`, `AccountStateList`, `AccountManager`.

## How to read it

A protocol is a predicate `Step` over a shared state and one program counter per
thread. A run is a sequence of states that starts in `Init` and in which each
state follows from the one before by a step of some thread; theorems named
`...(run, i)` hold in every state of every run. Read-modify-write operations the
source does not make atomic are two steps (`nWaitersBlocked++`, the barrier's
decrement). Thread counts enter the invariants through `Counting.Sum`.

An object that the source updates in place is a class. Its methods state the
new state as a function of the old one, or against the reference reader, and its
ghost fields record history: all bytes committed to a buffer, the packets
delivered, the receive buffers lost.

Some predicates (`Reads`, `Ends`, `FailsWith`, `Gives`, `Announces`, `Starved`,
`Between`, `Fed`, `Sent`, `ArePages`, `Loses`, `ReadsToHeld`, `RoundsTo`,
`Listed`, `Sound`) quantify over a value equal to the one they speak of. That
says the same thing and keeps recursive definitions from being unfolded where
the predicate is only passed along. `Bytes.Piece(s, i, j, c)` says `c == s[i..j]`
position by position, for the same reason.

## Results about the code as it stands

- `fast_strstr` seeds its running difference with the first matching character
  and never subtracts the needle's first one (src/base/bip_buf.c:52), contrary
  to its comment. `StrStr.ShippedMisses` exhibits "ab" in "aab", which is not
  found, and `StrStr.ShippedInvents` [1, 2] in [1, 5, 1, 1], which is "found" at
  2. `StrStr.NeedleIsSafeExactlyWhen` says which needles are searched for
  correctly in every haystack: those of one character and those that start with
  a zero. `StrStr.ShippedIsRightExactlyWhen` gives the exact condition on needle
  and haystack together, and `StrStr.SeededStrstr` proves the search correct on
  all inputs once the seed is corrected.
- `next_power_of_two` wraps to 0 for 0 and above 2^31
  (`PowerOfTwo.NextPowerOfTwoIsLeast`), so growing a buffer makes enough room if
  and only if capacity plus size is at most 2^31
  (`PowerOfTwo.GrowthSufficesExactlyWhen`).
- A first page that arrives while a packet is under reassembly overwrites the
  receive buffer (src/tcp/TcpInnerPacket.cpp:370). `LostBuffer.TwoFirstPages`
  exhibits a loss; `LostBuffer.LostExactlyWhen` states, for every byte stream,
  that a buffer is lost if and only if a complete first page follows bytes that
  leave a packet under reassembly; by `Wire.StreamRoundTrip` streams written by
  `Post` lose none.
- The pages of a packet need not follow each other: a page that is first and
  last is delivered while another packet is under reassembly and leaves that
  packet alone (`Delivery.PagesMayStandApart`). What every delivered string is
  made of is `Delivery.DeliveredArePackets`.
- A packet whose type name has a length divisible by 256 is sent but rejected
  by its receiver, because the length field has 8 bits
  (`Wire.NamedExactlyWhen`).
- `Kick` and `Release` keep the pairing of accounts if and only if the account
  is not in conflict (`Accounts.KickKeepsInvExactlyWhen`).
- A repeated login on the same connection with another inner uuid leaves a wrong
  memo entry if and only if the memo holds the account under its old uuid
  (`AccountManager.AccountManager.Register`, `Accounts.RebindKeepsInvExactlyWhen`,
  with the input `AccountManager.StaleUuid`).
- `ptw32_mcs_lock_release` may return while the successor has yet to set
  `nextFlag` of the node just released (`McsLock.ReleasedTooEarly`). Publishing a
  released node again is safe if and only if nobody is about to do that
  (`McsLock.ReuseKeepsInvExactlyWhen`).
- The branch of `pthread_rwlock_trywrlock` that returns EBUSY without unlocking
  either mutex, and the branch "account conflict with self" of `Register`, are
  unreachable (`RwLock.UnlockKnowsItsCaller`,
  `AccountManager.AccountManager.RegisterConflict`).

## Model

| member | source | states |
|---|---|---|
| `Connection.RoundTrip` | src/tcp/TcpInnerPacket.cpp:113-452 | for every list of acceptable packets and every way of cutting the bytes into read events there is no error, and once all bytes have arrived the callback was given exactly those leading+name+body strings in order, the bip buffer is empty, nothing is under reassembly and every receive buffer is back in the pool; enough nonempty read events deliver everything |
| `Connection.Receive` | src/tcp/uv/UvIsolatedConn.cpp:51-118 | for any byte stream, valid or not: the packets delivered and the first error are those of one pass over the bytes fed (as long as no page exceeds the buffer, and for the consumed bytes in any case), the leftover is what one pass leaves, and every event with bytes to come takes at least one, so the receiver never wedges |
| `Connection.OnRead` | src/tcp/uv/UvIsolatedConn.cpp:76-118 | one read event keeps the relation between stream, buffer, parser state and packets delivered |
| `Connection.Fill` | src/tcp/uv/UvIsolatedConn.cpp:51-57 | reserve, socket read and commit append a nonempty prefix of what is available whenever there is any and the buffer is not full |
| `Connection.PostAll` | src/tcp/TcpInnerPacket.cpp:173-245 | consecutive posts put the concatenated pages of the packets on the wire, and each packet's content carries its fields |
| `Connection.WireIsClean` | src/tcp/TcpInnerPacket.cpp:252-452 | no prefix of a stream of deliverable packets makes the reader fail |
| `Connection.AcceptableIsDeliverable` | src/tcp/TcpInnerPacket.cpp:359-360 | a packet with a name length that is not a multiple of 256, fitting one page or the receive buffer, is one its receiver accepts |
| `Wire.StreamRoundTrip` | src/tcp/TcpInnerPacket.cpp:173-452 | reading the pages of any list of deliverable packets gives back that list, no error, nothing left, no buffer lost |
| `Wire.ScanPacket` | src/tcp/TcpInnerPacket.cpp:351-452 | the pages of a packet deliver it if and only if it is deliverable; otherwise they deliver nothing and fail |
| `Wire.ScanLaterPages` | src/tcp/TcpInnerPacket.cpp:388-449 | the pages after the first complete the packet under reassembly exactly when it fits the receive buffer and has a plausible leading |
| `Wire.ScanPage` | src/tcp/TcpInnerPacket.cpp:260-319 | a complete page is consumed whole and reading continues right behind it, or its error is the error of the stream |
| `Wire.ReturnCodes` | src/tcp/TcpInnerPacket.cpp:351-452 | for every complete page, in each situation, the code -1 to -6 that is due, in terms of the page and what has been received so far |
| `Wire.GoodPages` | src/tcp/TcpInnerPacket.cpp:351-452 | a page in order: a single one is delivered and leaves the packet under reassembly alone, a first one starts a packet, a middle one extends it, a last one delivers the whole |
| `Wire.EmptyPage` | src/tcp/TcpInnerPacket.cpp:269-273 | an empty page is error -99 and nothing is consumed |
| `Wire.PageLayout` | src/tcp/TcpInnerPacket.cpp:198-224 | page i of a packet stands at 8192 i; all but the last are full; bit 0 is set in the first only, bit 1 in the last only; sizes and data are the packet's, in order |
| `Wire.OversizedPageIsDropped` | src/tcp/TcpInnerPacket.cpp:275-335 | a page larger than the buffer is discarded, all 2 + size bytes and nothing else; reading resumes at the next page |
| `Wire.NamedExactlyWhen` | src/tcp/TcpOuterPacket.cpp:113-131 | an encoded packet passes the receiver's test of its leading if and only if its name length is not a multiple of 256 |
| `Wire.FieldsRoundTrip` | src/tcp/TcpInnerPacket.cpp:113-132 | the serial number and the uuid are read back as posted, and the name and the body if and only if the name is shorter than 256 bytes |
| `Wire.LittleEndianRoundTrip` | src/tcp/tcp_packet_def.h:64-71 | a number survives its little-endian encoding |
| `Wire.LittleEndianBytes` | src/tcp/tcp_packet_def.h:64-71 | byte i of a number is its i-th least significant one |
| `FramePage.ScanInPieces` | src/tcp/TcpInnerPacket.cpp:252-344 | chunk independence: for any bytes and any cut, reading in two pieces with the tail carried over gives the same packets, the same final state and the same first error as one pass |
| `FramePage.SkipInPieces` | src/tcp/TcpInnerPacket.cpp:321-335 | discarding may be interrupted anywhere: exactly the missing bytes are discarded later |
| `FramePage.OversizedInPieces` | src/tcp/TcpInnerPacket.cpp:275-335 | wherever an oversized page is cut, 2 + size bytes go in all |
| `FramePage.HeaderRoundTrip` | src/tcp/tcp_packet_def.h:51-56 | flags and 14-bit size survive the two header bytes |
| `FramePage.HeaderBits` | src/tcp/tcp_packet_def.h:51-56 | the start flag is bit 0 of the first byte, the end flag bit 1, and the size the fourteen bits above them |
| `FramePage.HeaderIsUnique` | src/tcp/tcp_packet_def.h:51-56 | every pair of bytes is the header of exactly what it decodes to |
| `TcpPacket.TcpPacket.ConsumePacket` | src/tcp/TcpInnerPacket.cpp:351-452 | one page: return code, packets delivered and packet under reassembly follow the reference, including every overflow and its code, and the buffers in use are the one held plus those lost to a first page that came too early |
| `TcpPacket.TcpPacket.ReceiveFirst` | src/tcp/TcpInnerPacket.cpp:366-384 | a first page of several: a new buffer holds its data, or it is freed and the code is -2; a buffer held before is lost |
| `TcpPacket.TcpPacket.ReceiveNext` | src/tcp/TcpInnerPacket.cpp:388-442 | a later page: the data go behind what is there; a complete packet is delivered, an implausible or too large one is an error with its code, and the buffer is freed in both cases |
| `TcpPacket.TcpPacket.LeadingStep` | src/tcp/TcpInnerPacket.cpp:260-296 | an empty page is error -99; an oversized page consumes the rest of the buffer and leaves exactly the bytes to discard, without underflow of the 14-bit counter; otherwise the saved header is that of the first two unconsumed bytes |
| `TcpPacket.TcpPacket.BodyStep` | src/tcp/TcpInnerPacket.cpp:298-319 | a complete page moves the reader behind it, or fails as one pass over the buffer would |
| `TcpPacket.TcpPacket.SkipStep` | src/tcp/TcpInnerPacket.cpp:321-335 | discards what is there of the oversized page and nothing behind it, and stops the call |
| `TcpPacket.TcpPacket.PageLoop` | src/tcp/TcpInnerPacket.cpp:252-344 | the loop terminates having consumed all complete pages, with the packets and state of one pass over the bytes consumed |
| `TcpPacket.TcpPacket.LeadingTurn` | src/tcp/TcpInnerPacket.cpp:260-296 | one turn in state LEADING goes on to the body at the same position, or halts with what one pass over the bytes before the position gives |
| `TcpPacket.TcpPacket.BodyTurn` | src/tcp/TcpInnerPacket.cpp:298-319 | one turn in state BODY moves behind the page, or halts hungry or with the error of one pass |
| `TcpPacket.TcpPacket.ConsumeFramePage` | src/tcp/TcpOuterPacket.cpp:253-345 | in any parser state: agreement with one pass, the saved header equals the first two unconsumed bytes in state BODY, and a buffer of capacity at least 2 is never left full |
| `TcpPacket.TcpPacket.DecodeStream` | src/tcp/TcpInnerPacket.cpp:139-166 | the consumed bytes, and only they, leave the bip buffer; an error leaves it as it was; afterwards the next reservation succeeds |
| `TcpPacket.TcpPacket.EncodeStream` | src/tcp/TcpInnerPacket.cpp:113-132 | the send buffer starts with a leading that states name length modulo 256, serial number and uuid, then the name; padding is arbitrary |
| `TcpPacket.TcpPacket.SendPage` | src/tcp/TcpInnerPacket.cpp:205-224 | one page on the wire: bit 0 of its first byte is the start flag, bit 1 says that it is the last page, the other fourteen bits are its size; then the next bytes of the packet |
| `TcpPacket.TcpPacket.SendPages` | src/tcp/TcpInnerPacket.cpp:198-224 | the page loop sends exactly the pages of the packet and counts their bytes |
| `TcpPacket.TcpPacket.Post` | src/tcp/TcpInnerPacket.cpp:173-245 | nothing goes out unless the connection is ready; otherwise the pages of leading+name+body do, and the number of bytes is returned |
| `TcpPacket.PageReads` | src/tcp/TcpInnerPacket.cpp:298-319 | an accepted page behind bytes already read extends what one pass reads by that page's packets |
| `TcpPacket.PageFails` | src/tcp/TcpInnerPacket.cpp:298-319 | a rejected page behind bytes already read makes one pass fail with that code, after the same packets |
| `TcpPacket.BufferPool.Alloc` | src/tcp/TcpInnerPacket.cpp:18-42 | takes the head of the free list, a buffer nobody holds; only an empty list is refilled, by exactly the given number; whoever holds a buffer keeps it |
| `TcpPacket.BufferPool.Free` | src/tcp/TcpInnerPacket.cpp:44-48 | a held buffer becomes the head of the free list |
| `LostBuffer.LostExactlyWhen` | src/tcp/TcpInnerPacket.cpp:366-384 | for all bytes, valid or not, and every state of the reader: a receive buffer is lost if and only if some complete, fitting first page of several stands behind a prefix that is read completely and leaves a packet under reassembly |
| `LostBuffer.LostIsOverwritten` | src/tcp/TcpInnerPacket.cpp:252-384 | a lost buffer was overwritten at a position of the stream, which is returned |
| `LostBuffer.OverwrittenIsLost` | src/tcp/TcpInnerPacket.cpp:366-370 | whatever follows, the overwritten buffer stays lost |
| `LostBuffer.TwoFirstPages` | src/tcp/TcpInnerPacket.cpp:370 | two first pages in a row lose the buffer of the first |
| `Delivery.DeliveredArePackets` | src/tcp/TcpInnerPacket.cpp:252-452 | for all bytes: every string given to the callback is the joined data of complete pages of the stream, from a first to a last one with no other first or last page of several between them, and has a nonempty name that fits |
| `Delivery.DeliveredFrom` | src/tcp/TcpInnerPacket.cpp:252-452 | the same for reading on behind any pages |
| `Delivery.PagesMayStandApart` | src/tcp/TcpInnerPacket.cpp:355-368 | a stream in which a whole packet is delivered between the two pages of another |
| `BipBuf.BipBuf.Create` | src/base/bip_buf.c:110-121 | an empty queue of the given capacity |
| `BipBuf.BipBuf.ContiguousBlock` | src/base/bip_buf.c:194-197 | the contiguous block is the committed bytes minus the decommitted prefix |
| `BipBuf.BipBuf.Slide` | src/base/bip_buf.c:237-243 | slide safety: whenever the room behind the block is too small, the block starts above the capacity, so the copy cannot overlap; the contents are unchanged |
| `BipBuf.BipBuf.Reserve` | src/base/bip_buf.c:213-249 | succeeds exactly without an open reservation on a buffer that is not full, reserves all free space, which lies within the buffer, and leaves the contents unchanged |
| `BipBuf.BipBuf.Grow` | src/base/bip_buf.c:272-290 | the block moves to a larger buffer unchanged; the capacity becomes a power of two that is large enough |
| `BipBuf.BipBuf.ForceReserve` | src/base/bip_buf.c:254-311 | reserves exactly the requested size, growing only if needed, and is refused exactly for size 0, an open reservation or a full buffer; contents unchanged |
| `BipBuf.BipBuf.Write` | src/base/bip_buf.c:195-199 | writing into the reservation does not touch the contiguous block |
| `BipBuf.BipBuf.Commit` | src/base/bip_buf.c:316-331 | the first min(size, reservation) reserved bytes join the end of the block and of the history |
| `BipBuf.BipBuf.Decommit` | src/base/bip_buf.c:336-343 | the first min(size, block) bytes leave the block; it stays all committed bytes minus the decommitted prefix |
| `BipBuf.BipBuf.Reset` | src/base/bip_buf.c:134-139 | everything is dropped |
| `PowerOfTwo.NextPowerOfTwoIsLeast` | src/base/bip_buf.c:11-20 | the least power of two not below n for 1 to 2^31, and 0 for every other 32-bit n |
| `PowerOfTwo.CascadeFills` | src/base/bip_buf.c:13-18 | the five shift-and-or stages set all bits below the highest one |
| `PowerOfTwo.SmearDoubles` | src/base/bip_buf.c:14-18 | one stage doubles the run of ones at the top |
| `PowerOfTwo.GrowthSufficesExactlyWhen` | src/base/bip_buf.c:275-283 | the rounded size makes room for what was asked if and only if that is at most 2^31 |
| `StrStr.FirstWindow` | src/base/bip_buf.c:38-66 | the first loop computes the difference of window and needle sums modulo 2^32, offset by the seed, and whether they are identical |
| `StrStr.Roll` | src/base/bip_buf.c:68-84 | the rolling loop keeps the difference of sums and returns the first window where it is 0 and all but the last character agree |
| `StrStr.Search` | src/base/bip_buf.c:26-85 | the result for every haystack, needle and seed |
| `StrStr.FastStrstr` | src/base/bip_buf.c:26-85 | the result of the shipped code, whose difference is off by the needle's first character |
| `StrStr.SeededStrstr` | src/base/bip_buf.c:38-84 | with the seed corrected: the leftmost occurrence, or none, on all inputs |
| `StrStr.HitDecidesLast` | src/base/bip_buf.c:72-83 | equal sums up to an offset and equal characters but the last force the last character to differ by exactly the offset |
| `StrStr.HitIsOccurrence` | src/base/bip_buf.c:72-83 | without offset the loop's test is an occurrence, in both directions |
| `StrStr.ReturnsLeftmost` | src/base/bip_buf.c:38-84 | whatever the search returns with no offset is the leftmost occurrence |
| `StrStr.ShippedIsRightExactlyWhen` | src/base/bip_buf.c:52 | the shipped search is right if and only if the needle is one character, starts with a zero character, stands at the first match, cannot fit there, or neither it nor its lowered variant occurs later |
| `StrStr.ShippedMisses` | src/base/bip_buf.c:52 | "ab" in "aab" is not found |
| `StrStr.ShippedInvents` | src/base/bip_buf.c:52 | [1, 2] in [1, 5, 1, 1] is answered 2, where it is not |
| `StrStr.NothingRightBehindFirst` | src/base/bip_buf.c:72-83 | for needles of several characters that do not start with zero: an answer behind the first match is never an occurrence, and no occurrence there is answered |
| `StrStr.UnsafeNeedle` | src/base/bip_buf.c:46-83 | every such needle has a haystack in which any answer is wrong |
| `StrStr.NeedleIsSafeExactlyWhen` | src/base/bip_buf.c:26-85 | the search is right in every haystack if and only if the needle is one character or starts with a zero character |
| `CondVar.StepKeepsInv` | thirdparty/pthread-win32-master/pthread_cond_wait.c:295-345 | every atomic action of waits, timeouts, signals and broadcasts keeps the invariant |
| `CondVar.RunKeepsInv` | thirdparty/pthread-win32-master/pthread_cond_signal.c:92-151 | the invariant holds in every state of every interleaving |
| `CondVar.CountersAndGate` | thirdparty/pthread-win32-master/pthread_cond_wait.c:295-345 | the gate token is in exactly one place; blocked - gone + toUnblock equals the registered threads (up to the gone waiters its lock holder is settling); gone is 0 while a round is open; permits suffice for the round |
| `CondVar.NoLostIncrement` | thirdparty/pthread-win32-master/pthread_cond_wait.c:389-399 | the unlocked increment of nWaitersBlocked never overwrites another update |
| `CondVar.BroadcastCovers` | thirdparty/pthread-win32-master/pthread_cond_signal.c:97-151 | a broadcast leaving its critical section, on any branch, has put every registered thread in the round, with permits for all |
| `CondVar.CoveredStep` | thirdparty/pthread-win32-master/pthread_cond_wait.c:301-345 | while such a round is open, no step registers a thread or lets the round drift from the registered threads |
| `CondVar.CoveredWhileOpen` | thirdparty/pthread-win32-master/pthread_cond_wait.c:301-345 | the same over any stretch of a run |
| `CondVar.SleeperHasPermit` | thirdparty/pthread-win32-master/pthread_cond_wait.c:416-452 | a sleeping waiter of the round has a permit posted or about to be |
| `CondVar.BroadcastLosesNobody` | thirdparty/pthread-win32-master/pthread_cond_signal.c:92-151 | from a broadcast until its round closes: nobody new registers, the round counts exactly those still there, permits cover them, no sleeper is forgotten |
| `CondVar.SignalWakesOne` | thirdparty/pthread-win32-master/pthread_cond_signal.c:97-147 | a signal does nothing exactly when every registered thread is already to be unblocked; otherwise it puts exactly one more in the round and decides on exactly one permit, opening a round first if none is open |
| `CondVar.SignalLosesNobody` | thirdparty/pthread-win32-master/pthread_cond_signal.c:92-151 | from a signal until its round closes nobody registers and a permit is posted, pending or taken; when it closes, as many registered threads have left as were to be unblocked, the signalled one included |
| `CondVar.PermitsConserved` | thirdparty/pthread-win32-master/pthread_cond_wait.c:295-345 | every step makes one permit per thread it puts in the round, uses up the one of a woken thread that cleans up, and changes their number in no other way |
| `CondVar.GoneIsBounded` | thirdparty/pthread-win32-master/pthread_cond_wait.c:310-336 | nWaitersGone never exceeds INT_MAX / 2 and reaches it only while some thread settles it |
| `CondVar.CanStart` | thirdparty/pthread-win32-master/pthread_cond_wait.c:388-423 | an idle thread can wait when the gate is open and signal or broadcast when the lock is free; a sleeping one can time out |
| `CondVar.CanAct` | thirdparty/pthread-win32-master/pthread_cond_signal.c:92-151 | a thread that waits for no lock, gate or permit can act |
| `CondVar.NeverStuck` | thirdparty/pthread-win32-master/pthread_cond_wait.c:295-345 | while a round is open some thread can act, and none has to time out for it |
| `RwLock.StepKeepsInv` | thirdparty/pthread-win32-master/pthread_rwlock_wrlock.c:81-137 | every atomic action of readers, writers, try, timed and cancelled locks keeps the invariant |
| `RwLock.RunKeepsInv` | thirdparty/pthread-win32-master/pthread_rwlock_unlock.c:73-97 | the invariant holds in every state of every interleaving |
| `RwLock.ReadersCounted` | thirdparty/pthread-win32-master/pthread_rwlock_rdlock.c:81-106 | active readers are shared - completed, or -completed while a writer waits, also across renormalisation at INT_MAX |
| `RwLock.WriterAlone` | thirdparty/pthread-win32-master/pthread_rwlock_wrlock.c:93-137 | a writer inside excludes all readers and all other writers |
| `RwLock.UnlockKnowsItsCaller` | thirdparty/pthread-win32-master/pthread_rwlock_unlock.c:73-97 | unlock takes the branch of its caller's kind; trywrlock never sees a writer once it holds both mutexes |
| `RwLock.WaiterRestoresReaders` | thirdparty/pthread-win32-master/ptw32_rwlock_cancelwrwait.c:46-55 | a writer that times out or is cancelled restores the exact reader count; one that enters does so with none |
| `RwLock.NoLostWakeup` | thirdparty/pthread-win32-master/pthread_rwlock_timedwrlock.c:82-143 | a sleeping writer still has readers to wait for, or has been signalled, or a reader is about to signal it |
| `RwLock.WriterOutcome` | thirdparty/pthread-win32-master/pthread_rwlock_trywrlock.c:81-126 | whenever a writer looks it gets in exactly when no reader is inside; otherwise a blocking call sleeps, a try fails and leaves the reader count, a timed-out wait gives up |
| `RwLock.SignalsExactlyWhenLast` | thirdparty/pthread-win32-master/pthread_rwlock_unlock.c:78-88 | a leaving reader signals exactly when a writer waits and no other reader is inside |
| `RwLock.CanAct` | thirdparty/pthread-win32-master/pthread_rwlock_rdlock.c:81-106 | every thread that waits for no mutex can act; an idle one can begin to read or to write |
| `RwLock.CanChoose` | thirdparty/pthread-win32-master/pthread_rwlock_timedwrlock.c:82-143 | a writer may try, or give up before it holds both mutexes; a sleeping one may time out |
| `RwLock.NeverStuck` | thirdparty/pthread-win32-master/pthread_rwlock_unlock.c:73-97 | while a writer sleeps unsignalled, a reader inside or on its way out can act |
| `Mutex.StepKeepsInv` | thirdparty/pthread-win32-master/pthread_mutex_timedlock.c:143-159 | every atomic action of lock, timedlock, trylock and unlock keeps the invariant |
| `Mutex.RunKeepsInv` | thirdparty/pthread-win32-master/pthread_mutex_trylock.c:74-100 | the invariant holds in every state of every interleaving |
| `Mutex.HeldExactlyWhenNonZero` | thirdparty/pthread-win32-master/pthread_mutex_lock.c:83-100 | lock_idx is nonzero if and only if a thread holds the mutex, and never do two |
| `Mutex.NoLostWakeup` | thirdparty/pthread-win32-master/pthread_mutex_unlock.c:70-93 | while a thread sleeps: lock_idx is -1, or the event is set, or some thread is about to set it or to exchange -1; so somebody can act |
| `Mutex.TrySucceedsExactlyWhenFree` | thirdparty/pthread-win32-master/pthread_mutex_trylock.c:74-100 | a try gets the mutex exactly when nobody holds it and otherwise changes nothing |
| `Mutex.LockSucceedsExactlyWhenFree` | thirdparty/pthread-win32-master/pthread_mutex_lock.c:83-100 | each exchange gets the mutex exactly when nobody holds it; a first failure leads to the second exchange, a later one to sleep |
| `Mutex.UnlockOutcome` | thirdparty/pthread-win32-master/pthread_mutex_unlock.c:70-93 | unlock frees the mutex and sets the event exactly when it was marked contended; an event wakes one sleeper |
| `Mutex.UncontendedRoundTrip` | thirdparty/pthread-win32-master/pthread_mutex_unlock.c:70-93 | without contention lock or try, then unlock, leave everything as it was |
| `Mutex.NeverStuck` | thirdparty/pthread-win32-master/pthread_mutex_timedlock.c:143-159 | while a thread sleeps, some thread can act without anybody arriving or timing out |
| `Mutex.CanAct` | thirdparty/pthread-win32-master/pthread_mutex_lock.c:83-100 | only a sleeper without an event has to wait |
| `Mutex.CanGiveUp` | thirdparty/pthread-win32-master/pthread_mutex_timedlock.c:143-159 | a sleeper may time out, which leaves the mutex as it was |
| `McsLock.StepKeepsInv` | thirdparty/pthread-win32-master/ptw32_MCS_lock.c:107-283 | every atomic action keeps the invariant, including acquisitions, failed attempts and transfers with a released node that nobody announces itself to |
| `McsLock.AgentKeepsInv` | thirdparty/pthread-win32-master/ptw32_MCS_lock.c:107-283 | the steps of agents in the queue, flag set and flag wait included, keep it |
| `McsLock.RunKeepsInv` | thirdparty/pthread-win32-master/ptw32_MCS_lock.c:107-283 | the invariant holds in every state of every interleaving, with new nodes and with nodes that serve again |
| `McsLock.OwnershipInOrder` | thirdparty/pthread-win32-master/ptw32_MCS_lock.c:162-225 | at most one agent owns the lock; all before it in the order of the tail exchanges are done, all after it wait |
| `McsLock.QueueIsFifo` | thirdparty/pthread-win32-master/ptw32_MCS_lock.c:162-225 | arrivals go to the end, only the head leaves, only the head changes its node |
| `McsLock.RereadFindsSuccessor` | thirdparty/pthread-win32-master/ptw32_MCS_lock.c:215-219 | the second read of next is the successor's node, never null |
| `McsLock.TransferReplacesHead` | thirdparty/pthread-win32-master/ptw32_MCS_lock.c:260-283 | node transfer replaces the head's node and nothing else in the queue |
| `McsLock.CanAct` | thirdparty/pthread-win32-master/ptw32_MCS_lock.c:107-283 | every agent not waiting for another one has a next step |
| `McsLock.NeverStuck` | thirdparty/pthread-win32-master/ptw32_MCS_lock.c:191-224 | while anybody is queued, the head or the agent right behind it can act |
| `McsLock.ArrivalOutcome` | thirdparty/pthread-win32-master/ptw32_MCS_lock.c:163-183 | an acquisition gets the lock at once exactly when nobody is in the queue; otherwise it stands behind the last agent |
| `McsLock.TryFailsExactlyWhenTaken` | thirdparty/pthread-win32-master/ptw32_MCS_lock.c:234-245 | a try can fail exactly while somebody is in the queue, and then changes nothing there |
| `McsLock.CanArrive` | thirdparty/pthread-win32-master/ptw32_MCS_lock.c:163-183 | an acquisition can always be made with a usable node |
| `McsLock.CanTransfer` | thirdparty/pthread-win32-master/ptw32_MCS_lock.c:262-283 | the owner can begin to hand its place to any usable node |
| `McsLock.ReuseKeepsInvExactlyWhen` | thirdparty/pthread-win32-master/ptw32_MCS_lock.c:163-183 | publishing a released node again keeps the invariant if and only if no agent is about to link to it or to flag it |
| `McsLock.OnlyAnnouncersWrite` | thirdparty/pthread-win32-master/ptw32_MCS_lock.c:107-283 | a node that nobody in the queue has or prepares is written to only by an agent that announces itself to it |
| `McsLock.LateFlag` | thirdparty/pthread-win32-master/ptw32_MCS_lock.c:178-182 | if it is published too early, the late agent raises the flag of a node that has no successor |
| `McsLock.ReleasedTooEarly` | thirdparty/pthread-win32-master/ptw32_MCS_lock.c:197-225 | a run in which a releaser is done while its successor has yet to flag the released node |
| `Barrier.StepKeepsInv` | thirdparty/pthread-win32-master/pthread_barrier_wait.c:59-108 | every atomic action keeps the invariant |
| `Barrier.RunKeepsInv` | thirdparty/pthread-win32-master/pthread_barrier_wait.c:59-108 | the invariant holds in every state of every interleaving, over any number of rounds |
| `Barrier.RoundCompletes` | thirdparty/pthread-win32-master/pthread_barrier_wait.c:95-107 | the thread that restores the height completes a round: n different threads in, the same out, one serial thread |
| `Barrier.RoundsAreComplete` | thirdparty/pthread-win32-master/pthread_barrier_wait.c:59-108 | every finished round of every run is complete, with exactly one PTHREAD_BARRIER_SERIAL_THREAD |
| `Barrier.RoundsDoNotOverlap` | thirdparty/pthread-win32-master/pthread_barrier_wait.c:62-108 | nobody leaves before all n have arrived, nobody is counted in before all n of the previous round have left, and the plain decrement loses no update |
| `Barrier.ResetBetweenRounds` | thirdparty/pthread-win32-master/pthread_barrier_wait.c:62-108 | between rounds the semaphore is 0, the height full, nobody in flight |
| `Barrier.NeverStuck` | thirdparty/pthread-win32-master/pthread_barrier_wait.c:59-108 | while the lock is taken, so all the while a round drains, a thread inside can act without anybody arriving |
| `Barrier.CanAct` | thirdparty/pthread-win32-master/pthread_barrier_wait.c:59-108 | only an empty semaphore makes a thread inside wait |
| `Barrier.CanArrive` | thirdparty/pthread-win32-master/pthread_barrier_wait.c:59 | a thread can arrive whenever the lock is free |
| `ObjectPool.ConvertIdIsInvolution` | src/base/ObjectPool.hpp:40-42 | ConvertId undoes itself on all 32-bit values, wrap-around included |
| `ObjectPool.IdsFillTheRange` | src/base/ObjectPool.hpp:40-42 | the ids are exactly the numbers above the base up to base plus size, counting down as slots count up |
| `ObjectPool.ListsExactly` | src/base/ObjectPool.hpp:56-81 | the list of unused ids has no duplicates and lists a slot if and only if it is unused |
| `ObjectPool.TakeKeepsList` | src/base/ObjectPool.hpp:72-99 | pop, and overwriting an entry with the tail, keep that |
| `ObjectPool.PushKeepsList` | src/base/ObjectPool.hpp:105-126 | pushing a released slot keeps that and never overruns the array |
| `ObjectPool.UsedLeavesRoom` | src/base/ObjectPool.hpp:112-120 | while a slot is in use the list is not full |
| `ObjectPool.Pool.constructor` | src/base/ObjectPool.hpp:56-70 | all slots unused and listed |
| `ObjectPool.Pool.GetObjectNum` | src/base/ObjectPool.hpp:152-154 | the number of slots in use |
| `ObjectPool.Pool.SafeAlloc` | src/base/ObjectPool.hpp:72-81 | the slot listed last becomes used and nothing else changes; 0 exactly when none is listed, and then all slots are used |
| `ObjectPool.Pool.TakeAt` | src/base/ObjectPool.hpp:90-94 | the slot listed at an index becomes used and the list stays exact |
| `ObjectPool.Pool.SafeAllocId` | src/base/ObjectPool.hpp:83-99 | takes the slot of the given id, or returns 0 exactly when it is in use |
| `ObjectPool.Pool.Release` | src/base/ObjectPool.hpp:105-126 | the slot becomes unused and is listed last, so that it is the next to be given out; nothing else changes |
| `Accounts.EveryRun` | src/lobby/SimpleAccountManager.cpp:39-182 | in every state of every run: at most two live accounts share a user id, two such are paired symmetrically on different connections, memo entries are right, the online counter is the count |
| `Accounts.RunIsSound` | src/lobby/SimpleAccountManager.cpp:39-182 | the invariant holds in every state of every run |
| `Accounts.StepKeepsInv` | src/lobby/SimpleAccountManager.cpp:39-182 | every operation keeps the invariant |
| `Accounts.AtMostTwo` | src/lobby/SimpleAccountManager.cpp:71-111 | among three live accounts of one user two are the same |
| `Accounts.RegisterFreshKeepsInv` | src/lobby/SimpleAccountManager.cpp:112-140 | a first login keeps the invariant |
| `Accounts.RegisterConflictKeepsInv` | src/lobby/SimpleAccountManager.cpp:72-140 | a second login on another connection keeps it and makes a pair |
| `Accounts.UnregisterKeepsInv` | src/lobby/SimpleAccountManager.cpp:146-165 | removing either side of a pair, or an unpaired account, keeps it; the partner is unpaired |
| `Accounts.KickKeepsInvExactlyWhen` | src/lobby/AccountStateList.cpp:225-243 | releasing without unpairing keeps it if and only if the account is not in conflict |
| `Accounts.TouchKeepsInv` | src/lobby/AccountStateList.cpp:53-81 | changes of presence, time and extension data keep it, with the counter adjusted incrementally |
| `Accounts.RebindKeepsInvExactlyWhen` | src/lobby/SimpleAccountManager.cpp:104-132 | giving a live account another inner uuid keeps the invariant if and only if the memo does not hold it under the old one |
| `Accounts.RenewKeepsInvExactlyWhen` | src/lobby/SimpleAccountManager.cpp:124-136 | the same for everything a repeated registration changes |
| `Accounts.MemoUidKeepsInv` | src/lobby/AccountStateList.cpp:139-163 | a lookup by user id may fill the memo |
| `Accounts.MemoConnKeepsInv` | src/lobby/AccountStateList.cpp:169-191 | a lookup by connection may fill the memo |
| `Accounts.MemoUuidKeepsInv` | src/lobby/AccountStateList.cpp:197-219 | a lookup by inner uuid may fill the memo |
| `Accounts.MemoIsRight` | src/lobby/AccountStateList.cpp:139-219 | every memo entry points to a live account whose current key is the one asked for, across release and reuse of slots |
| `AccountStateList.AccountStateList.GetByUid` | src/lobby/AccountStateList.cpp:139-163 | null if and only if no live account has the user id; otherwise a live account with it, which the memo then holds; nothing else changes |
| `AccountStateList.AccountStateList.GetByConnId` | src/lobby/AccountStateList.cpp:169-191 | the same for connections |
| `AccountStateList.AccountStateList.GetByInnerUuid` | src/lobby/AccountStateList.cpp:197-219 | the same for inner uuids |
| `AccountStateList.AccountStateList.FirstUsed` | src/lobby/AccountStateList.cpp:148-160 | the walk stops at the first used account that matches |
| `AccountStateList.AccountStateList.CalcOnlineCount` | src/lobby/AccountStateList.cpp:321-333 | the number of used accounts that are online |
| `AccountStateList.AccountStateList.Offline` | src/lobby/AccountStateList.cpp:71-81 | the account is offline since now and otherwise unchanged, and the counter equals the full count again |
| `AccountStateList.AccountStateList.KeepAlive` | src/lobby/AccountStateList.h:33-37 | renews the time of an online account only |
| `AccountStateList.AccountStateList.CheckKeepAlive` | src/lobby/AccountStateList.cpp:119-133 | an online account stays online, unchanged, if and only if now is before its time plus the tolerance; otherwise it is offline since now; no other account changes |
| `AccountStateList.AccountStateList.RenewedSurvives` | src/lobby/AccountStateList.cpp:119-133 | an account renewed d seconds before the check survives exactly the tolerances above d; one just renewed survives every positive one, unchanged |
| `AccountStateList.AccountStateList.Alloc` | src/lobby/AccountStateList.cpp:34-47 | a blank account with its own key in a slot that was unused, or null when all are used |
| `AccountStateList.AccountStateList.ConfirmAccountIsReady` | src/lobby/AccountStateList.h:71-74 | the account gets its route, is online and ready, and the counter is recounted |
| `AccountStateList.AccountStateList.ReleaseInternal` | src/lobby/AccountStateList.cpp:274-315 | a ready account leaves the three maps, the counter and its slot; a second call does nothing |
| `AccountManager.AccountManager.Register` | src/lobby/SimpleAccountManager.cpp:39-140 | the answer, for every list and login, and the new list for every answer: fresh slot, pair, renewed account, or unchanged on error; the invariant is kept if and only if the login does not change an inner uuid that the memo holds |
| `AccountManager.AnswerToKnownUser` | src/lobby/SimpleAccountManager.cpp:69-111 | for a user id that a live account has: each of the five answers is due exactly when that account's conflict, ext_data and connid and the free slots say so, in that order |
| `AccountManager.AnswerToNewUser` | src/lobby/SimpleAccountManager.cpp:112-121 | for a user id that nobody has: OK exactly when the login is acceptable and a slot is free, list full exactly when none is |
| `AccountManager.AnswerToBadLogin` | src/lobby/SimpleAccountManager.cpp:52-68 | invalid uid exactly for the empty one; overflow exactly from 36 characters of uid or nick or 40 of the password on |
| `AccountManager.LoginIsBound` | src/lobby/SimpleAccountManager.cpp:124-136 | the account of a successful login carries its uid, nick, password, connection and inner uuid, is ready and online since now; a fresh one has its slot's key; others are unchanged |
| `AccountManager.ConflictIsMarked` | src/lobby/SimpleAccountManager.cpp:95-102 | in a conflict the two accounts carry each other's keys and nobody else changes |
| `AccountManager.RefusalChangesNothing` | src/lobby/SimpleAccountManager.cpp:52-121 | a login that is refused changes nothing but the memo of user ids |
| `AccountManager.AccountManager.RegisterConflict` | src/lobby/SimpleAccountManager.cpp:81-103 | the fresh account is never the one it conflicts with, and the two end up paired |
| `AccountManager.AccountManager.RegisterFresh` | src/lobby/SimpleAccountManager.cpp:112-136 | a first login takes an unused slot, or the list is full and unchanged |
| `AccountManager.AccountManager.RegisterAgain` | src/lobby/SimpleAccountManager.cpp:104-136 | a repeated login renews its account, also under another inner uuid, and counts it online once; the invariant is kept exactly when the memo does not hold the account under the old uuid |
| `AccountManager.StaleUuid` | src/lobby/SimpleAccountManager.cpp:104-132 | a list and a repeated login that leave a wrong memo entry behind |
| `AccountManager.AccountManager.OneVerdict` | src/lobby/SimpleAccountManager.cpp:69-111 | whichever of two accounts of a user a lookup finds, the answer is the same |
| `AccountManager.AccountManager.Unregister` | src/lobby/SimpleAccountManager.cpp:146-165 | the account's slot is free, its partner unpaired, all others unchanged; a second call does nothing |
| `AccountManager.AccountManager.UnregisterByConnId` | src/lobby/SimpleAccountManager.cpp:171-182 | exactly the accounts of that connection go; the others keep everything but a conflict whose partner left |

## Left out

- Wiring and interfaces (lobby, net system, factories, HTTP client and server, connection manager, zone manager, reader-writer queue): calls into libraries that are not part of this model, or plain map and vector moves.
- pthreads: robust, recursive and error-checking mutexes, attributes, thread-specific keys, affinity, cancellation clean-up other than that of a waiting writer, and `pthread_rwlock_timedrdlock`, whose timeout path changes a counter outside its lock.
- Failure returns of operating-system primitives and of allocation, and memory release: they are taken to succeed.
- CondVar.StepKeepsInv: the caller's own mutex is not modelled, which only adds interleavings; semaphores are abstract counting semaphores; a timeout and a cancellation are the same step.
- CondVar.CountersAndGate: the counters are unbounded; the reset of nWaitersGone at INT_MAX/2 is modelled, overflow of nWaitersBlocked by more than INT_MAX live threads is not.
- RwLock.StepKeepsInv: the two mutexes and the condition variable are abstract (a flag says that a signal reached the sleeper); runs have fewer than INT_MAX threads.
- Barrier.StepKeepsInv: the MCS lock inside the barrier is a plain lock; its own protocol is proved in McsLock.
- McsLock.StepKeepsInv: a node serves again only once nobody is about to flag it, which `McsLock.ReuseKeepsInvExactlyWhen` shows to be the exact condition; the code does not check it. Initialising a node is one step with publishing it. An event stays signalled after its one wait.
- McsLock.RunKeepsInv: the same condition on reused nodes.
- Fairness and liveness over infinite runs: only that somebody can act is stated, not that a scheduler lets it.
- BipBuf.BipBuf.ForceReserve: when it has to grow, capacity plus size is at most 2^31. `PowerOfTwo.GrowthSufficesExactlyWhen` shows that this is exact: beyond it the new buffer is too small for the block and the reservation, and the code writes outside it. `bip_buf_get_committed_sum`, a statistic, is not modelled.
- BipBuf.BipBuf.Grow: the same bound.
- BipBuf.BipBuf.Write: stands for the socket read into the reserved memory.
- TcpPacket.BufferPool.Alloc: a buffer is an identity; its bytes and size belong to the codec that holds it, and are a fresh array each time a packet starts. Memory of the pool is never returned.
- TcpPacket.TcpPacket.Post: the leading and the name fit one page (8190 bytes), which the source assumes without a test and beyond which the length of its next copy is negative; sizes are unbounded integers, so bodies beyond the range of a 32-bit `int` are not modelled.
- TcpPacket.TcpPacket.DecodeStream: the exception on error is a negative result; `Clear`, which forgets the reader's state, is not modelled.
- Connection.Receive: starts on a fresh connection. After an oversized page only the consumed bytes are compared with one pass, because a call that discards stops there and leaves the rest to the next call.
- Connection.RoundTrip: the header is little-endian, the buffer capacity is at least one page, and packets of several pages fit the receive buffer, as the receiver demands (`Wire.ScanPacket` shows that these are needed).
- StrStr.Search: `memchr` and `memcmp` are their specifications; characters are signed bytes.
- ObjectPool.Pool.SafeAllocId: ids outside the pool fail an assertion in the source and are excluded; the same holds for Release.
- AccountManager.AccountManager.Register: connection id and inner uuid are nonzero. CityHash64 is an arbitrary function that is injective on user ids. Wall-clock time is a parameter.
- AccountManager.AccountManager.Unregister: a ready account is taken to be in use; a slot that was never allocated holds uninitialised memory in the source.
- Direct calls of `Online` that change an account's keys, `OfflineByUid`, `KeepAliveByUid` and `KickOfflineMoreThan`, which combine operations that are modelled.
