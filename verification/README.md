# Norr, verified

Norr carries IP packets through an encrypted tunnel. This project models the parts of it whose correctness does
not rest on a system call, and proves what they promise, for all inputs and all runs:

- **The erasure code.** Powers of 2 modulo 0x11D give a field; the coefficients form a Cauchy matrix; elimination
  keeps it one, so every square part is invertible. From there to the decoder as a whole: over any run in which, after
  a block's first symbol, at most 127 other blocks come up and its deadline is not reached, it returns, once, exactly
  the packets that did not arrive, as soon as that is possible at all; and from what a sender sends over any run to
  what the receiver recovers. `GaloisField`, `GaloisTables`, `CauchyMatrix`, `Elimination`,
  `FecCode`, `FecEncoder`, `FecRecovery`, `FecDecoder`, `FecDelivery` and `FecLink`.
- **The fork-join pool.** Every interleaving of one caller and any number of helpers, one atomic access at a time:
  each index runs exactly once, nobody is left inside the work loop, no deadlock, and a bounded number of steps.
  `ParallelRunner`.
- **Sessions and handshakes.** Pending handshakes, provisional responders, current and retired sessions share one
  16-bit space of key ids. `SessionTable`, `ControlPlane`; the Noise IKpsk2 exchange itself, symbolically, in
  `Noise`,
  with an attacker that builds and opens whatever it can.
- **Replay and batching.** The ring bitmap against the unbounded set of seen counters, and the batched receive path
  against opening each packet on arrival. `ReplayWindow`, `ReceivePath`.
- **Segmentation offload.** Internet checksums, cutting large packets, and merging segments so that cutting gives
  them back. `Checksum`, `GsoExpansion`, `Coalescer`.
- **Stream framing.** Length-prefixed and SSH-shaped records under short writes and arbitrary chunks. `SshFramer`,
  `StreamFraming`, `TcpTransport`.
- **Hashing, routing, scheduling, pacing.** `Blake2s`, `Hkdf`, `Routing`, `Scheduler`, `TokenBuckets`.

Objects that the program updates in place are classes; each method is proved equal to a function of the old state,
and the theorems are about those functions and their runs. `dafny verify dfyconfig.toml` checks everything.

Octets are integers from 0 to 255 and exclusive or is defined bit by bit on natural numbers. Integer widths are
written out where they matter: block ids and TCP sequence numbers modulo 2^32, key ids modulo 2^16, counters below
2^64, 32-bit hash words, one-octet counters.

## Where a promise holds only conditionally

- A packet of length zero that the encoder accepted is the only kind recovery does not return
  (`FecRecovery.NonEmptyKeepsAll`).
- Dequeuing a packet and restoring it is not always neutral: `Scheduler.BounceIsInvisible` gives the exact
  condition, `Scheduler.BounceCanShow` an instance where the later order changes.
- A merged segment without the ACK flag comes back with it; `Coalescer.SegmentGivesBack` states the equivalence,
  `Coalescer.AckIsAdded` an instance.
- `SessionTable.InstalledIsConsistent`: installing under a key id that is another peer's current one would leave
  that peer pointing at a foreign session; the control plane never does, because it installs fresh ids only.
- In the plain stream shape an empty frame is swallowed and ends the current pass over the buffered octets. Where
  nothing more can be read, each further call swallows one, so frames behind several empty ones wait as many calls
  (`StreamFraming.EmptyFramesHoldUp`, `StreamFraming.TwoEmptyFrames`). Without empty frames nothing is lost or held up
  (`StreamFraming.KeptIsAll`, `TcpTransport.ReceivedIsWhatWasSent`).
- The delay the pacer hands out is cut to clock ticks, so a packet may still be refused after exactly that delay;
  `TokenBuckets.TruncatedDelay` says when, `TokenBuckets.DelayCanFallShort` gives an instance.
- A datagram handled alone and the same datagram in a batch may open its packets in different orders;
  `ReceivePath.OwnFirstOrLast` says exactly when that makes no difference, `ReceivePath.OrdersCanDiffer` gives an
  instance where it does.

## Model

| member | source | states |
|---|---|---|
| `GaloisField.NoSmallerOrder` | src/fec.cpp:26-33 | 2 has multiplicative order exactly 255 modulo 0x11D, so the table of powers visits every nonzero byte before it repeats |
| `GaloisField.LogExists` | src/fec.cpp:26-33 | every nonzero byte is a power of 2 with an exponent below 255: the logarithm table is total on nonzero bytes |
| `GaloisField.MulByLogs` | src/fec.cpp:34-38 | adding logarithms modulo 255 multiplies polynomials modulo 0x11D, where the product is defined without any table |
| `GaloisField.MulCommutes` | src/fec.cpp:123-125 | multiplication commutes |
| `GaloisField.MulAssociates` | src/fec.cpp:123-125 | multiplication is associative |
| `GaloisField.MulDistributesLeft` | src/fec.cpp:123-125 | multiplication distributes over exclusive or |
| `GaloisField.MulIsZero` | src/fec.cpp:123-125 | a product is zero exactly when a factor is |
| `GaloisField.InverseOfLog` | src/fec.cpp:127-131 | the inverse of a nonzero byte is the power with the opposite exponent |
| `GaloisTables.Tables.constructor` | src/fec.cpp:19-45 | the constructed tables of powers, logarithms, products and nibble products hold exactly the field values |
| `GaloisTables.Tables.FillPowers` | src/fec.cpp:26-33 | the doubling loop fills the tables of powers and logarithms |
| `GaloisTables.Tables.FillProducts` | src/fec.cpp:34-38 | the product table holds the field product of every pair |
| `GaloisTables.Tables.FillNibbles` | src/fec.cpp:39-44 | the half-tables hold the products with every low and every high nibble |
| `GaloisTables.Tables.Multiply` | src/fec.cpp:123-125 | a table lookup is the field product |
| `GaloisTables.Tables.Invert` | src/fec.cpp:127-131 | the inverse, which multiplies a nonzero byte to one; zero for zero |
| `GaloisTables.Tables.Coefficient` | src/fec.cpp:133-137 | the coefficient is the inverse of the sum of two distinct points |
| `GaloisTables.CauchyIsNonzero` | src/fec.cpp:133-137 | no coefficient within the limits divides by zero, and none is zero |
| `GaloisTables.NibbleProducts` | src/fec.cpp:70-90 | the product with any byte is the sum of its low-nibble and high-nibble products |
| `GaloisTables.Tables.VectorPart` | src/fec.cpp:70-113 | whole vectors processed by nibble lookups equal the plain products added byte by byte |
| `GaloisTables.Tables.MultiplyAdd` | src/fec.cpp:139-161 | the kernel adds the coefficient times the source at every length, with or without a vector unit, leaving the rest of the row unchanged |
| `GaloisTables.Tables.Scale` | src/fec.cpp:116-119 | a row scaled in place |
| `CauchyMatrix.EliminatedEntry` | src/fec.cpp:525-544 | eliminating one row and column turns an entry of a scaled Cauchy matrix into an entry of a scaled Cauchy matrix |
| `CauchyMatrix.EntryIsNonzero` | src/fec.cpp:133-137 | no entry of a scaled Cauchy matrix is zero |
| `Elimination.EliminateColumnSolves` | src/fec.cpp:525-544 | clearing a column keeps the set of solutions of any system, in both directions |
| `Elimination.EliminateSolves` | src/fec.cpp:525-544 | the whole elimination keeps the set of solutions whenever it finds its pivots |
| `Elimination.DiagonalPivot` | src/fec.cpp:526-528 | for distinct rows and columns the pivot search stops at the diagonal |
| `Elimination.CauchyElimination` | src/fec.cpp:525-544 | on a Cauchy matrix, whatever stands beside it, every column has a pivot and the elimination leaves the identity |
| `Elimination.CauchySolution` | src/fec.cpp:525-544 | a Cauchy system has exactly one solution for every right-hand side, and the elimination leaves it |
| `Elimination.FindPivot` | src/fec.cpp:526-528 | the first row at or below the diagonal with a nonzero entry |
| `Elimination.SwapRows` | src/fec.cpp:529-530 | two rows exchanged in place |
| `Elimination.ScaleRow` | src/fec.cpp:532-534 | one row multiplied by a factor in place |
| `Elimination.AddRow` | src/fec.cpp:536-543 | a multiple of one row added to another in place |
| `Elimination.GaussJordan` | src/fec.cpp:525-544 | the in-place loop computes the elimination, and fails exactly when that finds no pivot |
| `FecCode.HeaderRoundTrip` | src/fec.cpp:261-296 | parsing a serialized header followed by anything gives the header back exactly when it is one the decoder may use |
| `FecCode.HeaderParseIsExact` | src/fec.cpp:274-296 | every accepted header serializes back to the bytes it was read from |
| `FecCode.UnpackPadded` | src/fec.cpp:549-559 | a packet behind its length comes out of a padded symbol whole; an empty packet is the one that does not |
| `FecCode.ParityBeyondWidth` | src/fec.cpp:338-361 | parity is zero beyond the longest symbol, so rows of different widths agree |
| `FecCode.ParityStep` | src/fec.cpp:338-361 | widening a row with zeros and adding one symbol gives the parity of one packet more |
| `FecEncoder.DatagramRoundTrip` | src/fec.cpp:377-398 | a parity datagram parses back to its header and its row |
| `FecEncoder.DataRoundTrip` | src/fec.cpp:328-336 | a data datagram parses back to its header and its packet |
| `FecEncoder.FecEncoder.Configure` | src/fec.cpp:298-313 | an active plan is adopted with the data, parity, lanes and loss it asks for, cut to 64, 16 and 4; every lane is emptied and takes the next block id modulo 2^32 |
| `FecEncoder.FirstParity` | src/fec.cpp:338-361 | dealing packets to the lanes in turn, the first parity leaves with packet (data - 1) * lanes + 1 |
| `FecEncoder.FecEncoder.NextHeader` | src/fec.cpp:328-336 | under an active plan the header is the one the block that will contain the packet gives to its position; without one it is a header every receiver refuses |
| `FecEncoder.FecEncoder.Add` | src/fec.cpp:338-361 | the packet joins the open block of the lane under the cursor; a block that becomes full is one the decoder can recover and is sent as exactly its parity datagrams; other lanes do not change; exactly the packets that fill a block, by their number since the plan was adopted or flushed, are followed by the plan's parity datagrams; an oversized packet changes nothing |
| `FecEncoder.FecEncoder.Absorb` | src/fec.cpp:343-356 | online accumulation holds the parity of all packets of the block at its current width |
| `FecEncoder.FecEncoder.Emit` | src/fec.cpp:377-398 | the emitted datagrams are those of the block, and the lane opens the next block |
| `FecEncoder.FecEncoder.Flush` | src/fec.cpp:363-375 | every open block is sent cut short, lane by lane; the lanes that had one take consecutive new ids, all lanes are empty, the counters count blocks and symbols, and the cursor returns to the first lane |
| `FecEncoder.FecEncoder.ResumeAt` | src/fec.cpp:315-320 | idle lanes take consecutive ids, lanes with an open block keep theirs |
| `FecRecovery.ResidueIsMissing` | src/fec.cpp:516-521 | taking the received symbols out of a parity row leaves the combination of the missing ones |
| `FecRecovery.CoefficientsAreCauchy` | src/fec.cpp:516-523 | every choice of distinct parity rows and missing columns gives a Cauchy matrix |
| `FecRecovery.SentSolves` | src/fec.cpp:512-523 | the transmitted symbols solve the system the decoder sets up |
| `FecRecovery.SolveSucceeds` | src/fec.cpp:492-544 | for every block, whatever it holds: solving succeeds exactly when there is parity for every missing packet and the sizes agree, so the return for want of a pivot is never taken; the result is the one solution |
| `FecRecovery.NonEmptyKeepsAll` | src/fec.cpp:546-561 | recovery drops nothing exactly when no packet is empty |
| `FecRecovery.RecoversAllMissing` | src/fec.cpp:492-564 | with as many parity symbols as missing packets every missing packet comes out, whole and in order: the code is maximum distance separable |
| `FecDecoder.FecDecoder.Receive` | src/fec.cpp:452-490 | receiving a symbol in place computes the specified next state and output |
| `FecDecoder.FecDecoder.FindOrCreate` | src/fec.cpp:430-450 | the block of the header exists afterwards; the oldest block makes room when there are 128 |
| `FecDecoder.FecDecoder.Store` | src/fec.cpp:461-483 | the symbol is stored unless its slot is filled; a parity symbol of a shorter block truncates it |
| `FecDecoder.FecDecoder.Finish` | src/fec.cpp:421-428 | the block is dropped and its id remembered among the last 256 |
| `FecDecoder.FecDecoder.Expire` | src/fec.cpp:566-577 | exactly the blocks at the front that reached the deadline are dropped and remembered |
| `FecDecoder.FecDecoder.TryRecover` | src/fec.cpp:492-564 | recovery in place computes the specified packets, statistics and next state |
| `FecDecoder.FecDecoder.SolveBlock` | src/fec.cpp:492-544 | the system over the missing packets is built and eliminated as specified |
| `FecDecoder.FecDecoder.BuildMatrix` | src/fec.cpp:516-523 | the matrix holds the coefficients of the chosen rows and missing columns |
| `FecDecoder.FecDecoder.BuildSyndrome` | src/fec.cpp:513-521 | each syndrome row is its parity row with the received symbols taken out |
| `FecDelivery.OwnStep` | src/fec.cpp:452-564 | on a symbol of its own block the decoder returns what an ideal erasure decoder returns |
| `FecDelivery.StepKeeps` | src/fec.cpp:452-577 | symbols of other blocks and expiry neither disturb the block nor output for it, as long as at most 127 other block ids come up after its first symbol and no expiry pass reaches its deadline |
| `FecDelivery.ExpiredIsFinal` | src/fec.cpp:566-577 | blocks a deadline old at the front leave by an expiry pass, their ids are remembered, and their late symbols yield and open nothing |
| `FecDelivery.RunFromUnknown` | src/fec.cpp:452-577 | from every consistent decoder state that does not know the block, whatever else it holds, the output at each symbol of the block is that of an ideal erasure decoder |
| `FecDelivery.DecoderIsIdeal` | src/fec.cpp:452-564 | from a fresh decoder, after any events at all, the output at each symbol of the block is empty except at the moment the symbols become sufficient, when it is every packet not yet arrived; counted from its first symbol, at most 127 other ids and no expiry at its deadline |
| `FecDelivery.SufficientStays` | src/fec.cpp:452-490 | once sufficient the symbols stay sufficient, so packets are returned at most once |
| `FecDelivery.RecoveredExactlyOnce` | src/fec.cpp:452-564 | any k data symbols and at least n-k parity symbols, in any order and at any times among other traffic, make the decoder return packets at exactly one event; with exactly n symbols they are precisely the missing ones |
| `FecLink.DataSentKeeps` | src/worker.cpp:63-76 | sending a packet behind its header keeps the ledger: everything sent is a data symbol of an open block or a symbol of a closed one, and all packets of every block were sent |
| `FecLink.BlockClosedKeeps` | src/fec.cpp:377-398 | so does closing a block, which the decoder can recover; until block ids wrap no two blocks share one |
| `FecLink.FlushClosesAll` | src/fec.cpp:363-375 | a flush closes the open blocks one after the other |
| `FecLink.Sender.Transmit` | src/worker.cpp:61-83 | a sealed packet goes out as the next data symbol of its lane, followed by the parity of the block it fills; the ledger is kept |
| `FecLink.Sender.Flush` | src/worker.cpp:487-499 | flushing sends the parity of every open block and keeps the ledger |
| `FecLink.Sender.Replan` | src/worker.cpp:388-393 | a new plan closes the open blocks and goes on with the ids after theirs; the ledger is kept |
| `FecLink.SymbolOfItsBlock` | src/fec.cpp:261-398 | everything sent parses as a symbol, and a symbol with the id of a closed block is one the block was sent as |
| `FecLink.SentIsGenuine` | src/fec.cpp:261-398 | every datagram of a block is read back as the symbol it carries |
| `FecLink.DeliveredBlockIsRecovered` | src/fec.cpp:261-564 | datagrams of a block in any order, at any times, with losses and repetitions, reaching a fresh decoder: the missing packets come back byte for byte, in order and once |
| `FecLink.SentBlockIsRecovered` | src/fec.cpp:261-577 | whatever a sender sent over any run of packets, flushes and plan changes, mixed, lost, repeated and reordered, with expiry passes in between: as soon as enough symbols of a block arrive the decoder returns its packets exactly once, and with exactly enough they are the missing ones |
| `ParallelRunner.StepKeepsInv` | src/parallel.cpp:41-104 | every step of the caller, a helper or a spurious wake-up keeps the pool invariant |
| `ParallelRunner.ExecutionInv` | src/parallel.cpp:31-104 | the invariant holds in every state of every execution with any number of helpers and runs |
| `ParallelRunner.RunsExactlyOnce` | src/parallel.cpp:76-104 | whenever run has returned each index below its count was completed exactly once and no other, and no helper is inside the work loop when `task_` is about to be cleared |
| `ParallelRunner.TaskIsCurrent` | src/parallel.cpp:41-74 | a helper inside the work loop sees the work of the current run, never cleared or older work |
| `ParallelRunner.NoDeadlock` | src/parallel.cpp:50-104 | until run returns or the destructor is done some thread that is not asleep can move |
| `ParallelRunner.StepDecreases` | src/parallel.cpp:50-104 | every thread step lowers a measure |
| `ParallelRunner.RunReturns` | src/parallel.cpp:31-104 | under any scheduler run returns, and the destructor joins, after a bounded number of thread steps |
| `SessionTable.InstalledIsConsistent` | src/session.cpp:194-221 | installing keeps every session current or retired exactly once if and only if the key id is not the current one of another peer |
| `SessionTable.RemovedIsConsistent` | src/session.cpp:248-260 | removing a session keeps the table consistent |
| `SessionTable.ExpiredIsConsistent` | src/session.cpp:234-240 | expiring retired sessions keeps the table consistent |
| `SessionTable.ExpiredIsExact` | src/session.cpp:234-240 | a session leaves by expiry exactly when it was retired ten seconds ago or earlier |
| `SessionTable.InstalledIsFound` | src/session.cpp:194-221 | an installed session is the one found for its peer, the former one stays and is retired from now on, nothing changes for other peers |
| `SessionTable.RemovedIsGone` | src/session.cpp:248-260 | exactly the removed session is gone, and its peer has none if it was the current one |
| `SessionTable.FoundSessionIsOfPeer` | src/session.cpp:242-246 | in a consistent table a lookup by peer finds only a session of that peer |
| `SessionTable.ProbeBound` | src/session.cpp:177-183 | ids probed in cyclic order that are all taken are no more than the taken ids: the search ends |
| `SessionTable.SessionTable.AllocateKeyId` | src/session.cpp:172-184 | with fewer than 1024 sessions the next free id in cyclic order is returned, otherwise the allocation is refused |
| `SessionTable.SessionTable.Install` | src/session.cpp:186-221 | the in-place update is the specified one, with its three refusals |
| `SessionTable.SessionTable.Remove` | src/session.cpp:248-260 | the in-place removal is the specified one |
| `SessionTable.SessionTable.ExpireRetired` | src/session.cpp:234-240 | exactly the sessions retired long enough ago are erased |
| `SessionTable.SessionTable.FindByKeyId` | src/session.cpp:223-232 | the session with the id, counting receives for retired ones |
| `SessionTable.SessionTable.FindByPeer` | src/session.cpp:242-246 | the current session of the peer and of no other |
| `ControlPlane.StepKeepsInv` | src/control_plane.cpp:61-555 | every step of the lifecycle keeps the key ids of sessions, pending handshakes and provisional responders apart, the table consistent and both handshake kinds at 256 or fewer |
| `ControlPlane.ReachableInv` | src/control_plane.cpp:61-555 | in every reachable state those ids are pairwise disjoint, each session is its peer's unique current one or retired exactly once, and a lookup by peer finds only that peer |
| `ControlPlane.RemoteIdsAreCarried` | src/control_plane.cpp:350-497 | in every reachable state each session and provisional responder has the peer and remote key id that the last response or initiation claiming its id carried |
| `ControlPlane.ExchangeCrossesIds` | src/control_plane.cpp:350-497 | for two control planes that completed one exchange each side's remote id is the other's local id |
| `ControlPlane.ReplayStaysRefused` | src/control_plane.cpp:344-350 | while a peer is known, an initiation no newer than a remembered one stays refused in every later state |
| `ControlPlane.HandshakesCount` | src/control_plane.cpp:148-159 | pending and provisional handshakes hold at most 512 ids |
| `ControlPlane.ControlPlane.AllocateKeyId` | src/control_plane.cpp:148-159 | with fewer than 1024 sessions an id free of sessions and handshakes is always found within 514 attempts |
| `ControlPlane.ControlPlane.AddPeerConfig` | src/control_plane.cpp:61-65 | the peer becomes known; the reserved id is refused |
| `ControlPlane.ForgottenIs` | src/control_plane.cpp:72-88 | nothing but its sessions is left of a forgotten peer, and nothing of others is lost |
| `ControlPlane.ControlPlane.ForgetPeer` | src/control_plane.cpp:72-88 | the peer, its pending handshake, its timestamp and all its provisional responders are gone |
| `ControlPlane.ControlPlane.StartHandshake` | src/control_plane.cpp:161-190 | succeeds exactly under the listed conditions, under a free id; a refusal changes no handshake or session |
| `ControlPlane.ControlPlane.HandleInitiation` | src/control_plane.cpp:255-399 | answers only a newer initiation of a known peer, under a free id; a newer timestamp is remembered even when the answer then fails |
| `ControlPlane.ControlPlane.Respond` | src/control_plane.cpp:350-389 | the timestamp is recorded first, then the provisional responder; the second capacity test cannot fail |
| `ControlPlane.ControlPlane.HandleResponse` | src/control_plane.cpp:405-443 | the session of a pending handshake that reads the response becomes current, with the key id the response carries as its remote id, and the handshake is forgotten; if the table is full the handshake is kept |
| `ControlPlane.ControlPlane.InstallPending` | src/control_plane.cpp:192-217 | installing a pending handshake succeeds exactly when the table has room, with the remote id it was answered with |
| `ControlPlane.ControlPlane.TryPromote` | src/control_plane.cpp:463-497 | only an authentic packet promotes a provisional responder, to a session with its peer and remote id; it is then gone whether or not the session could be installed |
| `ControlPlane.ControlPlane.OnTimers` | src/control_plane.cpp:499-555 | exactly the expired provisional responders are dropped, timed-out handshakes are dropped unless started anew, sessions and timestamps are untouched |
| `Checksum.ChecksumAdd` | src/offload.cpp:112-124 | the sum over eight octets at a time is the sum of the 16-bit words, an odd octet padded |
| `Checksum.FoldChecksum` | src/offload.cpp:107-110 | end-around carry ends in the residue modulo 65535, zero only for zero |
| `Checksum.ComplementCompletes` | src/offload.cpp:57-77 | a sum completed with the complement of its fold folds to 0xFFFF |
| `Checksum.FoldAbsorbs` | src/offload.cpp:107-110 | folding a part of a sum first changes nothing |
| `Checksum.StoredSum` | src/offload.cpp:25-28 | storing a 16-bit field at an even offset changes the sum by the difference |
| `Checksum.PseudoSumIsOfHeader` | src/offload.cpp:126-138 | the pseudo-header sum is the word sum of the pseudo header written out: addresses, zero, protocol and 16-bit length for IPv4, addresses, 32-bit length, zeros and protocol for IPv6 |
| `Checksum.TransportSumIsOfOctets` | src/offload.cpp:140-147 | a packet passes exactly when pseudo header and transport part, written one after the other, sum to all ones |
| `Checksum.OddIsPadded` | src/offload.cpp:112-124 | an odd last octet counts as if a zero octet followed |
| `Checksum.SumOfTheExample` | src/offload.cpp:107-124 | the example of section 3 of RFC 1071 |
| `Checksum.PseudoHeaderSum` | src/offload.cpp:126-138 | the pseudo-header sum of IPv4 and IPv6 in place |
| `Checksum.TransportChecksumValid` | src/offload.cpp:140-147 | accepts exactly the packets that hold the header length they state and whose pseudo header and transport part sum to all ones, header lengths below 20 included |
| `GsoExpansion.IpLengthSums` | src/offload.cpp:57-66 | after a new length the IPv4 header sums to 0xFFFF |
| `GsoExpansion.ChecksummedIsValid` | src/offload.cpp:68-77 | a finished packet passes the transport check and a UDP checksum is never zero |
| `GsoExpansion.SegmentIsSound` | src/offload.cpp:189-213 | each segment carries its chunk, passes both checks, and keeps every header octet outside the rewritten fields |
| `GsoExpansion.SegmentFieldsAre` | src/offload.cpp:189-213 | length, identification, sequence number modulo 2^32, flags and UDP length of each segment |
| `GsoExpansion.FlagsOfSegments` | src/offload.cpp:16-17 | FIN and PSH are on the last segment only, CWR on the first only, every other flag on all of them |
| `GsoExpansion.RequestFits` | src/offload.cpp:170-187 | which offload requests are cut, and how: TCP by the packet's own header length, UDP by eight octets |
| `Octets.WrappedIsModulo` | src/offload.cpp:203 | the 32-bit cast of a sequence number, as modelled, is the remainder modulo 2^32 |
| `GsoExpansion.SegmentsCarryPayload` | src/offload.cpp:189-215 | all segments pass both checks and together carry the payload once, in order |
| `GsoExpansion.PartialChecksumCompletes` | src/offload.cpp:157-168 | completing a field that holds the folded pseudo header makes the packet valid |
| `GsoExpansion.SetIpLength` | src/offload.cpp:57-66 | the in-place rewrite of length and header checksum |
| `GsoExpansion.FinishTransportChecksum` | src/offload.cpp:68-77 | the in-place transport checksum with the UDP zero rule |
| `GsoExpansion.CutSegment` | src/offload.cpp:189-212 | one segment built in a buffer is the specified one |
| `GsoExpansion.ExpandOffloaded` | src/offload.cpp:149-215 | a fitting request yields exactly its segments, a packet that only needs a checksum is completed in place, everything else is refused unchanged |
| `Coalescer.AppendedStandsFor` | src/offload.cpp:241-272 | appending keeps an item standing for its packets in order: sizes, sequence numbers, flags and every compared field |
| `Coalescer.SegmentGivesBack` | src/offload.cpp:189-213 | segment k of a merged frame is packet k again in payload, addresses, ports, numbers, window and options; its flags are the same exactly when that packet carried ACK |
| `Coalescer.AckIsAdded` | src/offload.cpp:241-272 | two packets, the second without ACK, that are merged; the second comes back with other flags |
| `Coalescer.MergedDelivers` | src/offload.cpp:341-367 | cutting a merged frame gives back every merged packet, in order and in number |
| `Coalescer.MergingUndoesCutting` | src/offload.cpp:241-272 | the segments of an ordinary large packet are all merged again, into one item with its whole payload |
| `Coalescer.AppendKeepsOrder` | src/offload.cpp:294-321 | appending to the last item of a flow puts the packet last in its flow and moves nothing in others |
| `Coalescer.TcpCoalescer.FindItem` | src/offload.cpp:294-305 | the last item of the flow |
| `Coalescer.TcpCoalescer.Add` | src/offload.cpp:274-339 | the packet joins the last item of its flow exactly when it continues it, otherwise it starts an item; the record of what items stand for is kept |
| `Coalescer.TcpCoalescer.Flush` | src/offload.cpp:341-374 | every item is written once; what the frames stand for is, flow by flow, what was added, with nothing lost, repeated or reordered |
| `ReplayWindow.AcceptedIsRecorded` | src/replay_window.cpp:35-54 | whatever a run has accepted is in the history of seen counters |
| `ReplayWindow.NeverAcceptedTwice` | src/replay_window.cpp:35-54 | no run accepts a counter twice, across jumps of any size |
| `ReplayWindow.AcceptedExactly` | src/replay_window.cpp:35-54 | over every run a counter is accepted exactly when it was not accepted before and none accepted before is 8192 or more ahead |
| `ReplayWindow.SharedBit` | src/replay_window.cpp:7-13 | two counters share a bit exactly when they are congruent modulo 8192 |
| `ReplayWindow.Window.ClearRange` | src/replay_window.cpp:24-33 | exactly the slots the window moves over are forgotten |
| `ReplayWindow.Window.Accept` | src/replay_window.cpp:35-54 | the ring bitmap judges every counter as the unbounded history does, and records it |
| `ReceivePath.OpenIsCommit` | src/session.cpp:120-135 | the window test before decryption decides nothing the commit would not |
| `ReceivePath.RefusalIsStable` | src/session.cpp:73-81 | a packet refused by a window is refused by every later one |
| `ReceivePath.StagingIsArriving` | src/worker.cpp:679-738 | staging a packet, or refusing it when staged, comes to the same as opening it after the jobs before it |
| `ReceivePath.ArriveAllDeliversOnce` | src/worker.cpp:525-582 | opening packets on arrival, promoting provisional sessions on the way, delivers no counter of a key twice |
| `ReceivePath.DeliveredExactly` | src/worker.cpp:525-582 | a packet is delivered exactly when it is authentic and new to its session, or the first of a waiting handshake with room in the table; other keys are untouched |
| `ReceivePath.Worker.StageReceive` | src/worker.cpp:679-698 | staging keeps the promise that settling now gives what arrival order gives |
| `ReceivePath.Worker.SettleReceive` | src/worker.cpp:700-738 | decrypting all jobs and committing them in order gives what opening each on arrival gives |
| `ReceivePath.Worker.ForwardSealed` | src/worker.cpp:525-582 | opening at once, or promoting a provisional session with its first authentic packet, which uses the provisional session up even when the session table is full |
| `ReceivePath.Worker.PumpUdpToTun` | src/worker.cpp:740-776 | a batch of datagrams with the packets recovered by the erasure code comes to exactly what opening each packet on arrival comes to, datagram after datagram in a stated order; nothing is skipped and nothing delivered twice |
| `ReceivePath.OwnFirstOrLast` | src/worker.cpp:501-523 | handling a datagram alone opens its own packet before the recovered ones, the batch after them when it has no session; the two agree exactly when the key has a session, is unknown or the table full, the packet forged, or it comes first anyway |
| `ReceivePath.OrdersCanDiffer` | src/worker.cpp:501-523 | two packets of one waiting handshake that are delivered in different orders alone and in a batch |
| `Noise.Read2` | src/noise.cpp:338-355 | a rejected second message leaves the handshake unchanged |
| `Noise.HkdfInjective` | src/noise.cpp:16-40 | each derived key determines the chaining key and the input |
| `Noise.FirstMessageAgreement` | src/noise.cpp:191-291 | a first message ending in the initiator's ciphertext is accepted exactly when prologue and responder key match and it is the message written; both sides then share the symmetric state |
| `Noise.SecondMessageAgreement` | src/noise.cpp:293-390 | a second message ending in a responder's ciphertext is accepted exactly when the sides match, share the preshared key, the responder read the message the initiator wrote, and it arrived as written |
| `Noise.HandshakeAgrees` | src/noise.cpp:392-408 | on acceptance both sides have the same transcript hash, each other's static key, and crossed send and receive keys |
| `Noise.FirstIsAccepted` | src/noise.cpp:242-291 | a responder accepts exactly the first messages whose identity is sealed under e and es and whose payload is sealed under e, es and ss of its own key, over the transcript |
| `Noise.FirstIsWritten` | src/noise.cpp:191-240 | an initiator writes a message of that form |
| `Noise.SecondIsAccepted` | src/noise.cpp:338-390 | an initiator accepts exactly the second messages sealed under e, es, ss, e, ee, se and the preshared key in this order, over the transcript |
| `Noise.AttackStaysClean` | src/noise.cpp:16-160 | whatever an attacker overhears, builds, seals and opens without its part of a secret, no term it comes to know shows the secret |
| `Noise.FirstIsAuthentic` | src/noise.cpp:275-291 | a first message accepted as from a static key whose secret the attacker lacks was sealed by a holder of one of the two static secrets |
| `Noise.NoForgedFirst` | src/noise.cpp:275-291 | where neither of them sealed anything under their shared secret the attacker has no message that is accepted |
| `Noise.FirstIsOneWritten` | src/noise.cpp:242-291 | if initiators with that key are all who sealed, the responder has read the whole of one of their messages |
| `Noise.SecondKeyHolds` | src/noise.cpp:357-390 | the key of an accepted second message is derived from es, ss, ee, se and the preshared key |
| `Noise.SecondIsAuthentic` | src/noise.cpp:357-390 | an accepted second message was sealed by an honest party if the attacker lacks es, ss or the preshared key |
| `Noise.TrafficKeysAre` | src/noise.cpp:392-408 | the initiator sends with the first and receives with the second key split from everything mixed in |
| `Noise.TrafficKeysAreSecret` | src/noise.cpp:392-408 | an attacker that lacks any one of the secrets comes to know neither traffic key |
| `Noise.RejectedLeaveNoTrace` | src/noise.cpp:338-355 | any number of rejected second messages leaves the outcome of the next one unchanged |
| `Noise.NoiseHandshake.New` | src/noise.cpp:164-189 | creation mixes the prologue and the responder key, and refuses an initiator without one |
| `Noise.NoiseHandshake.WriteMessage1` | src/noise.cpp:191-240 | the stepwise update is the specified first message and state |
| `Noise.NoiseHandshake.ReadMessage1` | src/noise.cpp:242-291 | the stepwise update is the specified reading of the first message, failures included |
| `Noise.NoiseHandshake.WriteMessage2` | src/noise.cpp:293-336 | the stepwise update is the specified second message and state |
| `Noise.NoiseHandshake.ReadMessage2` | src/noise.cpp:338-355 | saving, trying and restoring is the specified reading of the second message |
| `Noise.NoiseHandshake.ReadMessage2Unchecked` | src/noise.cpp:357-390 | a failed attempt touches only what the caller restores |
| `Noise.NoiseHandshake.GetResult` | src/noise.cpp:392-408 | the split keys by role |
| `SshFramer.PaddingFor` | src/ssh_framer.cpp:37-41 | at least four octets of padding, and a record that is a multiple of eight |
| `SshFramer.RecordUnwraps` | src/ssh_framer.cpp:43-83 | every record of a payload up to 65535 octets unwraps to that payload, whatever follows |
| `SshFramer.CutRecordIsIncomplete` | src/ssh_framer.cpp:61-83 | a record cut short is incomplete, never malformed |
| `SshFramer.UnwrapIsStable` | src/ssh_framer.cpp:61-83 | a decision on some octets stands when more arrive |
| `SshFramer.Wrap` | src/ssh_framer.cpp:43-59 | fills the buffer with a record of the payload and touches nothing behind it; the exact refusals |
| `SshFramer.UnwrapInto` | src/ssh_framer.cpp:61-83 | unwrapping into a buffer is the specified parse |
| `StreamFraming.RecordParses` | src/tcp_transport.cpp:68-95 | every record parses to its frame, whatever follows |
| `StreamFraming.FramesAppend` | src/tcp_transport.cpp:68-95 | reading a stream in two parts finds the frames that reading it at once finds |
| `StreamFraming.StreamHoldsFrames` | src/tcp_transport.cpp:398-457 | a stream of records holds exactly their frames, in order |
| `StreamFraming.CutStreamHoldsPrefix` | src/tcp_transport.cpp:398-457 | any prefix of a stream of records, the last one perhaps cut short, holds a prefix of their frames |
| `StreamFraming.KeptIsAll` | src/tcp_transport.cpp:756-761 | nothing is swallowed exactly when the shape is SSH or no frame is empty |
| `StreamFraming.FilledAdds` | src/tcp_transport.cpp:734-763 | one filling queues a leading part of the waiting frames, as many as there is room for, or up to the first empty frame of the plain shape, which it swallows |
| `StreamFraming.EmptyFramesHoldUp` | src/tcp_transport.cpp:756-761 | n empty frames in front take n fillings that hand out nothing, for every n |
| `StreamFraming.TwoEmptyFrames` | src/tcp_transport.cpp:756-761 | two empty frames before a third: two calls in a row hand out nothing, the third frame still waiting |
| `StreamFraming.HandedOutInOrder` | src/tcp_transport.cpp:734-841 | what is handed out is a prefix of what was sent, less swallowed empty frames, and all of it once nothing complete is left |
| `TcpTransport.FrameReassembler.Push` | src/tcp_transport.cpp:56-60 | chunks are appended unless the stream was violated |
| `TcpTransport.FrameReassembler.Compact` | src/tcp_transport.cpp:62-66 | compaction loses nothing |
| `TcpTransport.FrameReassembler.Next` | src/tcp_transport.cpp:68-95 | the next frame is the parse of the octets not yet consumed; an oversized one is a violation |
| `TcpTransport.TcpTransport.WriteOut` | src/tcp_transport.cpp:385-396 | octets written are a prefix of those offered; it stops only when a write is not taken or fails |
| `TcpTransport.TcpTransport.FlushOutput` | src/tcp_transport.cpp:385-396 | flushing keeps written octets plus outbox, drains the outbox unless a write is not taken, and fails exactly when a write fails |
| `TcpTransport.TcpTransport.SendFrame` | src/tcp_transport.cpp:398-460 | an accepted frame is exactly one record more in written octets plus outbox; the connection is lost exactly when a write fails, the frame is deferred only while older octets are not taken, and a short write keeps the rest; after a failure the octets written are a prefix of the records and one cut short |
| `TcpTransport.TcpTransport.FillReady` | src/tcp_transport.cpp:734-763 | the queue and the frames left are exactly those of one filling; it fails exactly when it meets octets that are no record with room left in the queue |
| `TcpTransport.TcpTransport.ReceiveFrames` | src/tcp_transport.cpp:765-841 | frames handed out, queued and unparsed are those of everything read, for any chunking and output size; a short answer leaves no complete frame unless an empty one was read; with nothing to read it is one filling; the connection is lost only on a closed or failed read or octets that are no record, and a short answer means the socket had no more |
| `TcpTransport.ReceivedIsWhatWasSent` | src/tcp_transport.cpp:385-460 | between two ends, the sender failed or not, what one handed out is a prefix of what the other accepted and all of it once it has arrived; without empty frames every accepted frame is delivered |
| `Blake2s.Compress` | src/blake2s.cpp:75-104 | the in-place rounds compute the compression function |
| `Blake2s.MixedIsInvertible` | src/blake2s.cpp:46-56 | the mixing function can be undone step by step, so it loses nothing |
| `Blake2s.RoundsAreInjective` | src/blake2s.cpp:75-104 | for every block the ten rounds keep different vectors different |
| `Blake2s.WorkVectorTells` | src/blake2s.cpp:75-104 | octet count and final flag tell vectors of one state apart |
| `Blake2s.ParametersTell` | src/blake2s.cpp:59-73 | digest size and key length tell initial states apart |
| `Blake2s.ChainedThenAbsorbed` | src/blake2s.cpp:106-123 | whole blocks may be compressed ahead of time as long as octets follow |
| `Blake2s.Blake2s.constructor` | src/blake2s.cpp:59-73 | digest and key sizes are clamped; a key counts as a padded block of input |
| `Blake2s.Blake2s.Update` | src/blake2s.cpp:106-123 | an update appends its input to what is hashed, however the input is cut |
| `Blake2s.Blake2s.Finish` | src/blake2s.cpp:125-141 | the digest is that of the one-shot hash over everything fed; a second finish yields nothing |
| `Blake2s.Blake2s.Hash` | src/blake2s.cpp:143-150 | the one-shot hash of section 3.3 of RFC 7693, keyed or not |
| `Hkdf.HashParts` | src/blake2s.cpp:59-141 | hashing in any number of updates is the digest of the parts joined, for every size and with or without a key |
| `Hkdf.HmacBlake2s` | src/blake2s.cpp:152-181 | HMAC over BLAKE2s, long keys hashed first |
| `Hkdf.Expand` | src/blake2s.cpp:188-237 | fills the output with the first octets of T(1) T(2) ...; more than 255 blocks are refused, so no value of the one-octet counter serves twice |
| `Hkdf.ShorterIsPrefix` | src/blake2s.cpp:188-237 | shorter outputs are prefixes of longer ones |
| `Routing.Create` | src/address.cpp:166-183 | the prefix keeps exactly the first bits and clears the others; too long a length is refused |
| `Routing.PrefixIsDetermined` | src/address.cpp:166-183 | a canonical prefix is determined by its length and any address it covers |
| `Routing.SamePrefix` | src/address.cpp:166-183 | two addresses have the same prefix exactly when their first bits agree; creating is idempotent |
| `Routing.Contains` | src/address.cpp:185-202 | octet-wise comparison with a mask decides whether the first bits agree |
| `Routing.RoutingTable.Add` | src/routing.cpp:8-27 | the table stays sorted by falling length without duplicates; exactly when an entry is accepted and exactly when it is refused as a duplicate, and the members afterwards |
| `Routing.RoutingTable.LowerBound` | src/routing.cpp:22-24 | the first position whose prefix is not longer |
| `Routing.RoutingTable.Lookup` | src/routing.cpp:56-62 | the peer of the unique longest prefix that covers the address, or none |
| `Routing.OrderDoesNotMatter` | src/routing.cpp:8-62 | a lookup depends on which entries were accepted, not on their order |
| `Routing.RoutingTable.IsAuthorized` | src/routing.cpp:69-77 | whether some prefix of the peer covers the address |
| `Scheduler.EnqueuedKeepsInv` | src/qos.cpp:50-88 | the byte count stays exact and within the limit, each class accounts for every packet, and only bulk is evicted, oldest first |
| `Scheduler.DequeuedKeepsInv` | src/qos.cpp:99-148 | dequeuing keeps that accounting |
| `Scheduler.RunKeepsInv` | src/qos.cpp:50-148 | the accounting is exact after every run of arrivals, services and bounces |
| `Scheduler.AcceptedExactly` | src/qos.cpp:66-88 | a packet is accepted exactly when its class has a place and its octets fit, bulk not counting against the other classes |
| `Scheduler.ShedIsLeast` | src/qos.cpp:56-64 | no more bulk is shed than needed |
| `Scheduler.RealtimeFirst` | src/qos.cpp:99-148 | in every run a service sends the first realtime packet if one waits, and nothing only if nothing waits |
| `Scheduler.RunIsFifo` | src/qos.cpp:66-148 | over every run each class leaves its queue in the order it entered, with nothing lost, repeated or overtaken |
| `Scheduler.LeftIsSent` | src/qos.cpp:99-148 | realtime and normal packets leave only by being sent |
| `Scheduler.BounceKeepsLead` | src/worker.cpp:459-485 | while both classes are backlogged, putting a packet back does not change what is served next |
| `Scheduler.ServicePattern` | src/qos.cpp:90-148 | with no realtime packet and both other classes backlogged at most six normal packets precede a bulk one, and then every bulk packet is followed by exactly three normal ones, however many packets are put back in between |
| `Scheduler.BounceChangesDeficitsOnly` | src/qos.cpp:90-97 | dequeuing and restoring at once puts back every queue and count |
| `Scheduler.BounceIsInvisible` | src/qos.cpp:90-148 | under any limits such a bounce goes unnoticed by every later service exactly when it leaves the deficits alone (a realtime packet or nothing was taken, no new round began, or a lone class was at rest) or a class has no capacity |
| `Scheduler.BounceCanShow` | src/qos.cpp:90-148 | from a new scheduler with the default limits, nine operations lead to a state where one bounce turns the fourth packet sent later from bulk to normal |
| `Scheduler.Scheduler.ShedBulkFor` | src/qos.cpp:56-64 | the shedding loop in place |
| `Scheduler.Scheduler.Enqueue` | src/qos.cpp:66-88 | enqueuing in place, with its refusals |
| `Scheduler.Scheduler.Dequeue` | src/qos.cpp:99-148 | the choice of class, the deficits and the counts in place |
| `Scheduler.Scheduler.Restore` | src/qos.cpp:90-97 | restoring in place |
| `Scheduler.Scheduler.DequeueAndRestore` | src/worker.cpp:459-485 | a packet that could not be sent goes back, and the accounting still holds |
| `TokenBuckets.AdmissionBound` | src/pacer.cpp:16-43 | what is admitted between two requests is at most the capacity plus the rate times the time between them, packets above the capacity not counted |
| `TokenBuckets.WindowBound` | src/pacer.cpp:16-43 | that bound holds for every window of a run |
| `TokenBuckets.AdmittedExactly` | src/pacer.cpp:16-43 | a request is admitted exactly when what was left and what has flowed in, up to the capacity, covers it, or by the escape; exactly that is taken out |
| `TokenBuckets.DelayIsExact` | src/pacer.cpp:45-53 | a packet is admitted after exactly the computed delay and at no time before it |
| `TokenBuckets.TruncatedDelay` | src/pacer.cpp:45-55 | the delay as handed out, cut to whole clock ticks: no packet is admitted before it, one at it exactly if nothing was cut off, and always one tick later |
| `TokenBuckets.DelayCanFallShort` | src/pacer.cpp:54 | an octet that is refused after exactly the delay handed out for it |
| `TokenBuckets.Pacer.Allow` | src/pacer.cpp:23-43 | admission in place, with the escape for packets above the capacity and the counters |
| `TokenBuckets.Pacer.DelayUntil` | src/pacer.cpp:45-55 | the delay after a refill, in whole clock ticks |
| `TokenBuckets.BucketBound` | src/rate_limit.cpp:23-62 | through one bucket no more is allowed between two calls than the burst plus the rate times the time |
| `TokenBuckets.SourceBound` | src/rate_limit.cpp:49-62 | the bound carries over to each source, whichever others share its bucket |
| `TokenBuckets.AllowedExactly` | src/rate_limit.cpp:49-62 | a call is allowed exactly when its bucket holds a whole token, which it costs; no other bucket changes |
| `TokenBuckets.SourceRateLimiter.Allow` | src/rate_limit.cpp:49-62 | a bucket starts full when first used; allowed and rejected calls are counted |

## Left out

- FecEncoder.FecEncoder.Absorb: parity rows are values between packets; each is widened and accumulated in a buffer of its own rather than in one kept buffer.
- FecDecoder.FecDecoder.Store: blocks and slots are values; reuse of spare buffers is not modelled.
- FecEncoder.FecEncoder.Flush: the number of rows for an estimated loss comes from floating point; it is any number up to the plan's parity.
- GaloisTables.Tables.VectorPart: models one nibble lookup per octet, not the vector registers.
- FecDelivery.StepKeeps: assumes that after a block's first symbol symbols of at most 127 other block ids arrive and no expiry pass reaches its deadline; beyond that the decoder evicts or expires blocks by design.
- ParallelRunner.RunReturns: counts steps of threads, not spurious wake-ups, which the safety results include; atomics are sequentially consistent and the generation counter does not wrap.
- GsoExpansion.ExpandOffloaded: assumes a TCP header of at least 20 octets in a packet to be cut, as every TCP header has; the program tests only for 8. With less, the fields written can lie outside the segment, so there is no result to state. Sums are unbounded instead of 64-bit.
- Checksum.TransportChecksumValid: assumes that a packet which holds the header length it states also holds its addresses, which the program reads at fixed positions.
- Coalescer.TcpCoalescer.Flush: a frame is one sequence of octets instead of a list of pieces; reuse of item and packet storage is not modelled.
- ReceivePath.Worker.SettleReceive: drop statistics are not modelled; a packet that is both stale and forged may be counted under either reason.
- Noise.NoiseHandshake.ReadMessage1: caller buffers are always large enough, and key generation always succeeds; ephemeral keys are arguments.
- ControlPlane.ControlPlane.HandleInitiation: parsing, MACs, cookies, load and rate limits and the cryptographic checks are outcomes given as arguments, an answer that is only a cookie among the early ones; retries and keepalives change no id and are one kind of timer event.
- TcpTransport.TcpTransport.SendFrame: TLS and the camouflage framer are not modelled; padding octets are arbitrary; an interrupted call is retried inside the socket.
- TcpTransport.TcpTransport.ReceiveFrames: a call reads a finite amount of what has arrived, as the socket gives it.
- Blake2s.Blake2s.Finish: the octet counter is unbounded instead of 64-bit.
- Blake2s.Blake2s.Hash: no known answer is proved; the constants stand as section 2 of RFC 7693 gives them.
- Noise.AttackStaysClean: terms are symbols, so the attacker computes with them only as the algebra allows; nothing is said of probabilities, timing or low-order points beyond their refusal.
- TokenBuckets.Pacer.Allow: times and amounts are real numbers, so rounding is not modelled, and the rate is fixed during a run.
- TokenBuckets.DelayIsExact: is about the delay before it is cut to clock ticks; `TokenBuckets.TruncatedDelay` is about the one handed out.
- TokenBuckets.Pacer.DelayUntil: a clock tick is a nanosecond.
- FecLink.Sender.Transmit: a sealed packet has at most 65535 octets; the program's slots hold frames of at most 9216. Destinations, pacing and send failures are not modelled.
- FecLink.SentBlockIsRecovered: holds until a sender's 32-bit block ids wrap, and where from a block's first symbol to its last at most 127 other blocks come up and its deadline is not reached.
- TokenBuckets.SourceRateLimiter.Allow: a source is given by the hash of its address.
- Scheduler.Scheduler.Dequeue: queueing delay statistics are not modelled.
- Traffic classification and the forwarding decision over multicast, loopback and hop limit: direct case distinctions.
- Address and prefix text, virtio header octets, cookie and configuration formats: round trips of the same kind as the ones here, only easier.
- Adaptive redundancy, congestion control, load and path scoring: floating-point heuristics without a stated guarantee.
- The timer wheel: timers are arbitrary events.
- Sealing of outgoing packets and nonce reservation: one counter behind a lock.
- Sockets, the tunnel device, TLS, QUIC and the other carriers: foreign code.
