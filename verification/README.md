# Verification of the peer-to-peer service

A Dafny model of the connection handling of the service and of the reader stack it vendors,
with proofs of what they promise. `dafny verify dfyconfig.toml` checks all of it.

## What is modelled

**The connection manager** (`src/p2p/network.rs`, `src/p2p/subnet.rs`). `Connections` is the
event loop as a state machine: a `World` holds the loop's fields, the swarm it drives (live
connections in order of establishment, dials in flight, the peer scorer) and the history of
dial requests and answers; `Step` is one turn; a `Trace` is the states a run passes through
from the start, and `Run` its last one.
The swarm is an adversary: it announces any connections, closes any of them at any time,
carries out a requested close at some later moment or never, dials on its own, and forgets
disconnected peers' scores when it likes. It obeys these rules only: a live connection's id
is its own; the address reported at a close is the one reported at establishment;
`num_established` is the number of connections the peer has left; the swarm starts a dial for
a command only if the peer is neither connected nor being dialed, and answers
`DialPeerConditionFalse` only if it is; an outgoing error ends the peer's dial, and so does a
connection established as dialer. Each connection carries history that the code does not
have: whether its peer was protected when it was admitted (`exempt`), whether a close was
requested (`closing`), whether its table entry is still there (`listed`).

`EventLooping` is the event loop as it is written: a class whose handlers update its fields
in place and call the swarm, each proved to do what the state machine's function says.
`Serve` runs it over any events the environment may produce.

The other `Connection...` modules prove what every run keeps: the table and the counters
(`ConnectionTable`), the limits (`ConnectionLimits`), the answers to dial requests
(`ConnectionRequests`), the protected set and the scores (`ConnectionProtection`), complete
lists, the origin of stored addresses and runs that refute obvious readings
(`ConnectionHistory`). `DocumentedLimits` is about the limits as the documentation words them.
`ConnectionFrames` says what each turn leaves alone, and `ConnectionGuarantees` draws everything
together for every reachable state.

**The maintenance loop** (`src/p2p/maintenance.rs`, `src/p2p/backoff.rs`,
`src/p2p/peerstore.rs`, `src/grpc.rs`). `Maintaining` has one tick as a method over a mutable
backoff table, with shuffles that pick any permutation, dials with any outcome and a clock
that never runs backwards; `MaintenanceRuns` has one tick after the other; `DialBackoffs` the
backoff arithmetic and its histories; `PeerStorage` the store; `PreferredRequests` the lenient
parsing of a preferred-peers request.

**The reader stack** (`patches/core2-0.4.0/src/io`). `Cursors` has the cursor with its 64-bit
arithmetic, `BufReaders` the buffered reader over it with its seeks, `Readers` the adaptors
`Chain` and `Take` over sources that may deliver short and fail, with `read_exact` and
`read_to_end`, and `BufferedReaders` the buffered reader over any of these.

## Where the code and its documentation differ

- Line 80 of the service's README.md describes `high_water` as the number of connections above
  which non-protected peers are disconnected. The code counts peers, looks only at the newcomer,
  and does not look again when a peer is demoted. What holds in every run is
  `ConnectionLimits.LimitsInEveryRun`. As a number of connections the limit fails when one peer
  connects twice (`ConnectionHistory.OnePeerTwoConnections`), and it is kept by a turn and by a run
  exactly as `DocumentedLimits.ConnectionWatermarkExactly` and `ConnectionWatermarkInRuns` say.
  Over the peers that are unprotected *now* it fails after a demotion
  (`ConnectionHistory.DemotionOverfills`), exactly as `DocumentedLimits.CurrentHighWaterExactly`
  and `CurrentHighWaterInRuns` say.
- Line 81 of the same file describes `per_subnet_cap` as the most connections per /24 for
  non-protected peers. Over the peers that are unprotected now it fails after a demotion
  (`ConnectionHistory.DemotionOverfillsSubnet`), exactly as
  `DocumentedLimits.CurrentSubnetCapExactly` and `CurrentSubnetCapInRuns` say.
- Lines 35-36 of the same file promise that a dial returns once the connection is established or
  has failed. A request for a peer that the swarm is dialing on its own is told at once that it is
  connected (`ConnectionHistory.ToldConnectedTooEarly`); `ConnectionRequests.ConnectedIsJustified`
  says exactly when the peer has a connection.
- `src/p2p/backoff.rs` lines 6-8 give the delay as `base * 2^(n-1)`, capped. The power saturates
  at 2^32-1, so this holds for every `n` exactly when the cap is at most `base * (2^32-1)`
  (`DialBackoffs.DelayIsExactIff`). The jitter factor 1.5 itself is never drawn.
- `src/p2p/backoff.rs` lines 59-62 say that pruning changes nothing but the size of the map. It
  does not change readiness from then on (`DialBackoffs.PruneIsInvisible`), but it forgets the
  failure count: with the service's limits a peer's third failure is waited out for 1 second
  instead of 4 (`DialBackoffs.PruneShortensAWait`). The next wait is unchanged exactly as
  `DialBackoffs.PruneForgivesExactly` says, and nothing changes whatever happens later exactly when
  the base is zero or not below the cap, or no dropped entry counts a failure
  (`DialBackoffs.PruneChangesNothingExactly`).
- A close removes every equal address of the peer from the table (`src/p2p/network.rs` line 494),
  so a second connection from the same address is forgotten (`ConnectionHistory.TwinAddressVanishes`).

## Model

| member | source | states |
|---|---|---|
| ConnectionGuarantees.EveryReachableState | src/p2p/network.rs:371-382 | Every state that any run passes through, whatever the environment does, has all the guarantees of the next rows: table, counters, both limits, dial requests, protection and scores |
| ConnectionTable.TableInEveryRun | src/p2p/network.rs:433-496 | In every run: `connected` has a key for a peer iff the peer has a live connection; its list is the peer's live addresses in order of establishment, less those dropped with an equal closed one; every /24 counter is the number of live connections of that /24, rejected ones included, and no zero is stored; the gauge is the number of live connections |
| ConnectionTable.StepKeepsTable | src/p2p/network.rs:384-517 | Every single event or command keeps those four agreements |
| ConnectionTable.ClosedConnectionIsCounted | src/p2p/subnet.rs:57-66 | The saturating decrement at a close never meets a missing or zero counter |
| ConnectionLimits.LimitsInEveryRun | src/p2p/network.rs:526-549 | In every run, the peers that keep a connection admitted without protection number at most `high_water`, and the kept connections of one /24 admitted without protection at most `per_subnet_cap`, although closes are late and protection changes |
| ConnectionLimits.StepKeepsLimits | src/p2p/network.rs:384-517 | Every single turn keeps both limits |
| ConnectionLimits.EstablishedJudges | src/p2p/network.rs:526-549 | Over the watermark all connections of the newcomer's peer are asked to close, else over the subnet cap only the new one, else none; nothing else is tagged |
| ConnectionLimits.AdmissionExactly | src/p2p/network.rs:526-549 | Told from the live connections alone: an unprotected newcomer is asked to close exactly if there are then more than `high_water` connected peers or its /24 has `per_subnet_cap` live connections already; its peer's other connections exactly in the first case; nobody else's |
| ConnectionLimits.KeptPeersBound | src/p2p/network.rs:526-549 | In every such state all kept peers together are at most `high_water` plus those admitted under protection |
| ConnectionLimits.ProtectedNeverEvicted | src/p2p/network.rs:532-548 | While a peer stays protected, over any run, the loop asks for no close of any of its connections |
| ConnectionProtection.BootstrapNeverEvicted | src/p2p/network.rs:352-368 | In no run is a close of a bootstrap peer's connection asked for |
| DocumentedLimits.ConnectionWatermarkExactly | src/p2p/network.rs:526-549 | The number of connections kept without protection stays within `high_water` at every turn except exactly an establishment that finds as many already and is admitted for keeps without protection |
| DocumentedLimits.ConnectionWatermarkInRuns | src/p2p/network.rs:526-549 | Over a run that number never exceeds `high_water` iff every establishment found room or was not such an admission |
| ConnectionHistory.OnePeerTwoConnections | src/p2p/network.rs:534 | A legal run of two turns in which one unprotected peer keeps two connections with `high_water` 1 |
| DocumentedLimits.CurrentHighWaterExactly | src/p2p/network.rs:621-660 | In a reachable state, the watermark over the peers unprotected now is kept by every turn except exactly a replacement of the preferred set that leaves too many kept peers outside the bootstrap and the newly accepted ones |
| DocumentedLimits.CurrentHighWaterInRuns | src/p2p/network.rs:621-660 | Over a run it always holds iff every replacement leaves few enough |
| DocumentedLimits.CurrentSubnetCapExactly | src/p2p/network.rs:621-660 | The same of the cap per /24 over the kept connections of peers unprotected now: only a replacement can break it, and exactly one that leaves too many of a /24 without protection |
| DocumentedLimits.CurrentSubnetCapInRuns | src/p2p/network.rs:621-660 | Over a run that cap always holds iff no replacement does |
| ConnectionHistory.DemotionOverfillsSubnet | src/p2p/network.rs:633-641 | A legal run of four turns after which two unprotected peers of one /24 keep connections with `per_subnet_cap` 1 |
| ConnectionHistory.DemotionOverfills | src/p2p/network.rs:633-641 | A legal run of four turns in which the watermark over the peers unprotected now is exceeded |
| ConnectionRequests.RequestsInEveryRun | src/p2p/network.rs:559-585 | In every run and for every peer, the answered waiters followed by the queued ones are exactly those that asked, in order; a queue is never empty and its peer's dial is in flight |
| ConnectionRequests.IdleMeansAnswered | src/p2p/network.rs:497-507 | In every such state with no dial in flight every request has been answered |
| ConnectionRequests.AnsweredOnce | src/p2p/network.rs:452-457 | In every such state, when requests can be told apart, none is answered twice, and none that was answered still waits |
| ConnectionRequests.QueueFate | src/p2p/network.rs:452-507 | All waiters of a dial get the same verdict together and in order when the dial ends; any other turn leaves them waiting in order |
| ConnectionRequests.ConnectedIsJustified | src/p2p/network.rs:571-579 | Whoever is told it is connected has a peer that is connected or being dialed, and was so before if a command is answered at once; it is connected except exactly when a command meets no queue, is not dialed for, and finds its peer being dialed but not connected |
| ConnectionRequests.FailedIsJustified | src/p2p/network.rs:497-507 | Whoever is told of a failure is told the error of its peer's own dial, or the refusal of its own request |
| ConnectionHistory.ToldConnectedTooEarly | src/p2p/network.rs:575-579 | A legal run in which a request is told it is connected, the dial then fails and no connection ever existed |
| ConnectionHistory.AnsweredThenClosed | src/p2p/network.rs:452-480 | The waiters are told they are connected by a connection that is asked to close in the same turn exactly when it is over one of the limits |
| ConnectionProtection.ProtectionInEveryRun | src/p2p/network.rs:466-478 | In every run the protected set is the bootstrap peers and the keys of `dial_hints`, these are at most the cap, every connected peer is scored, and every peer the scorer remembers has 100 if it is protected and 0 if not, across demotion, disconnection and reconnection |
| ConnectionProtection.ShareOfHighWater | src/p2p/network.rs:624-625 | With a validated share the cap on preferred peers is at most `high_water` |
| ConnectionProtection.ShareInEveryRun | src/p2p/network.rs:624-627 | In every run the preferred peers number at most `high_water` times `max_protected_share` |
| ConnectionProtection.FirstEntriesAccepted | src/p2p/network.rs:624-628 | A replacement accepts the first entries, all of them or as many as that product allows and one more would exceed it, and replies with their number and the number of the others as 32-bit counts |
| ConnectionProtection.ProtectedAreFew | src/main.rs:72-97 | With a validated configuration, in every such state, the protected set is no larger than the bootstrap peers plus `high_water` |
| ConnectionProtection.HintOfDistinct | src/p2p/network.rs:643-655 | Every accepted peer's hint is its own addresses, when ids are distinct |
| ConnectionHistory.ListsCompleteExactly | src/p2p/network.rs:482-495 | Lists that show all live addresses keep doing so, except exactly when a connection closes whose address another live connection of its peer shares |
| ConnectionHistory.ListsCompleteInEveryTwinlessRun | src/p2p/network.rs:460-495 | In every run without such closes, each list is all live addresses of its peer in order of establishment |
| ConnectionHistory.TwinAddressVanishes | src/p2p/network.rs:494 | A legal run after which a connected peer has an empty list |
| ConnectionHistory.StoreIsReplay | src/p2p/network.rs:408-451 | In every run the store is that of the successful outbound connections and identify reports, replayed |
| ConnectionHistory.IdentifyRecordsTcp | src/p2p/network.rs:418-428 | An identify report records exactly those listen addresses that have a TCP component, and nothing if none has |
| ConnectionHistory.IdentifyStoresTcp | src/p2p/network.rs:408-429 | The last such address is in the store after the report, seen at that time |
| ConnectionHistory.StoredAddressesAreDialable | src/p2p/network.rs:440-451 | No inbound remote address is ever stored: each stored one was dialed with success or reported by its peer as a TCP listen address |
| EventLooping.EventLoop.constructor | src/p2p/network.rs:344-369 | The new loop is in the initial state of the state machine |
| EventLooping.EventLoop.Resolve | src/p2p/network.rs:499-505 | Answers a peer's whole queue in order and removes it |
| EventLooping.EventLoop.EnforceConnectionLimits | src/p2p/network.rs:526-549 | Counts the connection and requests the closes that the state machine's enforcement requests, changing nothing else |
| EventLooping.EventLoop.HandleConnectionEstablished | src/p2p/network.rs:433-481 | The whole new state after an establishment is the state machine's |
| EventLooping.EventLoop.HandleConnectionClosed | src/p2p/network.rs:482-496 | The whole new state after a close is the state machine's |
| EventLooping.EventLoop.HandleOutgoingConnectionError | src/p2p/network.rs:497-507 | A failed dial answers its waiters; an error without a peer changes nothing |
| EventLooping.EventLoop.HandleIdentifyReceived | src/p2p/network.rs:408-429 | Exactly the TCP listen addresses are recorded, and nothing if there are none |
| EventLooping.EventLoop.HandleDialCommand | src/p2p/network.rs:559-585 | Queues behind a dial in flight, or dials and queues or answers as the swarm says |
| EventLooping.EventLoop.HandleSetPreferredPeers | src/p2p/network.rs:621-661 | The two loops over the old and the new set produce the replaced protected set, hints and scores of the state machine, and the reply counts what was accepted and truncated as 32-bit numbers |
| EventLooping.EventLoop.NetworkSnapshot | src/p2p/network.rs:610-620 | The snapshot holds the connected peers, which are those with a live connection, and each dial hint once |
| EventLooping.EventLoop.GetPeers | src/p2p/network.rs:662-679 | Each connected peer once, with its list, and in every reachable state with application score 100 iff it is shown as preferred and 0 otherwise |
| EventLooping.EventLoop.Turn | src/p2p/network.rs:371-382 | One event after another is one step of the state machine after another |
| ConnectionGuarantees.RunIsTrace | src/p2p/network.rs:371-382 | Every legal sequence of events has its run: the guarantees are about all of them |
| EventLooping.Serve | src/p2p/network.rs:371-382 | From creation on, over any events the environment may produce, the loop is in the state the run prescribes, with all the guarantees |
| SubnetLimiting.SubnetLimits.OnConnection | src/p2p/subnet.rs:41-55 | Counts every connection and rejects exactly those that are not exempt, have an IPv4 component and find the counter of its /24 at `cap` or above |
| SubnetLimiting.SubnetLimits.OnDisconnection | src/p2p/subnet.rs:57-66 | Takes one connection off and stores no zero |
| SubnetLimiting.CountedThenUncounted | src/p2p/subnet.rs:41-66 | Counting and uncounting one connection restores the counters exactly |
| Addressing.SubnetIsOfFirstIp4 | src/p2p/subnet.rs:31-39 | The first IPv4 component alone decides the subnet; only an address without one has none |
| Addressing.SplitInvertsAppend | src/p2p/maintenance.rs:31-37 | Splitting gives a peer and an address exactly for what is that address with that peer appended |
| Addressing.UndialableExactly | src/p2p/maintenance.rs:41-47 | Undialable is exactly an address with a component in 127.0.0.0/8, or 0.0.0.0, ::1 or :: |
| PreferredRequests.ParseRequest | src/grpc.rs:232-257 | The parsed list is what the request means: each valid id once, in order of first mention, with the valid addresses given there |
| PreferredRequests.MeaningIsDistinct | src/grpc.rs:227-245 | What a request means names no id twice and has as many entries as there are distinct valid ids |
| PreferredRequests.RequestToHints | src/grpc.rs:232-263 | From request to table: the hints are all distinct valid ids, or as many of the first mentioned as the share of `high_water` allows and one more would exceed it, each with the valid addresses of its first mention; their number is what the reply gives as accepted |
| PreferredRequests.AddrsAreParsed | src/grpc.rs:246-255 | The valid addresses are what the strings parse to, in order when all parse |
| PreferredRequests.ReplyCountsValidIds | src/grpc.rs:227-267 | Accepted plus truncated is the number of distinct valid ids, exactly when neither count overflows 32 bits |
| DialBackoffs.DialBackoff.RecordFailure | src/p2p/backoff.rs:38-53 | No other peer's entry changes; the next attempt is the computed delay times 0.5 plus the draw after the failure; the peer is not ready before half that delay and is ready after one and a half of it |
| DialBackoffs.FailureWaits | src/p2p/backoff.rs:38-53 | The failure count grows by one and wraps at 32 bits, and the next attempt is 0.5 to 1.5 delays, at most 1.5 caps, after the failure |
| DialBackoffs.DialBackoff.Prune | src/p2p/backoff.rs:63-66 | No peer's readiness changes, from the moment of pruning on |
| DialBackoffs.DelayIsExactIff | src/p2p/backoff.rs:38-45 | The saturating computation is min(base * 2^(n-1), cap) for every n exactly when the cap is at most base * (2^32-1) |
| DialBackoffs.DelayGrows | src/p2p/backoff.rs:38-45 | More failures never shorten the delay |
| DialBackoffs.DelayReachesCap | src/p2p/backoff.rs:38-45 | From the 33rd failure on the delay is the cap |
| DialBackoffs.JitterBounds | src/p2p/backoff.rs:44-45 | The applied delay lies in [0.5, 1.5) times the computed one |
| DialBackoffs.JitterSpreads | src/p2p/backoff.rs:44-45 | Every wait in [0.5, 1.5) delays is drawn by exactly one random number, and no other wait is |
| DialBackoffs.NextAttemptBound | src/p2p/backoff.rs:38-53 | In every reachable table the next attempt is 0.5 to 1.5 delays, and so at most 1.5 caps, after the peer's last failure |
| DialBackoffs.ReadyInTheEnd | src/p2p/backoff.rs:31-36 | A peer is ready 1.5 caps after its last failure, whatever happened |
| DialBackoffs.SuccessForgives | src/p2p/backoff.rs:55-57 | After a success the peer has no entry and is ready at any time |
| DialBackoffs.OnlyFailuresSinceSuccess | src/p2p/backoff.rs:38-57 | An entry counts no more than the failures since the last success, and exactly these, modulo 2^32, if nothing was pruned |
| DialBackoffs.PruneIsInvisible | src/p2p/backoff.rs:59-66 | Pruning changes no peer's readiness from then on; for earlier instants it changes exactly that of the dropped peers still waiting |
| DialBackoffs.PruneShortensAWait | src/p2p/backoff.rs:59-66 | With the service's limits, a third failure at 1000 is waited out until 1004, but only until 1001 if the entry was pruned just before |
| DialBackoffs.PruneForgivesExactly | src/p2p/backoff.rs:38-66 | The next failure's wait is that without the pruning exactly if the peer's entry was not dropped or its count makes no difference to the delay |
| DialBackoffs.PruneChangesNothingExactly | src/p2p/backoff.rs:59-66 | The pruned table is indistinguishable by readiness, after any later operations and from then on, exactly if all delays are equal (base zero or not below the cap) or no dropped entry counts a failure |
| DialBackoffs.HistoryContinues | src/p2p/backoff.rs:31-66 | Later operations continue the table of the history before them, so the above is about histories |
| DialBackoffs.PruneBoundsMemory | src/p2p/backoff.rs:59-66 | After pruning the table has only peers that failed within the last 2.5 caps, and no more entries than there are such peers |
| DialBackoffs.AttemptsAreSpaced | src/p2p/backoff.rs:31-57 | Along a streak of k failures of ready peers the last one is at least half the sum of the first k-1 delays after the first, and the next attempt half the sum of all k, whatever other peers and prunings are interleaved |
| DialBackoffs.AttemptsAreSpacedExactly | src/p2p/backoff.rs:6-8 | With a low enough cap and fewer than 2^32 failures that sum is of the documented delays |
| PeerStorage.PeerStore.Record | src/p2p/peerstore.rs:53-76 | The loop pushes the addresses one by one onto the peer's list and sets its time; no other peer changes |
| PeerStorage.PeerStore.DialCandidates | src/p2p/peerstore.rs:78-94 | Exactly the pairs of a peer seen within `max_age` and one of its addresses, each once if the lists have no duplicates |
| PeerStorage.ListIsNewestAppended | src/p2p/peerstore.rs:67-75 | From empty, the list is the newest eight of the addresses appended, without duplicates, and holds the last one passed |
| PeerStorage.StoreRefinesHistory | src/p2p/peerstore.rs:53-94 | After any calls from the empty store the same holds of every peer's list, and a pair is a candidate exactly when the peer's latest call is recent enough and its list has the address |
| Maintaining.Pick | src/p2p/maintenance.rs:123-124 | A shuffle cut off is a selection of as many candidates as fit, none of them used twice |
| Maintaining.Maintenance.constructor | src/p2p/maintenance.rs:57-65 | The bootstrap pairs are exactly those whose address with the peer appended was configured |
| Maintaining.Maintenance.BuildCandidates | src/p2p/maintenance.rs:91-154 | The candidates are as the next three rows say |
| Maintaining.PlanOfBootstrap | src/p2p/maintenance.rs:93-103 | All bootstrap entries in order, each with its own address, if none of their peers is connected; none otherwise |
| Maintaining.PlanOfPreferred | src/p2p/maintenance.rs:105-125 | As many of the missing preferred peers as there are up to 16, each unconnected and with exactly its dialable addresses |
| Maintaining.PlanOfRefill | src/p2p/maintenance.rs:127-154 | Below low water as many of the unconnected dialable stored pairs as there are up to the missing peers plus 2; none otherwise |
| Maintaining.OrderOfDials | src/p2p/maintenance.rs:156-169 | Dials follow one another in the order bootstrap, preferred, refill, each of the candidate at its place |
| Maintaining.DialAll | src/p2p/maintenance.rs:156-177 | The dials are of pairwise distinct, unconnected peers, one at a time in candidate order, each ready when dialed; no candidate that is unconnected and ready at the start is left out; the table records every outcome; a peer that was reached has no entry afterwards, one that was not has one more failure and its wait, all others what they had |
| Maintaining.Maintenance.Tick | src/p2p/maintenance.rs:67-180 | A whole turn of the loop: the plan and the dials as above, judged by the pruned table, and the table stays the history of all prunings and dials, each failed dial begun when ready; what each dial leaves in the table is as for `DialAll` |
| Maintaining.OthersUntouched | src/p2p/backoff.rs:38-57 | Recording the outcomes of other peers does not touch a peer's entry |
| Maintaining.BootstrapIsNotStarved | src/p2p/maintenance.rs:81-103 | If no bootstrap peer is connected, each one that has not failed for 1.5 caps is dialed in this tick, at the address of an entry of its own, before any preferred or refill candidate, whatever these are |
| MaintenanceRuns.BootstrapIsDialedAgain | src/p2p/maintenance.rs:67-180 | While no bootstrap peer is connected, the next dial of a bootstrap peer begins at most 1.5 caps, one pause and two turns of the loop after its last dial was done, whatever else the turns dial |
| MaintenanceRuns.FailuresArePast | src/p2p/maintenance.rs:165-176 | When a turn starts, all failures on record are past |
| MaintenanceRuns.Loop | src/p2p/maintenance.rs:65-180 | The loop over any snapshots is such a sequence of turns, from the empty backoff table on and with at least the interval between them |
| Maintaining.TickBudget | src/p2p/maintenance.rs:127-154 | A tick makes at most the bootstrap entries plus 16 dials, and below low water at most as many more as peers are missing, plus 2 |
| MaintenanceRuns.TickTime | src/p2p/maintenance.rs:14-22 | A tick spends at most its budget of dials times DIAL_TIMEOUT on dialing, whatever the hints and the store contain |
| Maintaining.SuggestedAddressesAreClean | src/p2p/maintenance.rs:39-47 | No preferred or refill dial carries a loopback or unspecified address, or none at all |
| Maintaining.MissingPreferredAreDialed | src/p2p/maintenance.rs:105-125 | While at most 16 preferred peers are missing, every one that is ready and has a dialable address is dialed in the tick |
| Maintaining.KnownPeersAreDialed | src/p2p/maintenance.rs:127-154 | Below low water, while there are no more dialable stored pairs of unconnected peers than peers missing plus 2, every stored peer that is unconnected, ready and has a dialable address is dialed in the tick |
| Maintaining.HistoryOfDials | src/p2p/maintenance.rs:165-176 | A tick's dials extend the backoff history by failures of ready peers only |
| Cursors.OffsetIsSum | patches/core2-0.4.0/src/io/cursor.rs:205-209 | The unsigned detour with a wrapping negation computes the signed sum, or nothing if it leaves the u64, also for the least i64 |
| Cursors.Cursor.Seek | patches/core2-0.4.0/src/io/cursor.rs:195-220 | `Start(n)` leads to the bytes from n on; `End(d)` to the length plus d, so that `End(-k)` leads to the last k bytes; `Current(d)` to the position plus d; each fails, with InvalidInput and nothing moved, exactly if that is no unsigned 64-bit number |
| Cursors.Cursor.Read | patches/core2-0.4.0/src/io/cursor.rs:226-230 | Delivers as many of the remaining bytes as fit, touches nothing else of the buffer and moves by as many |
| Cursors.Cursor.ReadExact | patches/core2-0.4.0/src/io/cursor.rs:232-237 | Fills the buffer, or with too few bytes left changes neither buffer nor position |
| Cursors.Cursor.Consume | patches/core2-0.4.0/src/io/cursor.rs:248-250 | Adds any amount, wrapping at 64 bits; without a wrap it moves over the bytes there are, and past the end if there are too few |
| Cursors.Cursor.Write | patches/core2-0.4.0/src/io/cursor.rs:253-260 | Overwrites as much as fits at the position and nothing else |
| Cursors.Cursor.WriteAll | patches/core2-0.4.0/src/io/traits.rs:717-732 | Writes all, or as much as fits and WriteZero exactly when it does not fit |
| Cursors.WrittenPart | patches/core2-0.4.0/src/io/impls.rs:68-90 | In what the contracts call overwritten, the written bytes are there and all others are as before |
| Cursors.WriteThenReadBack | patches/core2-0.4.0/src/io/cursor.rs:195-260 | What was written is read back after seeking back by as much |
| BufReaders.BufReader.FillBuf | patches/core2-0.4.0/src/io/buffered.rs:222-233 | Over the cursor: shows bytes at the logical position, none only at the end, and does not move it |
| BufReaders.BufReader.Consume | patches/core2-0.4.0/src/io/buffered.rs:235-237 | Moves over shown bytes only |
| BufReaders.BufReader.Read | patches/core2-0.4.0/src/io/buffered.rs:204-218 | Over the cursor: buffered or bypassed, delivers the bytes at the logical position and moves it by as many; none only if none were asked for or none are left |
| BufReaders.BufReader.Seek | patches/core2-0.4.0/src/io/buffered.rs:275-298 | The same from the logical position, also when the offset underflows an i64, with the cursor left where the seek leads and an empty buffer; a failed seek leaves the logical position, and the buffer too unless the offset underflowed |
| BufReaders.BufReader.ReadExact | patches/core2-0.4.0/src/io/traits.rs:351-371 | Over the buffered reader, delivers the next bytes or UnexpectedEof exactly when too few are left |
| BufReaders.PerformAll | patches/core2-0.4.0/src/io/buffered.rs:195-298 | Any interleaving of reads, fills, consumes and seeks is one of an unbuffered stream over the same bytes |
| BufReaders.ReadsAreContiguous | patches/core2-0.4.0/src/io/buffered.rs:203-238 | Over any reads and fills, whatever their sizes, the bytes read are the stream from the first logical position to the last, once and in order |
| BufferedReaders.Buffered.FillBuf | patches/core2-0.4.0/src/io/buffered.rs:222-233 | Over any reader: shows a prefix of what is ahead; what it held is shown without a refill; a failing refill leaves buffer, position and what is ahead as they were |
| BufferedReaders.Buffered.Consume | patches/core2-0.4.0/src/io/buffered.rs:235-237 | Takes the amount, or all that is buffered |
| BufferedReaders.Buffered.Read | patches/core2-0.4.0/src/io/buffered.rs:204-218 | Over any reader, buffered or bypassed: delivers the next bytes, none only if none were asked for or none are ahead; a failure delivers and loses nothing |
| BufferedReaders.Buffered.ReadExact | patches/core2-0.4.0/src/io/traits.rs:351-371 | The default loop over it: on every outcome the bytes taken are the next ones and are in the buffer; with interruptions only, UnexpectedEof exactly if too few are ahead |
| Readers.Chain.Read | patches/core2-0.4.0/src/io/traits.rs:1131-1139 | Delivers from the first reader and then the second what is ahead of both together, as much at once as a source does that is read directly; an empty request does not end the first |
| Readers.Chain.FillBuf | patches/core2-0.4.0/src/io/traits.rs:1152-1162 | Shows a prefix of what is ahead of both, empty only at the end |
| Readers.Chain.Consume | patches/core2-0.4.0/src/io/traits.rs:1164-1170 | Takes from the reader that showed the bytes what that reader takes for the amount |
| Readers.Take.Read | patches/core2-0.4.0/src/io/traits.rs:1320-1330 | Delivers from the first `limit` bytes ahead of the inner reader, as much at once as fits, and takes nothing beyond |
| Readers.Take.FillBuf | patches/core2-0.4.0/src/io/traits.rs:1346-1355 | Shows no byte beyond the limit, and none only at the end or the limit; the limit and what is beyond it stay |
| Readers.Take.Consume | patches/core2-0.4.0/src/io/traits.rs:1357-1362 | Cuts any amount to the limit, takes that much, lowers the limit by it and leaves what is beyond the limit; only the cut amount must have been shown |
| Readers.ReadExact | patches/core2-0.4.0/src/io/traits.rs:351-371 | Over short reads and interruptions: the bytes taken are the next ones and are in the buffer, on every outcome; with interruptions only, Ok if enough bytes are ahead and UnexpectedEof exactly if not |
| Readers.Extend | patches/core2-0.4.0/src/io/traits.rs:51-67 | A full vector gets room for 32 bytes, or for what a `Take` may still deliver if that is less, and none if that is nothing |
| Readers.ReadToEnd | patches/core2-0.4.0/src/io/traits.rs:37-83 | Appends exactly all that is ahead; on an error exactly what was read until then; ends although interrupted, and only ever fails with an error of the source that is no interruption |
| Readers.Vec.Reserve | patches/core2-0.4.0/src/io/traits.rs:62-64 | Makes the requested room, keeping the contents |
| Readers.ServeAll | patches/core2-0.4.0/src/io/traits.rs:1130-1363 | Any interleaving of reads, fills and consumes on any reader, short, interrupted or failing, does step by step what a stream may do |
| Readers.TakenInOrder | patches/core2-0.4.0/src/io/traits.rs:1130-1363 | What such operations took, and then what is still ahead, is what was ahead |
| Readers.Drain | patches/core2-0.4.0/src/io/traits.rs:1130-1363 | The two together: operations take what is ahead piece by piece and lose nothing |
| Readers.TakeOfChain | patches/core2-0.4.0/src/io/traits.rs:1319-1343 | A `Take` over a `Chain` delivers exactly the first `limit` bytes of the one followed by the other, whatever reads, fills and consumes come before reading to the end, and leaves the rest of the chain untouched |

## Left out

- The libp2p swarm, transports, gossipsub and identify: the rules above are what is assumed of them; of the score only the application part is modelled, with a scorer that ignores untracked peers and starts new ones at 0.
- The string forms of peer ids and multiaddresses: parsers are parameters of `PreferredRequests`, and the peer store is modelled on the values, its printing and parsing taken to be lossless.
- Channels, `select!`, `async` and the dial timeout: an event, a command or the outcome of a dial is one atomic step with any result the environment may choose, a timeout being a failed dial.
- The set of dials in flight: one per peer, so a peer that is being dialed by command and by the swarm at once is not modelled.
- Subscriptions, publishing, listening, the identify command, metrics other than the connection gauge, the HTTP and gRPC servers, configuration files and logging.
- Loading and saving the peer store: a loaded file may exceed the eight addresses; the histories start from the empty store.
- `classify_dial_error`: a match on error variants.
- Rounding: instants, durations, the jitter and the protected share are reals, so `mul_f64`, the nanosecond resolution and the `f32` product are exact; adding to an instant does not overflow.
- Machine words: the 32-bit failure count wraps as in a release build and the reply counts are truncated to 32 bits, but collection sizes and the subnet counters are unbounded.
- EventLooping.EventLoop.HandleSetPreferredPeers: iteration over the protected set is in an arbitrary order, as over the hash set of the code.
- `BufWriter`, `LineWriter`, formatting, `Bytes`, `read_to_string`, uninitialised memory and the initializers of the reader stack.
- BufReaders.BufReader.Read: over the cursor, which can seek and whose reads never fail; failing refills are in `BufferedReaders`, which does not seek.
- Cursors.Cursor.Consume: wraps as a release build does, where a debug build panics.
- Readers.Chain.Consume: amounts that the reader in turn may not take, as none of those bytes were shown, are not modelled; the trait forbids them.
- ConnectionProtection.ShareOfHighWater: the product is a real, where the `f32` of the code may round a `high_water` beyond 2^24 up.
- EventLooping.EventLoop.GetPeers: the score is the application part of the gossipsub score.
- MaintenanceRuns.TickTime: a timeout strikes exactly on time, and the time between dials is not part of the sum.
- Readers.Chain.Read: the generic parameters of the adaptors are a datatype of the three kinds of readers, dispatched by a match; a source that reports its end before it is at its end is not modelled.
- Readers.ReadToEnd: the panic on a reader that reports more bytes than asked for cannot arise here, and vectors have no largest size.
