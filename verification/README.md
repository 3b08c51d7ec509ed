# meshwarden-daemon, verified model

The daemon shares one MeshCore radio node between many clients and keeps an archive that has to
agree with what the node and the air traffic said. This project models the parts where that is hard,
and proves what they keep over every interleaving, every run and every input.

asyncio is modelled by state machines whose steps are what runs between two `await`s; locks, queues,
events and futures are explicit state, and a run is any sequence of enabled steps. The objects whose
methods update fields (`FrameParser`, `ResponseCache`, `DeviceManager`, `ChannelStore`,
`ChannelTracker`, `PacketStore`, `MessageStore`, `PingManager`, ...) are classes, their loops are
loops, and each method is proved to compute a specification function, about which the lemmas speak.

| file | what it models |
|---|---|
| `Bytes.dfy` | byte strings and the protocol's little-endian numbers |
| `Framing.dfy`, `ResponseCache.dfy`, `ProxyCoherence.dfy` | the proxy: incremental frame parser, response cache, and coherence of the cache over all client interleavings |
| `CommandSlot.dfy` | the device-wide command slot: responses are matched to commands by order alone |
| `MessagePump.dfy` | the wake-up protocol of the message pump |
| `ChannelTable.dfy`, `ChannelTracker.dfy`, `ChannelConvergence.dfy`, `ChannelRuns.dfy` | the `channels` table with its constraints, a full refresh, the table under concurrent SET_CHANNELs, resyncs and refreshes, and what particular runs come to |
| `GroupText.dfy`, `Backfill.dfy`, `Attribution.dfy`, `AttributionHistory.dfy` | decrypting group texts, the backfill's index and decision rule, one and two runs over the messages, and the life of an attribution over all histories |
| `PacketLog.dfy`, `PacketRetention.dfy`, `PagedScan.dfy`, `PacketStats.dfy` | the packet log, hourly aggregates, pruning, paged scans, and daily roll-up |
| `TraceFrames.dfy`, `TracePing.dfy` | the trace frame layout and concurrent probes |
| `LastHeard.dfy`, `Migration.dfy` | contact times against their SQL repair, and schema upgrades across crashes |

## What is assumed of the environment

- **Command slot.** The node answers commands in order, each with a complete answer: nothing for
  REBOOT, START CONTACT\* terminator (or one terminating frame) for the contact list, one frame for
  anything else. No command is given up while the node still owes frames;
  `CommandSlot.AbandonIsSafeExactlyWhenIdle` shows that this is exactly what is needed. The codes
  GET_CONTACTS = 4 and GRP_TXT = 5 come from the companion protocol, REBOOT = 19 from
  `meshwarden_daemon/grpc_api/service.py:170`; the `meshcore` library is not part of this model.
- **Cache.** Hits for a key are current while its answer changes only through proxied mutating
  commands that return normally; what other answers do, such as the battery level that changes by
  itself, does not matter. gRPC setters, timed-out commands and client write errors never reach
  `cache.clear()`; after one of them hits are current again from the next return of a mutating
  command on, or once more than the TTL has passed since a moment at which no answer for the key was
  being collected. Where hits come from, and that clients read their own writes, needs no assumption.
- **Channel tracking.** A `SET_CHANNEL` that times out takes effect, if at all, before the time-out is
  reported. Such a slot, a slot whose resync failed, a slot whose read was answered with an error
  that says nothing about it (which the daemon takes for a free slot), slots beyond the number that a
  device query reported too low, and any slot changed behind the daemon's back count as owed a read
  until they are read. Nothing else is asked of the node: with nothing outstanding, the table is wrong
  exactly about the slots whose row was taken along when their secret, which the node held in another
  slot too, was placed there (`robbed`). Nobody is robbed if each slot, when it is answered for, shares
  its secret with no other slot that is not owed a read (`Clean`), and so if the node never holds a
  secret twice.
- **Message pump.** A message that arrives while the node is connected raises MESSAGES_WAITING.
- **Clock.** Any non-decreasing clock, for the cache and for the probes.

## What the proofs found

- One packet without an SNR resets its hour's `min_snr`/`max_snr`, because SQLite's scalar MIN and
  MAX are NULL as soon as one argument is; `PacketLog.MinIsExactExactlyWhen` and
  `PacketLog.MaxIsExactExactlyWhen` say when they are right.
- A `get_msg` that is answered with an error, or raises, strands fetchable messages until something
  sets the flag again. This is the only way (`MessagePump.StrandedExactlyWhenGivenUp`), except that
  `MeshCoreProxy.stop` lifts the clients' claim on the messages without poking the pump.
- A secret that sits in two slots, even for a while, can leave the table wrong with nothing
  outstanding, until the next refresh: `ChannelRuns.SharedAnswerMisleads`,
  `ChannelRuns.PastDuplicateMisleads`.
- A transient error reply to `get_channel` clears an occupied slot, and nothing remembers to read it
  again: `ChannelRuns.ErringAnswerAgreesExactlyWhen`.
- A command given up too early makes the next one return the wrong answer, and one that mutates
  leaves a stale hit unless the cache is empty: `CommandSlot.AbandonIsSafeExactlyWhenIdle`,
  `ProxyCoherence.AbandonIsHarmlessExactlyWhen`.
- Message ids are used again once the newest rows are pruned. A prune during a backfill can so make
  the backfill overwrite the final attribution of a new message. `AttributionHistory.Safe` is the exact condition.
- A second backfill can resolve a message that the first left open, because settled messages no
  longer widen the scan window; it never changes what the first one settled.
- Daily statistics of packets from before 1970 fall on another day than the packets, because
  SQLite's `%` truncates: `PacketStats.DayOfHour`.
- The v3 repair, documented to be kept in step with `reported_last_heard`, differs from it when the
  only trusted time is negative: `LastHeard.RepairAgreesExactlyWhen`. Nothing shows that a device ever
  reports a negative time, so this may have no effect in practice.

## Model

| member | source | states |
|---|---|---|
| Framing.FrameParser.Feed | meshwarden_daemon/proxy.py:77-97 | one call returns the frames, and leaves the residual, that a byte-at-a-time reference parser finds in the buffer plus the new data |
| Framing.ChunkingInvariance | meshwarden_daemon/proxy.py:77-97 | any split of any stream, from any buffer, yields the frames and residual of feeding it at once |
| Framing.ParseAppend | meshwarden_daemon/proxy.py:77-97 | parsing can stop after any prefix and resume from the residual |
| Framing.StreamDecomposes | meshwarden_daemon/proxy.py:81-96 | every stream is junk bytes at which no acceptable header starts, frames of allowed size, and an unfinished residual, and the frames are the parser's |
| Framing.DecompositionIsUnique | meshwarden_daemon/proxy.py:81-96 | any such decomposition gives exactly the parser's frames and residual |
| Framing.DecompositionSpells | meshwarden_daemon/proxy.py:81-96 | such a decomposition spells the stream: no byte is lost, repeated or moved |
| Framing.ResidualIsBounded | meshwarden_daemon/proxy.py:87-94 | at most 302 bytes are kept between calls, and only an unfinished frame; every frame has 1 to 300 bytes |
| Framing.RoundTrip | meshwarden_daemon/proxy.py:130-134 | framed payloads of 1 to 300 bytes, cut in any way, parse back exactly with nothing left over |
| Framing.SurvivesExactlyWhen | meshwarden_daemon/proxy.py:90-92 | a framed payload parses back alone exactly when its size is 1 to 300 |
| ResponseCache.Cache.Lookup | meshwarden_daemon/proxy.py:105-113 | the frames of an entry no older than the TTL, deleting an expired one |
| ResponseCache.Cache.Store | meshwarden_daemon/proxy.py:115-117 | stores under the current time, and only with a positive TTL |
| ResponseCache.GetRefinesTheLog | meshwarden_daemon/proxy.py:100-120 | after any calls, `get` gives the frames of the key's latest `set` since the last `clear`, exactly when the TTL is positive and its age at most the TTL; deletions are unobservable |
| ResponseCache.EntriesMatchTheLog | meshwarden_daemon/proxy.py:100-120 | an entry is its key's latest `set`, and a surviving `set` without an entry has expired |
| ProxyCoherence.MeshCoreProxy.Consult | meshwarden_daemon/proxy.py:226-238 | exactly the five reads, by name, are looked up; hits are served and counted, and every command is counted |
| ProxyCoherence.MeshCoreProxy.Conclude | meshwarden_daemon/proxy.py:240-254 | a returned command that is neither one of the five reads nor unknown empties the cache, a read with frames is stored, and a failed command changes nothing; an unavailable device is answered with one error frame |
| ProxyCoherence.CommandsByName | meshwarden_daemon/proxy.py:37-67 | command by command: exactly the five reads are cached, all others the proxy knows of flush the cache, and commands it does not know leave it alone |
| ProxyCoherence.HitsAreCurrent | meshwarden_daemon/proxy.py:223-254 | over every interleaving, with no mutating command in flight, a hit for a key is what the node would answer now, if all steps since the start, or since some mutating return, or since a moment more than the TTL ago with no answer for it being collected, were clean for that key; whatever happened before, and to other answers |
| ProxyCoherence.EveryHitIsCurrent | meshwarden_daemon/proxy.py:223-254 | so where the steps were clean for all keys, all hits are current |
| ProxyCoherence.MutatingReturnRestores | meshwarden_daemon/proxy.py:251-252 | the return of a mutating command makes the cache coherent, whatever state it was in |
| ProxyCoherence.StepKeepsCoherent | meshwarden_daemon/proxy.py:223-254 | the invariant behind it, which every step that is clean for a key keeps: its entry, unless it is a given left-over one, and any answer to it collected and not yet stored, is the node's present answer |
| ProxyCoherence.AbandonIsHarmlessExactlyWhen | meshwarden_daemon/proxy.py:247-252 | giving up a mutating command keeps the cache coherent, whatever the command did, if and only if nothing is cached |
| ProxyCoherence.AbandonCannotShowExactlyWhen | meshwarden_daemon/proxy.py:105-113 | and no client can be served a stale answer right after it if and only if all entries have expired |
| ProxyCoherence.DriftIsHarmlessExactlyWhen | meshwarden_daemon/proxy.py:253-254 | a change of the node behind the proxy's back keeps it coherent if and only if nothing is cached and no answer is being collected |
| ProxyCoherence.NoHitPredatesAMutation | meshwarden_daemon/device.py:146-153 | with no assumption on the node, a hit after a mutating handler returned serves frames that the node gave at a step after that return, so no answer collected before it and stored later |
| ProxyCoherence.HitsAreAtMostTtlOld | meshwarden_daemon/proxy.py:105-117 | whatever changes the node at whatever moment, a hit is an answer that the node gave to a command for that key which held the slot from then on and returned within the last TTL seconds |
| ProxyCoherence.AbandonedMutationLeavesStaleHit | meshwarden_daemon/proxy.py:247-252 | a mutating command that takes effect but times out leaves the old answer to be served |
| CommandSlot.TerminalIsLast | meshwarden_daemon/device.py:183-188 | the terminal test picks out the last frame of a complete answer and no other |
| CommandSlot.DeviceManager.DispatchFrame | meshwarden_daemon/device.py:192-194 | a frame is queued for the waiting raw command exactly when it is not empty and begins with a byte below 0x80 |
| CommandSlot.DeviceManager.Receive | meshwarden_daemon/device.py:169-179 | takes, streams and returns the frames routed to it up to the first terminal one, unless the deadline, or a failing client or cancellation, comes before that |
| CommandSlot.DeviceManager.RawCommandLocked | meshwarden_daemon/device.py:155-181 | the same for all frames that arrive before and after `send` returns, pushes among them; the queue is uninstalled on every path, also when `send` or the streaming raises |
| CommandSlot.DeviceManager.RawCommand | meshwarden_daemon/device.py:127-153 | an empty frame and a missing connection are refused without touching the queue; otherwise the same, the command listeners hear of it exactly when it returned, and an answer spelt in the protocol's bytes, with pushes anywhere among it, is returned and streamed whole |
| CommandSlot.AnswerIsReturned | meshwarden_daemon/device.py:170-179 | if what is routed is the complete answer, it is returned and streamed exactly, if and only if the deadline leaves time for all of it and no failure comes first; otherwise just which part of it is streamed |
| CommandSlot.BytesAreReturned | meshwarden_daemon/device.py:165-194 | in bytes: a contact list 2, 3, 3, ..., other, or the one frame of any other command, comes back whole whatever pushes (0x80 and up) arrive in between |
| CommandSlot.StepKeepsInv | meshwarden_daemon/device.py:146-181 | each step keeps: frames taken, queued and still owed make up the holder's answer, in order |
| CommandSlot.EveryRawCommandGetsItsAnswer | meshwarden_daemon/device.py:118-194 | in every run of raw commands, library commands and pushes, each raw command that returned has returned and streamed exactly the node's answer to it, each that is in flight or was given up has streamed a first part of its answer, and the queue is installed exactly while one holds the slot |
| CommandSlot.AbandonIsSafeExactlyWhenIdle | meshwarden_daemon/device.py:172-181 | after a command is given up, every later command in every run returns its own answer if and only if the node owed nothing |
| CommandSlot.OwedFrameIsMisattributed | meshwarden_daemon/device.py:172-181 | while a frame is owed to nobody, the next single-frame command returns that frame and leaves its own owed |
| MessagePump.Device.PumpTurn | meshwarden_daemon/device.py:339-354 | one turn clears the flag and fetches messages until fetching is no longer open, or `get_msg` gives something else than a message or raises, wherever that happens; how many it fetched and asked for |
| MessagePump.StepKeepsInv | meshwarden_daemon/device.py:332-354 | each step keeps: fetchable messages behind a sleeping pump without the flag have one of the listed excuses |
| MessagePump.NoLostWakeUp | meshwarden_daemon/device.py:324-354 | in every run without error replies, exceptions and a proxy stop, fetchable messages imply that the flag is set or the pump will ask again |
| MessagePump.AsksExactlyWhen | meshwarden_daemon/device.py:324-347 | the pump begins to ask exactly when it wakes, or its pause is over, with the node connected, and fetching is always allowed or left to it by there being no client |
| MessagePump.NothingIsTakenUnasked | meshwarden_daemon/device.py:324-350 | over every run, a request under way was made at a moment when just that held: no message is taken that is a client's to fetch |
| MessagePump.UndisturbedTurn | meshwarden_daemon/device.py:338-350 | a wake-up that nothing disturbs empties the node's queue, and leaves the flag down and the pump asleep |
| MessagePump.StrandedOnlyWhenExcused | meshwarden_daemon/device.py:324-354 | in every run at all, messages are stranded only after an error or exception, or between the proxy's stop and the end of a handler |
| MessagePump.StrandedExactlyWhenGivenUp | meshwarden_daemon/device.py:338-354 | over every run, fetchable messages behind a sleeping pump, with no handler left over from a proxy stop, are stranded if and only if the pump gave up on an error reply or exception and nothing has set the flag since |
| MessagePump.StrandedUntilPoked | meshwarden_daemon/device.py:338-344 | a stranded pump stays so until a message arrives, the daemon stops, a handler leaves no client behind, or the messages cease to be fetchable |
| MessagePump.ProxyStopStrandsUntilAHandlerEnds | meshwarden_daemon/proxy.py:163-173 | stopping the proxy with clients connected strands the queue until the first handler ends, which pokes the pump |
| ChannelTable.UpsertKeepsValid | meshwarden_daemon/storage/repositories.py:289-299 | recording a channel keeps UNIQUE(secret), UNIQUE(slot) and fresh ids, and moves no row |
| ChannelTable.EvictKeepsValid | meshwarden_daemon/storage/repositories.py:304 | evicting keeps the constraints and leaves the slot to the given row at most |
| ChannelTable.SetSlotSucceeds | meshwarden_daemon/storage/repositories.py:305 | after the eviction the last UPDATE never meets UNIQUE(slot), and places just that row |
| ChannelTable.SetSlotFailsExactlyWhen | meshwarden_daemon/storage/database.py:104 | the last UPDATE is refused exactly when its result would have two rows in one slot |
| ChannelTable.AssignSlotPlaces | meshwarden_daemon/storage/repositories.py:301-306 | `assign_slot` never breaks a constraint, moves the secret's row to the slot, evicts the slot's other occupant and leaves every other row in place |
| ChannelTable.AssignSlotRows | meshwarden_daemon/storage/repositories.py:289-306 | it loses no row and changes no id or first-seen time; only the assigned row is renamed |
| ChannelTable.ClearKeepsValid | meshwarden_daemon/storage/repositories.py:308-309 | clearing a slot takes just its occupant off the device |
| ChannelTable.ClearFromKeepsValid | meshwarden_daemon/storage/repositories.py:311-312 | clearing from a slot on takes just the occupants of those slots off the device |
| ChannelTable.ChannelStore.Assign | meshwarden_daemon/storage/repositories.py:301-306 | the three statements in sequence yield the specified table and the row's id |
| ChannelTracker.Tracker.ReadSlot | meshwarden_daemon/channels.py:46-52 | after the read the slot has exactly the channel that the answer names, by a name or a byte of its secret that is not zero, and none if it names none or is an error; other channels stay where they are |
| ChannelTracker.Tracker.Refresh | meshwarden_daemon/channels.py:34-43 | the slot loop and the final clearing leave each secret at the greatest slot whose answer names it, and nowhere else; a failed device query leaves the table alone |
| ChannelTracker.RefreshPlaces | meshwarden_daemon/channels.py:34-52 | from any table, a refresh of a stable node puts each secret at the greatest slot holding it and takes every other row off the device: the node alone decides |
| ChannelTracker.ReadShows | meshwarden_daemon/channels.py:46-52 | what a slot's answer names, byte by byte, is what the table shows for the slot afterwards |
| ChannelTracker.RefreshShows | meshwarden_daemon/channels.py:34-52 | the same for a whole refresh and the greatest slot that names a secret |
| ChannelTracker.RefreshRows | meshwarden_daemon/channels.py:34-52 | no row is lost and no id changed; the node's secrets are added and named after their greatest slot, other rows keep their names |
| ChannelTracker.RefreshAgreesExactlyWhen | meshwarden_daemon/channels.py:34-52 | a refreshed table shows the node's slots if and only if the node holds no secret twice |
| ChannelConvergence.StepKeepsInv | meshwarden_daemon/channels.py:34-85 | every step between two awaits, erring answers, failures and duplicates among them, keeps: a slot with nothing outstanding agrees with the node, or was robbed and is shown empty; answers in flight are true or owed again; the constraints hold |
| ChannelConvergence.QuietSlotAgreesExactlyWhen | meshwarden_daemon/channels.py:34-85 | in every interleaving of SET_CHANNELs, failures, resyncs and refreshes, whatever the node does, the table agrees with it about a slot with nothing outstanding if and only if the slot was not robbed by the answer for another |
| ChannelConvergence.SettledTableIsTheNode | meshwarden_daemon/channels.py:34-85 | with nothing outstanding at all, the table's slots are the node's without the robbed ones, so exactly the node's if and only if none was robbed |
| ChannelConvergence.AssignNeverFails | meshwarden_daemon/storage/repositories.py:301-306 | in no reachable state at all, duplicates on the node included and statements interleaved with others, is a constraint broken or does `assign_slot` meet UNIQUE(slot) |
| ChannelRuns.CleanSlotsAgree | meshwarden_daemon/channels.py:34-85 | in every run in which each slot answered for shares its secret with no other slot that is not owed a read, no slot with nothing outstanding was robbed, and each agrees with the node |
| ChannelRuns.NeverTwiceIsClean | meshwarden_daemon/channels.py:34-85 | runs on a node that never holds a secret twice are such runs |
| ChannelRuns.RefreshReaches | meshwarden_daemon/channels.py:34-43 | from any table and on any node, the steps of an undisturbed refresh lead to the table that a refresh of an unchanging node is specified to write, with no slot owed a read, so to a settled state if no resync waits |
| ChannelRuns.ErringAnswerAgreesExactlyWhen | meshwarden_daemon/channels.py:47-50 | after an error reply the slot is cleared, and the table is right about it if and only if the node's slot was vacant |
| ChannelRuns.SharedAnswerMisleads | meshwarden_daemon/storage/repositories.py:301-306 | the condition for clean runs cannot be weakened: from any state where it fails, steps that change nothing on the node leave the table wrong about a slot with nothing outstanding |
| ChannelRuns.PastDuplicateMisleads | meshwarden_daemon/channels.py:34-85 | a run after which nothing is outstanding and the node holds no secret twice, but the table misses a slot, because the node held one twice before |
| GroupText.DecryptGroupText | meshwarden_daemon/channel_backfill.py:43-60 | the search loop finds what the specification of the search says |
| GroupText.DecryptMeaning | meshwarden_daemon/channel_backfill.py:49-60 | a result exists exactly for a well-formed body with a candidate whose MAC verifies, and the first such candidate decides it |
| GroupText.DecryptInBytes | meshwarden_daemon/channel_backfill.py:49-56 | in bytes: something is found exactly for a hash byte, two MAC bytes and whole blocks, with a secret under the hash byte whose MAC of the blocks is those two bytes |
| GroupText.GroupTextRoundTrip | meshwarden_daemon/channel_backfill.py:43-60 | a packet encrypted under a known secret, of any type byte, gives that channel, timestamp and text with any table, unless an earlier candidate verifies too, which then decides |
| GroupText.StripPadding | meshwarden_daemon/channel_backfill.py:58 | stripping NULs undoes zero padding exactly |
| Backfill.DecryptPackets | meshwarden_daemon/channel_backfill.py:112-138 | the loops build the specified index, under the full text and under the part after the first ": " |
| Backfill.IndexIsTheNaiveScan | meshwarden_daemon/channel_backfill.py:124-138 | a text's entries are exactly those of all packets that decrypt to it, whole or after the separator |
| Backfill.SeparatorMeaning | meshwarden_daemon/channel_backfill.py:135-137 | the text is cut after the first ": ", and not at all without one |
| Backfill.IndexedUnderBoth | meshwarden_daemon/channel_backfill.py:130-137 | a packet that decrypts to a sender, ": " and a body is found under the whole and under the body |
| Backfill.IndexedOnlyWhole | meshwarden_daemon/channel_backfill.py:130-137 | a packet whose text has no ": " is found under the whole text only |
| Backfill.SameSendMeaning | meshwarden_daemon/channel_backfill.py:140-144 | a sender timestamp that is there and not zero decides alone; otherwise receive times at most 60 seconds apart do |
| Backfill.WindowInSeconds | meshwarden_daemon/channel_backfill.py:86-90 | the packets read are the stored GRP_TXT ones from a day before the first candidate to an hour after the last |
| Backfill.MatchedIsNaive | meshwarden_daemon/channel_backfill.py:95 | the matched channels are those of all packets that decrypt, carry the message's text and are the same send |
| Backfill.BySlot | meshwarden_daemon/channel_backfill.py:85 | the dict by slot gives the last listed channel of a slot, and nothing for messages without one |
| Backfill.SlotChannelMeaning | meshwarden_daemon/channel_backfill.py:85-94 | with unique slots this is the slot's channel, whatever the order |
| Backfill.DecideMeaning | meshwarden_daemon/channel_backfill.py:96-104 | what each of the three verdicts says about the matched channels and the slot |
| Backfill.VerdictMeaning | meshwarden_daemon/channel_backfill.py:94-104 | a decrypted verdict has a witness packet and names the slot's channel or the only witnessed one; inferred means no witness; unresolved means neither witness nor slot, or several witnessed channels without the slot's |
| Backfill.SecretsMeaning | meshwarden_daemon/channel_backfill.py:120-122 | a body's candidates are exactly the channels whose secret has its hash byte |
| Backfill.EncryptedPacketDecrypts | meshwarden_daemon/channel_backfill.py:120-132 | a stored packet encrypted under a known channel's secret decrypts to that channel, timestamp and text, if no other channel's MAC happens to verify it |
| Backfill.OwnPacketDecides | meshwarden_daemon/channel_backfill.py:93-104 | end to end: a message whose own encrypted packet is in the log is never put down to its slot alone, and is attributed to the packet's channel if that is the slot's or no other channel is witnessed |
| Backfill.SentMessageDecides | meshwarden_daemon/channel_backfill.py:93-104 | the same for a sent message, which is stored without the sender's name that its packet carries |
| Backfill.Run | meshwarden_daemon/channel_backfill.py:78-110 | the updates of a run and its tally: decrypted and inferred are the updates with those sources, unresolved the candidates without one, and together they are all candidates |
| Attribution.MessageStore.Add | meshwarden_daemon/storage/repositories.py:326-369 | appends one row with the message's own columns and the next id, attributed to the channel that the channel table has in the slot and marked so, or not at all; channel and source stay NULL together |
| Attribution.MessageStore.ChannelBackfillCandidates | meshwarden_daemon/storage/repositories.py:421-428 | the loop gives exactly the selected columns of the channel messages without a source, or also of the inferred ones |
| Attribution.MessageStore.SetChannels | meshwarden_daemon/storage/repositories.py:430-434 | the updates are applied in order, each to the row of its id |
| Attribution.MessageStore.Prune | meshwarden_daemon/storage/repositories.py:441-443 | removes the rows older than the cutoff and returns their number |
| Attribution.KeptMeaning | meshwarden_daemon/storage/repositories.py:441-443 | what a prune keeps is exactly the rows not older than the cutoff |
| Attribution.RunAlone | meshwarden_daemon/channel_backfill.py:78-110 | a whole run leaves the specified table and reports one verdict per candidate |
| Attribution.RunAssigns | meshwarden_daemon/channel_backfill.py:93-105 | a run settles every candidate by the verdict on it and leaves every other message untouched |
| Attribution.SecondRunKeepsTheFirst | meshwarden_daemon/channel_backfill.py:78-110 | over the same channels and packets, a second run changes no attribution the first made; it changes only messages left open among several channels of which the smaller window no longer shows several |
| Attribution.SecondRunResolvesExactlyWhen | meshwarden_daemon/channel_backfill.py:86-104 | for messages without attribution, exactly those |
| Attribution.SecondRunMayResolve | meshwarden_daemon/channel_backfill.py:86-104 | a concrete archive, with lawful cryptography, in which the second run does resolve one |
| AttributionHistory.AttributionsOnlyMoveUp | meshwarden_daemon/storage/repositories.py:326-434 | between any two states of any history with safe prunes, a source moves only from NULL to inferred to decrypted, and slot and decrypted rows never change channel |
| AttributionHistory.LifecycleInColumns | meshwarden_daemon/storage/repositories.py:326-434 | the same column by column: all other columns stay, slot and decrypted rows keep channel and source, inferred ones stay inferred or become decrypted, and none becomes slot |
| AttributionHistory.LifecycleResumes | meshwarden_daemon/storage/repositories.py:326-443 | after any history at all, unsafe prunes included, the same holds from the first state without a backfill under way on |
| AttributionHistory.EveryHistoryPairs | meshwarden_daemon/storage/repositories.py:343-360 | in every reachable state, after unsafe prunes too, channel is NULL exactly when source is |
| AttributionHistory.StepKeepsInv | meshwarden_daemon/storage/repositories.py:326-443 | each step keeps: while a backfill scans, no other message has the id of one of its candidates, and these are still candidates |
| AttributionHistory.UnsafePruneMisattributes | meshwarden_daemon/storage/repositories.py:430-443 | after any prune that frees a candidate's id, there are arrivals after which a backfill, whatever channels and packets it reads, overwrites a new message's final attribution if what it reads resolves the candidate |
| AttributionHistory.SlotResolves | meshwarden_daemon/channel_backfill.py:85-102 | a channel in the candidate's slot is enough for that when the packet log is empty |
| AttributionHistory.PacketResolves | meshwarden_daemon/channel_backfill.py:93-99 | and so is the candidate's own encrypted packet, from whatever slot |
| PacketLog.RowsDescribeTheirGroups | meshwarden_daemon/storage/repositories.py:58-80 | for every history, a row exists exactly for the groups that occur; count, bytes and sums are exact, and the extremes are those since the group's last packet without SNR |
| PacketLog.KeyMeaning | meshwarden_daemon/storage/repositories.py:58-73 | a row is for the packets of the hour from its bucket on and of its own types, -1 standing for none |
| PacketLog.UpsertAdds | meshwarden_daemon/storage/repositories.py:59-80 | one log adds one packet, its length, its SNR and its RSSI, or zero for a missing one, to the row of its group, and changes no other row |
| PacketLog.MinIsExactExactlyWhen | meshwarden_daemon/storage/repositories.py:68 | an hourly minimum is the true one exactly when some packet that reached it was followed by no packet without SNR |
| PacketLog.MaxIsExactExactlyWhen | meshwarden_daemon/storage/repositories.py:69 | and an hourly maximum likewise |
| PacketLog.SnrlessPacketForgetsTheMinimum | meshwarden_daemon/storage/repositories.py:68-69 | three packets that leave a minimum greater than the least SNR |
| PacketRetention.PacketStore.Log | meshwarden_daemon/storage/repositories.py:26-80 | appends the packet as it is under the next id, its payload kept only if so configured, and adds it to the row of its group |
| PacketRetention.PacketStore.IterPayloads | meshwarden_daemon/storage/repositories.py:149-166 | for every table and page size at least 1, the paged scan ends and yields the rows of the unpaged query, in id order |
| PacketRetention.PacketStore.DeleteBatch | meshwarden_daemon/storage/repositories.py:172-176 | one DELETE removes at most a batch of old rows, and fewer only when no old row is left |
| PacketRetention.PacketStore.Prune | meshwarden_daemon/storage/repositories.py:168-180 | ends, removes exactly the rows older than the cutoff and returns their number |
| PacketRetention.NextPage | meshwarden_daemon/storage/repositories.py:155-166 | after a full page, the rest of the scan is what lies beyond the page's last id |
| PacketRetention.StatisticsSurvivePruning | meshwarden_daemon/storage/repositories.py:26-80 | over every interleaving of logs and prunes, the hourly rows describe all packets ever aggregated |
| PacketRetention.CountsAreConserved | meshwarden_daemon/storage/repositories.py:59-64 | hourly counts plus logs half done equal the rows left plus all rows ever pruned |
| PagedScan.IterPayloads | meshwarden_daemon/storage/repositories.py:149-166 | whatever each query finds in the table, the loop yields matching rows in strictly increasing id order, and once it ends every matching row that all its queries could see |
| PagedScan.ScanMissesNothingThatStays | meshwarden_daemon/storage/repositories.py:149-166 | the same over every interleaving of pages with logs, prunes and rows under used ids |
| PacketStats.DayOfHour | meshwarden_daemon/storage/repositories.py:130 | the day computed from the hour is the packet's day exactly when its time is not negative or its hour starts a day |
| PacketStats.ChosenByColumns | meshwarden_daemon/storage/repositories.py:122-138 | which packets a statistic covers: those of the hours asked for, a bound of zero being none, with the group's types and its hour or day |
| PacketStats.GroupsByColumns | meshwarden_daemon/storage/repositories.py:132-138 | there is a statistic exactly for the groups with such a packet |
| PacketStats.StatMeaning | meshwarden_daemon/storage/repositories.py:133-135 | averages times counts are sums |
| PacketStats.SumsRollUp | meshwarden_daemon/storage/repositories.py:131-135 | counts, bytes and sums over the selected hourly rows are those of the selected packets |
| PacketStats.ExtremesRollUp | meshwarden_daemon/storage/repositories.py:136 | so are the extremes where every selected packet carried an SNR |
| PacketStats.StatsRefineDirectGrouping | meshwarden_daemon/storage/repositories.py:119-142 | for every history and range, hourly or daily statistics have the groups, counts, bytes and averages of grouping the packets, and the extremes where every packet carried an SNR |
| TraceFrames.RouteIsOneHash | meshwarden_daemon/ping.py:21-30 | exactly which contacts and widths can be pinged; a route is the contact's own key cut to the width its flags announce: one hop |
| TraceFrames.AnswersExactlyWhen | meshwarden_daemon/ping.py:43-57 | a frame answers a probe exactly when it is a PUSH_TRACE frame for its tag, auth, flags and route with one SNR per hop and a final one |
| TraceFrames.AnswersInBytes | meshwarden_daemon/ping.py:43-55 | the same byte by byte: 0x89, path length, flags, two little-endian numbers, route, and exact length |
| TraceFrames.TraceRoundTrip | meshwarden_daemon/ping.py:41-57 | decoding a built frame recovers exactly the SNRs sent, in quarters |
| TraceFrames.FramesNeverCross | meshwarden_daemon/ping.py:45-57 | a frame built for another tag, auth, flags or route never matches |
| TracePing.PingManager.OnFrame | meshwarden_daemon/ping.py:40-57 | a frame completes the entry of its token, or changes nothing |
| TracePing.PingManager.DrawToken | meshwarden_daemon/ping.py:72-74 | the first drawn token that no pending probe has |
| TracePing.PingManager.Ping | meshwarden_daemon/ping.py:59-88 | the drawn token was free, its entry is gone on every path, and the table is what the frames would have made of it without the probe; it returns exactly when it resumes before the deadline after a frame answered it, with the SNRs and time of the first that did; which contacts and widths are refused at once |
| TracePing.AnsweredHasAFirst | meshwarden_daemon/ping.py:52-57 | frames that answer a probe have exactly one first among them, which is the one reported |
| TracePing.CompletesExactlyWhen | meshwarden_daemon/ping.py:43-57 | an entry is completed exactly by a PUSH_TRACE frame built for its token, flags and route and heard while it waits within its deadline, and no other entry is touched |
| TracePing.CompletesWithItsSnrs | meshwarden_daemon/ping.py:50-57 | the entry then holds the frame's time and exactly the SNRs that were sent, in quarters |
| TracePing.StepKeepsInv | meshwarden_daemon/ping.py:59-88 | each step of any number of probes keeps the correspondence of table, probes and frames |
| TracePing.PendingIsLive | meshwarden_daemon/ping.py:72-88 | in every run the pending keys are exactly the tokens of the live probes, all different; no entry outlives its probe |
| TracePing.ReturnsOnlyWhenAnswered | meshwarden_daemon/ping.py:63-88 | a probe returns only if its command was accepted and a matching frame arrived between its start and its deadline; it reports that frame's SNRs and a time of at least 0 and less than 5000 ms |
| TracePing.FramesCompleteOneProbe | meshwarden_daemon/ping.py:40-57 | in every run, two probes that returned were answered by two different frames |
| TracePing.CompletedOnce | meshwarden_daemon/ping.py:54-57 | no probe is completed twice |
| LastHeard.ReportedLastHeard | meshwarden_daemon/storage/repositories.py:183-192 | the latest of the times that are present, not zero and not in the future, and 0 without any |
| LastHeard.ReportedInPlainTerms | meshwarden_daemon/storage/repositories.py:183-192 | the same as an if and only if on the two times |
| LastHeard.RepairAgreesExactlyWhen | meshwarden_daemon/storage/database.py:114-123 | the v3 repair gives the same, unless exactly one time is trusted and that one is negative |
| Migration.Database.Migrate | meshwarden_daemon/storage/database.py:144-155 | runs the missing scripts in order, one transaction each, and may die between two |
| Migration.EachScriptRunsOnce | meshwarden_daemon/storage/database.py:144-155 | over any starts, releases and crashes, each script has run exactly once and in order, and all of a release's once one of its starts lives long enough |

## Left out

- Sockets, serial and TCP connections, reconnect back-off, gRPC servicer, health, logging and configuration.
- The `meshcore` library: its reader, packet parsing (a parameter, `Codec.parse`) and command encoders.
- AES, HMAC and SHA-256 (parameters with the law that decryption undoes encryption), and UTF-8 decoding with "ignore" (the parameter `decode`).
- Floating point: SNR and RSSI sums are exact reals, `snr or 0.0` and the clock likewise.
- Columns that no modelled property reads (packet kind and path, message direction, peer and acknowledgement, most contact fields), and the order and paging of listings, LIKE matching included.
- Real time and fairness: safety only, no claim that a step is eventually taken.
- A database that fails in the middle of a statement; `set_channels` is one step, as aiosqlite runs it in one call.
- The frame listeners' fan-out of pushes to clients and the capture of outgoing messages.
- ChannelTracker.Tracker.Refresh: the answers, one for each slot, are given as a sequence, and no other statement runs in between; `ChannelConvergence` has those, and `ChannelRuns.RefreshReaches` ties the two together.
- TracePing.PingManager.Ping: while it waits, frames change the table and other probes do not; any number of probes at once are the machine's, in the same file.
- PacketRetention.PacketStore.IterPayloads: the table does not change between pages, since only then is there one query to compare with; `PagedScan.IterPayloads` has the general case.
