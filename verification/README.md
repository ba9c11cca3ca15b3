# Verified model of the metaText peer transport, its log appender, and its screen replayer

This project models the stateful core of metaText in Dafny and proves what that core is for:

- **The peer connection** (`PeerLink`, `PeerDelivery`, `StableIdentities`, `IdentityLoss`, `Addressing`,
  `Receipts`, `LinkWire`, `LinkSizes`, `Endpoints`). Two ends greet each other with a nickname, an
  identity and an ephemeral key, and exchange sealed messages over a FIFO stream. A sender picks one
  key from a ladder (agreed, static, session), the receiver tries its own ladder. Main results: in
  every run, also one that replaces identities on the open connection, exactly which messages are
  read (`PeerDelivery.MessagesAreReadByKey`); when each end keeps one identity, every message is, in
  order and unaltered (`StableIdentities.EveryMessageOpens`); and a message leaves only for a peer
  that announced the name it was asked for (`Addressing.MessagesGoToWhomTheyWereFor`).
- **The keys** (`Keys`, `KeySeparation`): both ends derive the same key, and a key tells the session,
  the identities and the ephemerals it was derived from.
- **The wire format** (`Framing`): length-prefixed frames, how a cut stream is told from a closed
  one, and which messages survive encoding.
- **The offline outbox** (`Outbox`, `OutboxRuns`, `OutboxWire`, `OutboxLink`): bounded queues with a time to live,
  whole flushes, flushes whose phases interleave with everything else and exactly what that can
  break, what is then on the wire, and the agreement with what the connection model buffers.
- **The read loop's deadlines** (`ReadLoop`): greeting deadline, idle deadline, and how slow a
  keepalive cadence may be.
- **The supervisor** (`Supervision`, `Reconnection`): which addresses a reconnection round dials, told
  from the history of a run, and the races that leave an address marked for good or dialled twice.
- **The pin store** (`Pins`, `PinRuns`, `PinHistory`, `PinRaces`): trust on first use with a bounded
  table, a write budget, a file that lags behind the table on purpose, and announcements whose table
  updates and file writes interleave.
- **The rotating log appender** (`LogNames`, `LogWriter`, `LogRetention`, `LogRuns`,
  `LogPromises`): size rolls, day rolls and retention over a directory, shown to be a list of files
  to whose end every write goes.
- **The terminal replayer** (`Screens`, `Painting`, `CursorLaws`): an escape-sequence interpreter, the
  proof that a difference stream turns the old frame into the new one, and what the sequences mean
  for each other.

Objects that the program updates in place are classes (`Endpoints.Endpoint`,
`Outbox.OfflineQueue`, `Pins.PinStore`, `Supervision.Manager`, `LogWriter.SizeRotatingWriter`,
`Screens.Screen`, `Framing.Reader`). Each method's postcondition gives the new state as a function
of, or a relation to, the old one, and the theorems about runs are about exactly those functions and
relations. `Wrappers`, `Text` and `Decimal` hold shared vocabulary.

The cryptographic primitives are function values with laws, never axioms: X25519 commutes
(section 6.1 of RFC 7748), HKDF is any function (section 2 of RFC 5869), and ChaCha20-Poly1305 is
an ideal AEAD (section 2.8 of RFC 8439). Where keys must differ, HKDF does not collide on the inputs
that are compared; it cannot be injective, since it maps any input to 32 bytes.
`Keys.LawsAreConsistent` and `KeySeparation.ApartIsConsistent` exhibit primitives that satisfy the
laws, and `StableIdentities.AssumptionsAreMet` a connection between two registered ends under them. Clocks, dial
outcomes, random nonces and the room left in a connection's queue are parameters of the steps, so
every theorem holds for all of their values.

## Where the code and its documentation differ

The model follows the code.

- The pair key uses the label as HKDF salt and the session key as input key material, with the
  Diffie-Hellman values in `info` (`crates/meta-text-backend/src/identity.rs:500-507`), unlike the
  comment above it.
- The pin store promises a repeated warning and never a missed one
  (`crates/meta-text-backend/src/trust.rs:306-307`). A peer that returns to the key in the file is
  not reported after a restart: `PinRuns.RestartMissesChangeIff` gives the condition and
  `PinRuns.MissedChangeIsReachable` a run that meets it.
- Retention is documented to leave at most `max_files` files. It can leave one more, because the
  open file is skipped: `LogRetention.PruneMeetsLimitIff` says exactly when it does not, and
  `LogRetention.LimitIsExceeded` is a write that does it.
- Queues are documented to be bounded by 32 messages
  (`crates/meta-text-backend/src/network.rs:970-973`). A flush releases the lock between taking and
  putting back: `OutboxRuns.CapacityHoldsIff` says exactly in which runs the bound holds, and
  `OutboxRuns.OrderHoldsIff` in which runs the messages stay in order.
- `(date, index)` is said to be the order in which files were created
  (`crates/meta-text-backend/src/logging.rs:347-348`). After a restart the appender opens index 0
  and rolls at most once, so this holds exactly under the condition of
  `LogRetention.FirstFileIsNewestIff`, which is the starting condition of
  `LogPromises.LogKeepsTheNewest`.
- The zero padding of file names keeps the text order chronological only up to index 999:
  `LogNames.PaddingLimitIff`.
- Setting an identity is described as a set or an update
  (`crates/meta-text-backend/src/network.rs:707-713`). Replacing one loses the messages already
  sealed for the old one: `IdentityLoss.ReplacementLosesIff` gives the condition and
  `IdentityLoss.ReplacementLosesAMessage` a run. Replacing the sender's own identity loses nothing,
  because the announcement is queued behind what was sealed before it.
- A static key is derived from `low:high` (`crates/meta-text-backend/src/crypto.rs:111-120`). With a
  colon inside an identity two different pairs have one key: `KeySeparation.ContactKeyTellsItsPairIff`
  says exactly which, `KeySeparation.ColonConfusesPairs` is an instance, and between announced public
  keys it cannot happen (`KeySeparation.ContactKeyTellsItsKeys`).
- The supervisor is meant to dial what is not connected. An address reached again before the end of
  its previous connection was reported loses the mark of the new one and is dialled once more:
  `Reconnection.RoundDialsTheUnconnected` has the condition, `Reconnection.EarlyIsDialledAgain` a run.
- An action with binary content arrives as a text action: `Framing.MessageSurvivesIff`.

## Model

| member | source | states |
|---|---|---|
| Framing.FrameReadsBackIff | crates/meta-text-backend/src/network.rs:2047-2136 | a frame is read back from the front of any stream, leaving what follows untouched, iff its payload is at most 64 KiB; every larger one is refused as oversized |
| Framing.CutFrameFails | crates/meta-text-backend/src/network.rs:2105-2136 | a frame cut anywhere after its kind byte is an error and never a shorter frame; cut before it, the stream ends cleanly |
| Framing.StreamReadsBack | crates/meta-text-backend/src/network.rs:2047-2136 | reading the concatenation of any list of frames within the limit gives that list and a clean end |
| Framing.CutStream | crates/meta-text-backend/src/network.rs:2105-2136 | a stream cut after any number of bytes yields exactly the frames that are whole before the cut, and its end is clean iff the cut falls between frames |
| Framing.ParseIsFaithful | crates/meta-text-backend/src/network.rs:2113-2136 | for any bytes at all, the frames read are within the limit and their encoding is what was consumed; the end is clean iff the stream is that encoding |
| Framing.Reader.ReadFrame | crates/meta-text-backend/src/network.rs:2113-2136 | reading a frame field by field from the stream is parsing the bytes that are left |
| Framing.Reader.ReadAll | crates/meta-text-backend/src/network.rs:1489-1546 | the loop over frames reads what the stream parses to, and stops for the same reason |
| Framing.MessageSurvivesIff | crates/meta-text-backend/src/network.rs:2060-2100 | id, kind, content type and ciphertext of a message survive encoding iff it is not an action with binary content; id and ciphertext always do |
| Framing.MessageCrossesTheWireIff | crates/meta-text-backend/src/network.rs:2047-2136 | a message put in front of any bytes is read and decoded to itself iff its ciphertext leaves room for the id in the frame limit and it is not that pair |
| Keys.AnnouncedKeyIff | crates/meta-text-backend/src/identity.rs:318-321 | a text parses as a key iff its normal form is the form that key is announced in, so parser and static derivation accept the same spellings |
| Keys.UsableKeyIff | crates/meta-text-backend/src/identity.rs:318-321 | an announcement is usable as a key iff, trimmed, it is 64 hexadecimal digits |
| Keys.PublicHexReadsBack | crates/meta-text-backend/src/identity.rs:216-246 | an announced key parses back to itself and is its own normal form |
| Keys.PairInfoAgreesIff | crates/meta-text-backend/src/identity.rs:475-514 | the two ends expand the same HKDF info iff their static keys differ or the two swapped Diffie-Hellman values coincide |
| Keys.PairKeyIsShared | crates/meta-text-backend/src/identity.rs:475-514 | with distinct statics both ends compute one key for every session and all ephemerals, in either sort order |
| Keys.ContactKeyIsSymmetric | crates/meta-text-backend/src/crypto.rs:97-131 | the static key, or its refusal, is the same for both argument orders |
| Keys.ContactKeyIgnoresSpelling | crates/meta-text-backend/src/crypto.rs:70-131 | the static key does not depend on letter case, surrounding white space or argument order |
| KeySeparation.PairKeyTellsItsInputs | crates/meta-text-backend/src/identity.rs:475-514 | two agreed keys are equal iff the session keys are and all three Diffie-Hellman values are, the mixed ones in the order of the static keys |
| KeySeparation.PairKeyIsOfOneConnection | crates/meta-text-backend/src/identity.rs:449-455 | between two identities two agreed keys are equal iff the sessions are and both ephemerals contribute the same values: a connection with another ephemeral has another key |
| KeySeparation.ContactKeyTellsItsPairIff | crates/meta-text-backend/src/crypto.rs:97-131 | two static keys are equal iff the sessions are and the unordered pairs of normalised identities are, or one pair is the other with a part moved across the colon that joins them |
| KeySeparation.ContactKeyTellsItsKeys | crates/meta-text-backend/src/crypto.rs:97-131 | between announced public keys two static keys are equal iff the sessions and the unordered pairs of keys are |
| KeySeparation.ColonConfusesPairs | crates/meta-text-backend/src/crypto.rs:111-120 | two different pairs of identities with a colon that have one static key |
| KeySeparation.AgreedIsNotStatic | crates/meta-text-backend/src/identity.rs:500-507 | no agreed key is a static key: the labels keep them apart |
| Keys.Crypto.LadderOpensIff | crates/meta-text-backend/src/network.rs:1736-1774 | the receiver's ladder recovers a payload iff the sealing key is a candidate or the session key, and otherwise recovers nothing |
| Keys.Crypto.DecryptFrom | crates/meta-text-backend/src/network.rs:1736-1743 | the loop over candidate keys is the ladder the other results are about |
| PeerLink.SealingKeyIsHeld | crates/meta-text-backend/src/network.rs:741-772 | whatever key a sender picks for a directed message, the receiver holds it once it has read the announcements queued before it |
| PeerDelivery.StepFlows | crates/meta-text-backend/src/network.rs:1591-1712 | each step of either end (register, set an identity at any time and to any key, set nickname, send, broadcast, probe, expire, deliver) keeps the invariant that every queued message is sealed as recorded and that whoever has the identity it is for will hold its key on reading it |
| PeerDelivery.MessagesAreReadByKey | crates/meta-text-backend/src/network.rs:1727-1774 | in every run each message read comes out unaltered and in turn iff the reader then has the key it was sealed under, is counted as failed otherwise, and a reader that still has the identity it was sealed for (other than the sender's own) has that key; only received messages are confirmed |
| PeerDelivery.NothingIsLostIff | crates/meta-text-backend/src/network.rs:1727-1774 | in every run no message was lost iff each was read with its key, and then what came out is the beginning of what was sent |
| PeerDelivery.LossNeedsAnotherIdentity | crates/meta-text-backend/src/network.rs:714-772 | in every run a lost message was sealed for a pair, and its reader had another identity by then or both ends had the same one |
| StableIdentities.EveryMessageOpens | crates/meta-text-backend/src/network.rs:954-966 | in every run in which each end sets at most one identity and the two differ no message fails to open; each end has received exactly what the peer sent, in order, minus what is still queued; only received messages are confirmed |
| StableIdentities.GreetingIsLearned | crates/meta-text-backend/src/network.rs:1281-1377 | in every run in which each end sets at most one identity and the two differ, what an end believes about its peer is true, and once the peer's queue is empty it knows the identity, the ephemeral and the displayable nickname the peer has |
| StableIdentities.KeysAgreeAtRest | crates/meta-text-backend/src/network.rs:1419-1446 | when in such a run both greetings are read, both ends hold the same ladder and its first key is the one agreed for this connection |
| StableIdentities.ConnectionsHaveTheirOwnKeys | crates/meta-text-backend/src/network.rs:1281-1313 | of two connections between the same identities, both at rest, the first keys of the ladders are equal iff the sessions are and both ends' ephemerals contribute the same values |
| IdentityLoss.ReplacementLosesIff | crates/meta-text-backend/src/network.rs:714-772 | a message in flight while its reader replaces its identity is lost iff its key is neither the session key nor a candidate under the new identity, and otherwise comes out unaltered |
| IdentityLoss.ReplacementLosesAMessage | crates/meta-text-backend/src/network.rs:714-727 | a witness: primitives that keep the laws and a run of greetings, a message and a replacement that loses the message |
| Addressing.SendGoesWhereItWasAsked | crates/meta-text-backend/src/network.rs:941-1041 | a directed message is queued for the peer, sealed under the key of that pair, only if the peer announced the name asked for (whatever the case and the space around it); otherwise nothing is queued and it waits under exactly that name unless 32 wait already; a blank name does nothing |
| Addressing.GreetingIsAcceptedIff | crates/meta-text-backend/src/network.rs:1591-1621 | a greeting names its peer iff its text, trimmed, has 1 to 64 characters and no control character |
| Addressing.GreetingBringsWhatWaited | crates/meta-text-backend/src/network.rs:1591-1644 | an accepted greeting names the peer and queues for it, in order, what waited under that name as far as the queue takes it; a refused one changes nothing |
| Addressing.MessagesGoToWhomTheyWereFor | crates/meta-text-backend/src/network.rs:941-1041 | in every run each message handed to the connection, at once or from the outbox, was asked for everybody or under a name the peer had announced by then; what waits under a name was asked for under it; an end calls its peer only what it announced and what may be printed |
| Receipts.EveryReadingIsConfirmed | crates/meta-text-backend/src/network.rs:1647-1699 | in every run whose queues take the receipts, what a sender saw confirmed and the receipts under way are, in order and once each, the ids of the messages its peer read |
| Receipts.ProbeIsQueuedIff | crates/meta-text-backend/src/network.rs:1814-1845 | a keepalive is queued iff the connection's peer has greeted and the queue takes it, and nothing else changes |
| Receipts.OnlyTheNamedAreProbed | crates/meta-text-backend/src/network.rs:1814-1845 | in every run a keepalive is under way to a peer, or was seen by it, only if the sender knows the peer's name |
| Receipts.BroadcastIsQueuedIff | crates/meta-text-backend/src/network.rs:887-912 | a message to everybody is queued for a connection iff its queue takes it, sealed under the session key, and spends one id either way |
| LinkWire.QueueCrossesTheWire | crates/meta-text-backend/src/network.rs:1591-1712 | the bytes of a queue of readable frames are read back as the same frames, each taken for what it is |
| LinkWire.FramesTell | crates/meta-text-backend/src/network.rs:1867-1942 | whatever a peer sends, it has its last displayable name, its last identity, the first usable ephemeral and no later one, and counts as probing iff it sent a keepalive |
| LinkSizes.ReadableIff | crates/meta-text-backend/src/network.rs:2047-2136 | a queued frame is read back from the front of the stream iff its payload is within the limit, which for a message means a ciphertext that leaves room for the id |
| LinkSizes.SmallRunsNeverStall | crates/meta-text-backend/src/network.rs:1489-1546 | in every run whose callers keep nicknames and ciphertexts within the limit, an end that is registered and has a frame waiting can read it |
| Endpoints.Endpoint.ContactKeyFor | crates/meta-text-backend/src/network.rs:741-772 | finds the sealing key of the protocol, and finds none iff the name is not the peer's or the pair has no key |
| Endpoints.Endpoint.FlushOutbox | crates/meta-text-backend/src/network.rs:1976-2024 | the loop sends the longest prefix the queue takes and puts the others back |
| Endpoints.Endpoint.Dispatch | crates/meta-text-backend/src/network.rs:1591-1712 | handling a frame, branch by branch, is the delivery step of the protocol |
| Outbox.OfflineQueue.EnqueueMessage | crates/meta-text-backend/src/network.rs:978-1041 | a message is appended under its normalised name and told its place, or dropped iff the name is blank or its queue is full |
| Outbox.OfflineQueue.TakeQueue | crates/meta-text-backend/src/network.rs:1976-1996 | the first phase of a flush removes the queue, counts the stale entries and returns the others in order |
| Outbox.OfflineQueue.FlushOutbox | crates/meta-text-backend/src/network.rs:1976-2024 | sends exactly the fresh entries the connection takes, in order, and puts the others back |
| Outbox.OfflineQueue.PruneOutbox | crates/meta-text-backend/src/network.rs:2027-2043 | drops and counts exactly the stale entries of every queue, and every queue this empties |
| Outbox.SendWhileRoom | crates/meta-text-backend/src/network.rs:1998-2012 | the send loop splits the entries where the connection first refuses one |
| OutboxWire.FramesCarryTheEntries | crates/meta-text-backend/src/network.rs:1998-2012 | a flush has one frame for each entry, in order, and frame i is decoded to the id and ciphertext of entry i, and to its kind and content type unless it is an action with binary content |
| OutboxWire.FlushSendsWhatItCan | crates/meta-text-backend/src/network.rs:1976-2024 | a flush leaves something waiting only if the connection took as much as it could, and what it sends and leaves are the entries younger than the time to live |
| Outbox.RetainFresh | crates/meta-text-backend/src/network.rs:2027-2043 | the retain loop keeps the fresh part of every queue and counts what it drops |
| Outbox.PartitionConserves | crates/meta-text-backend/src/network.rs:1976-1996 | splitting a queue by age neither loses nor duplicates an id |
| Outbox.PruneConserves | crates/meta-text-backend/src/network.rs:2027-2043 | pruning every queue neither loses nor duplicates an id |
| OutboxRuns.NoMessageLostOrDuplicated | crates/meta-text-backend/src/network.rs:1976-2024 | however flush phases, arrivals and prunes interleave, every accepted id is in exactly one of flushed, expired, queued or in hand, and the expiry counter counts the expired |
| OutboxWire.WireCarriesTheOrders | crates/meta-text-backend/src/network.rs:1976-2024 | however flushes interleave, every frame on the wire for a name is decoded to a message ordered for that name, with its ciphertext, kind and content type; none is there twice; accepted ids are those decoded from the wire, expired, queued and in hand |
| OutboxWire.WholeFlushWire | crates/meta-text-backend/src/network.rs:1998-2012 | what the phases of a flush put on the wire is what the whole flush returns as sent |
| OutboxRuns.PutBackKeepsOrderIff | crates/meta-text-backend/src/network.rs:2013-2022 | putting back what a flush could not send keeps the queue in order iff the queue is empty or ends in an older message than the first put back |
| OutboxRuns.OrderHoldsIff | crates/meta-text-backend/src/network.rs:1976-2024 | however flushes interleave, every queue stays in order throughout a run iff each put-back meets that condition |
| OutboxRuns.CapacityHoldsIff | crates/meta-text-backend/src/network.rs:1976-2024 | however flushes interleave, every queue stays within 32 messages throughout a run iff each put-back finds room in the queue of that moment |
| OutboxRuns.InterleavingOverfills | crates/meta-text-backend/src/network.rs:1976-2024 | a witness: a run that leaves 33 messages in a queue |
| OutboxRuns.InterleavingDisorders | crates/meta-text-backend/src/network.rs:1976-2024 | a witness: a run that leaves the younger of two messages in front |
| OutboxRuns.WholeFlushIsASplitRun | crates/meta-text-backend/src/network.rs:1976-2024 | taking a queue, handing over what the connection takes and giving the others back, with nothing in between, is the whole flush |
| OutboxRuns.UninterruptedRuns | crates/meta-text-backend/src/network.rs:1012-1041 | over every run of whole operations queues hold 1 to 32 messages, the ids sent per name increase and precede the waiting ones, nothing is sent after its time, and accepted = flushed + expired + queued |
| OutboxRuns.ExpiryTakesAPrefix | crates/meta-text-backend/src/network.rs:1976-2043 | under a clock that does not run backwards, what a flush or prune drops for age is exactly the oldest part of the queue, and exactly the entries that waited for the time to live |
| OutboxLink.BufferingMirrors | crates/meta-text-backend/src/network.rs:978-1041 | buffering for an absent peer on a connection and in the queue table gives the same ids, order and refusals |
| OutboxLink.FlushIsExpiryThenFlush | crates/meta-text-backend/src/network.rs:1976-2024 | a flush of the table is a run of expiries followed by the flush of the connection: the same messages go out in order and the same are kept |
| OutboxLink.PruneIsExpiry | crates/meta-text-backend/src/network.rs:2027-2043 | a prune of the table is a run of expiries of the connection |
| ReadLoop.Run | crates/meta-text-backend/src/network.rs:1489-1546 | the loop with its three locals reads exactly the frames that beat their deadlines and ends as the trace dictates |
| ReadLoop.OutcomeIsUnique | crates/meta-text-backend/src/network.rs:1489-1546 | a timed trace determines how the loop ends |
| ReadLoop.OutcomeIff | crates/meta-text-backend/src/network.rs:1489-1546 | told from the arrivals and their times alone, exactly when the loop ends for want of a greeting, for silence, at the end of the stream, on an error, or never |
| ReadLoop.SilenceDrops | crates/meta-text-backend/src/network.rs:1489-1546 | after an accepted hello and a keepalive, silence for an idle timeout ends the connection then, whatever frames came last |
| ReadLoop.UngreetedIsDroppedInTime | crates/meta-text-backend/src/network.rs:1489-1546 | a peer without an accepted nickname is gone by start + handshake timeout whatever else it sends, for that reason iff its stream had not ended before |
| ReadLoop.IdleDropNeedsSilence | crates/meta-text-backend/src/network.rs:1489-1546 | an idle drop comes only after an accepted hello, a keepalive and a full idle timeout in which nothing arrived |
| ReadLoop.QuietOldPeerIsKept | crates/meta-text-backend/src/network.rs:1609-1622 | a peer greeted in time that never sends a keepalive is never dropped by a deadline |
| ReadLoop.CadenceIsSafeIff | crates/meta-text-backend/src/network.rs:107-133 | with cadence k, delay up to d and up to m probes missing in a row, no probing peer is ever dropped as idle iff (m+1)k + d is at most the idle timeout |
| ReadLoop.ConfiguredCadenceIsSafe | crates/meta-text-backend/src/config.rs:586-598 | every cadence the configuration accepts tolerates one lost probe and a delay of one default period |
| Reconnection.WishesFollowHistory | crates/meta-text-backend/src/network.rs:1172-1274 | in every run an address is desired, marked and charged with failures exactly as its history tells: who asked for it, what its dials reached, how they failed since, and whose end was reported |
| Reconnection.RegistryFollowsHistory | crates/meta-text-backend/src/network.rs:1203-1224 | in every run the registry holds exactly the remotes reached, or accepted below the connection limit, and not closed since |
| Reconnection.RoundDialsTheUnconnected | crates/meta-text-backend/src/network.rs:1233-1255 | in every run with no remote half closed, the next round dials exactly the addresses asked for whose latest dial led to no connection still open, and those reached again before their previous end was reported |
| Reconnection.EveryGapIsDialled | crates/meta-text-backend/src/network.rs:1233-1274 | whatever happens meanwhile, before the next round starts exactly the addresses that had no connection at the start of this one, in that sense, have been dialled, once each |
| Reconnection.ConnectedIsNotDialled | crates/meta-text-backend/src/network.rs:1172-1180 | once a dial reached a remote no later round lists or dials the address until that remote's end is reported, the node shuts down, or a dial by hand leads elsewhere |
| Reconnection.EarlyIsDialledAgain | crates/meta-text-backend/src/network.rs:1548-1559 | a run in which a connected address is dialled again |
| Supervision.OverlookedIsBeingClosed | crates/meta-text-backend/src/network.rs:1548-1559 | between the two halves of a close, an unconnected address the round would miss is one the second half is about to release |
| Supervision.MarksHoldIff | crates/meta-text-backend/src/network.rs:818-835 | with registering and marking as separate steps, the marks hold throughout a run iff no connection is closed from end to end before its address is marked |
| Supervision.RaceStrands | crates/meta-text-backend/src/network.rs:818-835 | a run that leaves an address marked connected with no connection |
| Supervision.StrandedIsNeverDialled | crates/meta-text-backend/src/network.rs:1245-1255 | a stranded address is dialled in no later round unless somebody asks for it or its remote address is registered again |
| Supervision.Manager.BeginRound | crates/meta-text-backend/src/network.rs:1245-1255 | the loop collects every unresolved address once, in some order |
| Supervision.Manager.ForgetRemote | crates/meta-text-backend/src/network.rs:1552-1559 | the loop over the desired peers clears exactly the marks that name the closed connection |
| Pins.PinStore.Restore | crates/meta-text-backend/src/trust.rs:416-495 | loads the usable entries that fit and counts the others; an absent, unreadable or foreign file gives an empty table |
| Pins.PinStore.PersistPins | crates/meta-text-backend/src/trust.rs:527-567 | replaces the file with the sorted table, if there is a file |
| Pins.PinStore.TakeSnapshot | crates/meta-text-backend/src/trust.rs:503-518 | lists the table in ascending order of nickname |
| Pins.PinStore.ObserveAnnouncement | crates/meta-text-backend/src/trust.rs:309-407 | updates pins, flags, counters and file as the specification of an announcement says, and returns its outcome |
| Pins.NormalNicknameIsFixed | crates/meta-text-backend/src/trust.rs:593-595 | normalising a nickname twice changes nothing |
| Pins.SameNicknameIff | crates/meta-text-backend/src/trust.rs:593-595 | two spellings of a nickname share a pin iff they differ only in the case of letters and the space around them |
| PinRuns.LoadIsSound | crates/meta-text-backend/src/trust.rs:436-464 | whatever file was loaded, the table is within its bound and holds only usable, unflagged pins |
| PinRuns.SnapshotReadsBack | crates/meta-text-backend/src/trust.rs:416-518 | reading back what was written gives the table with the run's flags cleared, and drops nothing |
| PinRuns.WritesAreBounded | crates/meta-text-backend/src/trust.rs:309-407 | for any file and any announcements the table respects its bound and the writes number new nicknames + nicknames that changed, hence at most twice the bound |
| PinRuns.FileLagsBehindTable | crates/meta-text-backend/src/trust.rs:309-407 | whatever file was loaded, well-formed or not: file and table hold the same nicknames, and a key differs only where the one write for a change is spent |
| PinRuns.RestartJudgesByTheFile | crates/meta-text-backend/src/trust.rs:309-407 | whatever file the run began with, after a restart a remembered nickname is Known iff it announces the key in the file, otherwise Changed from it, never FirstSeen |
| PinRuns.RestartMissesChangeIff | crates/meta-text-backend/src/trust.rs:298-309 | whatever file the run began with, a change since the last run goes unreported after a restart iff the peer returns to the key in the file, and then its change write was spent |
| PinRuns.MissedChangeIsReachable | crates/meta-text-backend/src/trust.rs:298-309 | three announcements and a restart after which a changed key passes as known |
| PinRuns.RunWritesOwnFile | crates/meta-text-backend/src/trust.rs:503-567 | a run leaves the file as it found it or in the sorted canonical form this build writes |
| PinRaces.WholeAnnouncementIsASplitRun | crates/meta-text-backend/src/trust.rs:309-407 | updating the table, taking a snapshot and publishing it, with nothing in between, is one announcement |
| PinRaces.FileLagsWhenIdle | crates/meta-text-backend/src/trust.rs:527-567 | however table updates, snapshots and writes of several connections interleave and whatever file was loaded, whenever no write is pending the file lags behind the table only as it does for single announcements, and the writes number new nicknames + nicknames that changed |
| PinHistory.StoreRefinesHistory | crates/meta-text-backend/src/trust.rs:309-407 | in every run each pin is the last usable announcement or the restored key, it was first seen once unless restored, its flag is set iff some announcement differed from the one before, and the counter counts those |
| PinHistory.OutcomeFollowsHistory | crates/meta-text-backend/src/trust.rs:309-407 | an announcement is judged against the last key of its nickname in the history, and a nickname without one is first seen unless the table is full |
| PinHistory.RefusalsAreCounted | crates/meta-text-backend/src/trust.rs:253-262 | the refusal counter is the entries lost on loading plus the announcements that were refused |
| LogNames.NameReadsBackIff | crates/meta-text-backend/src/logging.rs:56-80 | the appender reads the date and index back from a name it made iff the date is dot-free with a dash in fifth place |
| LogNames.TextOrderIsAge | crates/meta-text-backend/src/logging.rs:56-80 | below index 1000 the text order of names is the (date, index) order |
| LogNames.PaddingLimitIff | crates/meta-text-backend/src/logging.rs:36-40 | the text order agrees with the index order up to index n iff n is below 1000 |
| LogWriter.Sort | crates/meta-text-backend/src/logging.rs:346-350 | the scanned names sorted by age hold each name once, in order |
| LogWriter.NextIndex | crates/meta-text-backend/src/logging.rs:266-273 | zero on a day without files, otherwise one past the highest index in use, saturating |
| LogWriter.SizeRotatingWriter.constructor | crates/meta-text-backend/src/logging.rs:161-181 | clamps the limits to one and replaces an empty prefix |
| LogWriter.SizeRotatingWriter.Prune | crates/meta-text-backend/src/logging.rs:340-358 | removes the oldest files beyond the limit except the open one |
| LogWriter.SizeRotatingWriter.Prepare | crates/meta-text-backend/src/logging.rs:308-333 | opens the day's file, then rolls at most once if the pending bytes do not fit |
| LogWriter.SizeRotatingWriter.Write | crates/meta-text-backend/src/logging.rs:391-406 | an empty buffer does nothing; any other is appended whole to the file made ready for it, and the counter stays its length |
| LogRetention.PruneSpares | crates/meta-text-backend/src/logging.rs:340-358 | for any directory retention deletes neither the open file nor an unrecognised one, and changes no file it leaves |
| LogRetention.PruneTakesOldest | crates/meta-text-backend/src/logging.rs:346-350 | what is deleted is at most as new as any recognised file that is left |
| LogRetention.PruneLeavesOneMore | crates/meta-text-backend/src/logging.rs:340-358 | at most one file more than the limit is left |
| LogRetention.PruneMeetsLimitIff | crates/meta-text-backend/src/logging.rs:340-358 | for any directory, the limit is respected in whatever order the directory is read iff nothing has to go or fewer other recognised files than the limit are at least as new as the open one |
| LogRetention.FirstWriteBesideLaterFile | crates/meta-text-backend/src/logging.rs:308-358 | beside a file dated later and with room for one, a first write leaves two own files of which the open one is not the newest |
| LogRetention.LimitIsExceeded | crates/meta-text-backend/src/logging.rs:340-358 | a witness: dates, a directory and a write after which one file too many is left |
| LogRetention.FirstFileIsNewestIff | crates/meta-text-backend/src/logging.rs:308-333 | after the first write of a run the open file is the newest iff the directory held nothing newer than today's index 0, or index 1 when index 0 was full |
| LogRuns.OrderIsTheList | crates/meta-text-backend/src/logging.rs:346-350 | with one name to a slot, sorting the directory gives the list of files |
| LogRuns.WrittenShows | crates/meta-text-backend/src/logging.rs:391-406 | a write into the directory is a write to the end of the list: the directory refines the list of files |
| LogPromises.LogKeepsTheNewest | crates/meta-text-backend/src/logging.rs:308-406 | in every run on a directory with one recognised name to a date and index, which holds nothing newer than the file the first call goes to: at most the permitted number of own files, the open one newest, each file the run did not start with within the limit or one write, none of those begun while its predecessor had room, no write split, and the files hold the newest of old contents and writes, with a loss only when the limit is used up |
| LogPromises.LogIsTheTailOfTheText | crates/meta-text-backend/src/logging.rs:308-406 | read in order, the files that are left end the text of everything logged |
| LogPromises.OtherFilesAreSpared | crates/meta-text-backend/src/logging.rs:244-257 | in every run, for any directory and any clock, a file whose name is not recognised stays as it was |
| LogPromises.LastIndexNeverRolls | crates/meta-text-backend/src/logging.rs:324-330 | at the last 32-bit index the file takes every further write of its day at any size |
| Screens.Screen.PutCell | scripts/tui-e2e/screen.py:43-55 | puts a character and its fillers, cut off at the edge, and advances the cursor |
| Screens.Screen.EraseInLine | scripts/tui-e2e/screen.py:75-84 | erases from, up to, or all of the cursor's line, with index -1 meaning the last |
| Screens.Screen.Csi | scripts/tui-e2e/screen.py:57-88 | a control sequence has the specified effect on cursor and grid |
| Screens.Screen.FeedText | scripts/tui-e2e/screen.py:90-122 | replaying a stream ends, and leaves the screen the stream's units lead to |
| Screens.Feed | scripts/tui-e2e/screen.py:90-122 | after any stream the grid is rows by cols and the cursor within -1 and the last row and column |
| CursorLaws.UpThenDownIff | scripts/tui-e2e/screen.py:63-66 | up and down again comes back iff the top was not hit or the cursor was on the last row; up never lowers the cursor |
| CursorLaws.DownThenUpIff | scripts/tui-e2e/screen.py:63-66 | down and up again comes back iff the bottom was not hit or the cursor was on the first row |
| CursorLaws.RightThenLeftIff | scripts/tui-e2e/screen.py:67-70 | right and left again comes back iff the edge was not hit or the cursor was in the first column |
| CursorLaws.LeftThenRightIff | scripts/tui-e2e/screen.py:67-70 | left and right again comes back iff the edge was not hit or the cursor was in the last column |
| CursorLaws.MovesAdd | scripts/tui-e2e/screen.py:63-70 | two moves in one direction are one by the sum |
| CursorLaws.PositionIsRowAndColumn | scripts/tui-e2e/screen.py:60-74 | placing the cursor, in either spelling, is placing its row and its column in any order |
| CursorLaws.ControlCharactersMove | scripts/tui-e2e/screen.py:114-119 | carriage return, line feed and backspace are the moves they stand for |
| CursorLaws.HalvesAreBlanked | scripts/tui-e2e/screen.py:75-82 | erasing to the end or the beginning blanks its side of the line, cursor included, and nothing else |
| CursorLaws.HalvesAreTheLine | scripts/tui-e2e/screen.py:75-84 | both halves in either order are the whole line |
| CursorLaws.ClearingLeavesNothing | scripts/tui-e2e/screen.py:85-87 | clearing leaves no text and the cursor in place; other modes do nothing |
| CursorLaws.CharacterTakesItsColumns | scripts/tui-e2e/screen.py:43-55 | a character that fits before the edge takes its columns and nothing else, so the row reads as before, the character, and what follows; one without a width does nothing |
| Painting.FeedsInPartsIff | scripts/tui-e2e/screen.py:90-122 | a text may be fed apart from what follows it, on every screen and whatever follows, iff it cuts no escape sequence |
| Painting.UnitsSplitIff | scripts/tui-e2e/screen.py:94-113 | the units of a text and what follows it are the units of both iff the text cuts no escape sequence |
| Painting.CutLetterIsDrawn | scripts/tui-e2e/screen.py:94-113 | after any cut, a letter fed together with the text ends the sequence to no effect, and fed apart it is drawn |
| Painting.PiecesArePainted | scripts/tui-e2e/screen.py:43-122 | drawing any pieces of a frame in any order, each with a cursor move and with or without a style sequence, changes exactly the cells they cover, to the frame's characters |
| Painting.PaintShowsIff | scripts/tui-e2e/screen.py:4-9 | afterwards the screen shows the frame iff every cell left out showed it already |
| Painting.DifferenceTurnsFrame | scripts/tui-e2e/screen.py:4-9 | if the screen shows one frame, one cursor move and one character per differing cell make it show the other, wherever the cursor was |
| Painting.RepaintRepairs | scripts/tui-e2e/screen.py:4-9 | drawing every row in full shows the frame whatever was on the screen |
| Painting.LinesOfFrame | scripts/tui-e2e/screen.py:124-130 | the lines read from a screen that shows a frame are its rows, trimmed at the end |

## Left out

- Tasks, sockets, DNS, the listener and tracing; what they drive appears as steps and times.
- Lock poisoning and contention: every lock is taken at once.
- PeerDelivery.MessagesAreReadByKey: one connection per nickname; registering (insert the peer, queue three frames), setting an identity (with its announcement) and sending are single steps; announcements are never shed, though messages, acknowledgements and keepalives may be; a run ends where the frame reader refuses a frame, because the code then drops the connection.
- StableIdentities.EveryMessageOpens: an end sets its identity at most once and the two differ; `PeerDelivery` has the runs in which neither holds.
- PeerDelivery.StepFlows: the pins and the events for the front-end are not part of the connection's state; pins have their own model.
- Keys.Crypto.LadderOpensIff: the session key always has 32 bytes, so the wrong-length error is a type here.
- Reconnection.RoundDialsTheUnconnected: registering and marking are one step, as in the code without the interruption; `Supervision.MarksHoldIff` treats them as two.
- Endpoints.Endpoint.FlushOutbox: ageing is the separate expiry step of `PeerLink`; `OutboxLink.FlushIsExpiryThenFlush` relates it to the flush that drops stale entries itself.
- Endpoints.Endpoint.Dispatch: pinning an announced identity and the events for the front-end are left to the pin model and the front-end.
- Framing.Reader.ReadAll: only what is read and where it stops; the deadlines are in `ReadLoop` and the handling of frames is in `PeerLink`.
- ReadLoop.CadenceIsSafeIff: the schedule of probes is any schedule with gaps of at most k; how the ticker produces it is not modelled.
- OutboxRuns.UninterruptedRuns: the 64-bit message counter and the expiry counter do not wrap.
- OutboxWire.WireCarriesTheOrders: ids stay below 2^64, where the counter would wrap.
- Receipts.EveryReadingIsConfirmed: a receipt that a full queue sheds is not sent again; `PeerDelivery.MessagesAreReadByKey` still says that only received messages are confirmed.
- LinkWire.QueueCrossesTheWire: ids stay below 2^64, and reading text back from its own encoding is the identity.
- Pins.PinStore.Restore: the file is a typed value, so JSON syntax is one `Unreadable` case, and writes always succeed.
- Pins.NormalNicknameIsFixed: letter case is ASCII only, where the code lower-cases all of Unicode.
- The 64-bit counters of changes and refusals and the clock's conversion to milliseconds.
- LogWriter.SizeRotatingWriter.Write: creating the directory, reading it, opening and removing files always succeed; names are ASCII, so characters and bytes coincide; the day is the clock's reading passed in.
- LogPromises.LogKeepsTheNewest: no two recognised names at the start may stand for one date and index (`p.2026-09-14.1` and `p.2026-09-14.001` do), and the files of the first call's day must be spelled as the appender would; `LogRetention` covers every other directory. At the last 32-bit index the size limit is not claimed, see `LogPromises.LastIndexNeverRolls`.
- Screens.Screen.FeedText: a screen has at least one row and one column (erasing on an empty one fails in the original); column widths are any function of the character; parameters are ASCII digits; the bell after a title skips one more character, as in the code.
- `fingerprint` and the display of identities, which only format.
- Cipher, Argon2, SHA-256, HKDF and curve internals, and randomness.
- Tox, the database, configuration and command line, front-ends and end-to-end harness, apart from the keepalive range.
