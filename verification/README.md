# bishlink: a verified model of the publish/subscribe tunnel

bishlink carries packets between two endpoints over QUIC datagrams and streams. Published objects are cut into
zero-padded symbols, protected by forward error correction, and reassembled in a small ring of slots; lost symbols are
asked for again by NACK and rebuilt from a ring of sent objects. A control stream carries authentication,
subscriptions and NACKs, track streams carry reliable objects, and a grouping buffer packs several packets into one
object. This project models that logic and proves what it promises. `dafny verify dfyconfig.toml` checks all of it.

## How the model is laid out

| module | content |
|---|---|
| `Bytes`, `Wire` | byte strings, big-endian fields, the 32-byte datagram header |
| `ErasureCode` | what the transport relies on from a code, and a single-parity XOR code that meets it |
| `Tracks`, `TracksImpl` | track identities, the 32-entry subscription table, its in-place form |
| `Sender`, `SenderImpl` | splitting, parity, header, sent-object ring, answer to a NACK; the same as loops over arrays |
| `Assembler`, `ReceiverImpl` | the 16-slot assembler ring as functions, and as a class with loops that is proved equal to them |
| `Protocol` | two endpoints and a network that drops, duplicates and reorders, as a step system |
| `Residency`, `Delivery` | what one slot keeps, and what every step of the system keeps |
| `Guarantees`, `Repair`, `Lifetime`, `Objects`, `Outcomes`, `Progress` | the promises over every run: per residency, per NACK, per object, and what always remains possible |
| `Keys` | how objects are told apart by track, group and object id, and when that fails |
| `Live` | objects and subscriptions interleaved: the promises while the tables grow |
| `Scenarios`, `Startup` | concrete runs |
| `Codec`, `StreamParser`, `Session`, `Gate`, `LongNack` | wire formats, incremental parsing, callbacks, the authentication gate, NACKs longer than the parser reads |
| `Meaning`, `Handshake`, `NackPath` | what bytes stand for: each message and record by its event, two daemons from the token to agreed tracks, a NACK from its bytes to the delivery |
| `Aliases`, `Duplex` | both ends' subscription tables while SUBSCRIBE messages are in flight, when one end subscribes and when both do |
| `Grouping`, `GroupingImpl`, `EndToEnd` | packet grouping, the daemon's unpacking loop, and the composition with the object protocol |
| `FecCache`, `RaptorQ`, `Paths`, `Arena`, `Sweep` | the supporting structures |
| `Ifmon` | interface snapshots, their difference, the watcher |

Each class is proved equal, call by call, to a function on values; the properties of whole runs are proved about those
functions.

## Assumptions

- The erasure libraries are a parameter `Code`: encoding is deterministic, creating a context is deterministic, and
  what a decoder returns from at least k symbols of a codeword is the data, whatever bytes lie in the missing blocks
  (`ErasureCode.Lawful`); `RaptorQ.RaptorQIsLawful` derives this for the RaptorQ branch from what is asked of the
  library. That any k symbols suffice (`ErasureCode.AnyK`) is assumed only where a statement says `Recoverable`. A
  failing Reed-Solomon decode is taken to leave the blocks as they were.
- Objects are within the limits in which the code's fixed buffers and header fields are meaningful
  (`Sender.InLimits`): symbol size 1000 to 2016 bytes, at most 256 symbols when there is parity, ids and sizes below
  2^32.
- A step of a run is possible (`Protocol.Possible`) and regular (`Protocol.Regular`): no two objects are sent under one
  (track, group, object) key, and no NACK is answered from a stray, a DATA object that was published and remembered
  when no peer could get it. Publishing strays is part of every run. `Keys.DistinctKeysSuffice` derives regularity
  from distinct keys and `Keys.GroupingAloneIsRegular` from nothing but a grouping run below 2^32 objects; what
  happens otherwise is under the next heading.
- The publisher's table determines tracks from aliases and back, and aliases mean the same at the other end
  (`Protocol.Sane`). `Aliases.AliasAgreement` proves this of every run of one-sided subscriptions, `Live.LiveIsRun` of
  every moment of a run in which such subscriptions and objects are interleaved, and `Duplex.EitherEndMayPublish` of
  both directions.
- Clocks, the network, the optimizer's answer, interface snapshots, the application callback and the set of
  connections freed by a tick are parameters. Allocation succeeds; the control stream is open.

## Where the code does not do what one might expect

Each item names the exact condition, and a concrete input where the code falls short.

- A NACK with more than 256 indices is not read back, because the count is clamped before the stream is advanced
  (src/common/transport_quicly.c:582, 684): `Codec.HeadRoundTrip`, `Codec.NackOverflow`. A residency's NACK is that long
  exactly if its object has more than 256 symbols beyond ceil(k/2): `Lifetime.NackReadBackIff`. The bytes of the other
  indices are parsed as control messages: `LongNack.NackRemainder`. A list of 0 to 255 + n thus subscribes to n / 3
  tracks that nobody asked for, and fills the publisher's table exactly if these and the entries in use make 32:
  `LongNack.LongNackSubscribes`, `LongNack.LongNackFillsIff`.
- An object under the telemetry alias, or of more than 16384 symbols, is sent but never delivered; every other published
  object can still be delivered from every reachable state: `Progress.DeliveryPossibleIff`,
  `Scenarios.LongObjectIsNeverDelivered`.
- An object whose slot has been taken over is assembled again when late symbols arrive, so it can be delivered twice, or
  reported lost after a delivery: `Scenarios.DeliveredTwice`, `Scenarios.LostAfterDelivery`. A symbol of the object
  starts it again exactly if at least 16 slots have been claimed since its latest residency began, and a second outcome
  occurs exactly if a residency begun in this way ends: `Outcomes.ReclaimIff`, `Outcomes.SecondOutcomeIff`. So a second
  outcome takes 18 claims in all, and each further one 17 more: `Objects.OutcomesBounded`.
- The daemon numbers packets with one counter (src/daemon/main.c:139) and grouped objects with another
  (src/common/transport_quicly.c:1919), both from 0 in group 0, and DATA objects are remembered even when no peer gets
  them (2289). At start-up a NACK for the first grouped object can therefore be answered with symbols of a packet
  published before, and what is delivered is neither: `Startup.StartupMixesObjects`. A NACK is answered with its own
  object exactly if no stray of the same track, group and object id lies in the ring before it:
  `Keys.AnsweredFromOwnIff`. Sending a second object under a key leaves every delivery true exactly if the key was not
  used for a deliverable object with other content: `Keys.KeyReuseIff`.
- An accepting reply message (type 0x05) sets the authentication flag whichever side receives it. So a server connection
  is authenticated exactly after a right token or an accepting reply, and the token is really required exactly while no
  accepting reply has been received: `Gate.DaemonFlagExact`, `Gate.TokenRequiredIff`, `Gate.HandshakeExact`,
  `Gate.ReplyWithoutToken`.
- If both ends subscribe before they hear of each other, both choose alias 8, and NACKs for one of the two tracks go
  unanswered: `Duplex.CrossedSubscriptionsCollide`. A subscription to a new track makes an alias mean two tracks exactly
  if the end that makes it is behind and asks for another track than the one numbered next: `Duplex.SubscribeClashIff`.
  Over any run in which the tables do not overflow, no alias ever means two tracks exactly if no subscription is of that
  kind: `Duplex.NeverClashIff`. In the order the daemons keep none is: `Duplex.DaemonsNeverClash`.
- Packets of 65536 bytes or more do not survive grouping, because the length is cut to 16 bits:
  `Grouping.GroupingConserves`, `Grouping.PacketSurvivesIff`.
- The grouping buffer has one track, that of its first packet. Every packet travels under its own exactly if none is
  published while the buffer holds one of another track: `Grouping.OwnTracksIff`, `Grouping.TwoTracksMixed`.
- DATA packets sent over datagrams to a peer that did not ask for FEC are not framed, but unpacked all the same:
  `EndToEnd.FramingAgreesIff`, `EndToEnd.UngroupedIsMangled`.
- The track-stream parser advances by a 32-bit sum: `Codec.RecordShiftExact` says exactly when that is the record's size.
- If the watcher's first fetch fails after it has listed some interfaces, they are never reported:
  `Ifmon.NoChangeLostIff`, `Ifmon.FirstFetchLost`.

## Model

| member | source | states |
|---|---|---|
| `Guarantees.DeliveredIsPublished` | src/common/transport_quicly.c:880-1114 | Over every run with loss, duplication, reordering, strays and arbitrary NACKs, a delivered object was published, and its bytes, keyframe mark and priority are those published under its track, group and object id, whatever stale bytes the slot held |
| `Guarantees.EveryPossibleStepIsSafe` | src/common/transport_quicly.c:642-674 | In every reachable state each publish within the limits, under whatever key and with or without a peer, each NACK, a stray's answer included, and each arrival is handled inside the bounds the code relies on, the 2048-byte packet buffer and the assembler buffers included, so runs never get stuck |
| `Guarantees.DatagramsFit` | src/common/transport_quicly.c:642-674 | Every datagram of every run fits the packet buffer of 2048 bytes |
| `Guarantees.Conservation` | src/common/transport_quicly.c:968-1112 | In every reachable state: slot claims = OBJECT events + LOST events + resident undecoded slots |
| `Guarantees.OneOutcome` | src/common/transport_quicly.c:968-1112 | No residency yields both an OBJECT and a LOST event, or either twice; it has yielded one exactly if it is no longer pending |
| `Guarantees.LostEndsResidency` | src/common/transport_quicly.c:973-984 | Every LOST event names a published object and is the one and only outcome of its residency |
| `Guarantees.RecoveryThreshold` | src/common/transport_quicly.c:1028-1112 | In every used slot of every reachable state the received count is the number of set mask bits; it is decoded once all data symbols are in, never before k symbols, and with an any-k code exactly when k distinct symbols are in |
| `Guarantees.NackExactness` | src/common/transport_quicly.c:1038-1052 | Every NACK is the only one of its residency, is for a DATA object of two or more symbols, goes out with exactly ceil(k/2) distinct symbols in hand, and lists in ascending order exactly those not in hand |
| `Guarantees.NackTiming` | src/common/transport_quicly.c:1038-1052 | A resident slot has sent its NACK if and only if it assembles a DATA object with k >= 2 and its distinct count has reached ceil(k/2) |
| `Live.LiveIsRun` | src/common/transport_quicly.c:2360-2385 | SUBSCRIBE messages sent and handled between any two steps: at every moment the tables meet the assumptions of the object protocol, and the objects are where a run under the tables of that moment could have brought them, so that every promise about the end of a run holds at every moment |
| `Live.DeliveredIsPublishedLive` | src/common/transport_quicly.c:880-1114 | Over every such interleaving a delivered object was published, and carries what was published under its track, group and object id |
| `Live.ConservationLive` | src/common/transport_quicly.c:968-1112 | Over every such interleaving slot claims = OBJECT events + LOST events + pending slots, and every possible step stays inside the buffers |
| `Live.StepCarriesOver` | src/common/transport_quicly.c:274-308 | A step of the object protocol under some tables is the same step under all tables that have grown from them |
| `Live.DeliverGrows` | src/common/transport_quicly.c:316-342 | A SUBSCRIBE message handled at the publisher leaves the meaning of every alias and the alias of every track |
| `Keys.AnsweredFromOwnIff` | src/common/transport_quicly.c:594-604 | In every reachable state a NACK for an object among the last 32 remembered is answered with exactly the datagrams first sent for the symbols asked for if no stray with its track, group and object id lies in the ring before it, and with symbols of such a stray otherwise |
| `Keys.SearchEndsAtOwnIff` | src/common/transport_quicly.c:594-604 | The search of the ring ends at the object's own place if and only if there is no such stray, and at a stray otherwise |
| `Keys.KeyReuseIff` | src/common/transport_quicly.c:2289-2308 | Sending an object leaves every delivery true, whatever has arrived before, if and only if its key has not been used for a deliverable object with other content |
| `Keys.DistinctKeysSuffice` | src/common/transport_quicly.c:594-604 | Whatever the code lets happen is a regular run if no two objects published, strays included, have the same track, group and object id, and NACKs are the receiver's |
| `Keys.GroupedNamesDistinct` | src/common/transport_quicly.c:1913-1932 | A grouping run below 2^32 objects never uses a key twice |
| `Keys.GroupingAloneIsRegular` | src/common/transport_quicly.c:1913-1932 | So publishing the objects of a grouping run alone meets the assumption on keys, whether or not a peer gets each object |
| `Keys.RunAllKept` | src/common/transport_quicly.c:2289-2308 | In every reachable state every DATA object sent has been remembered, once, and in the order of sending |
| `Startup.StartupMixesObjects` | src/daemon/main.c:130-151 | A concrete trace with the receiver's own NACK: a packet published before the peer subscribes, then a grouped one; one symbol arrives, the NACK is answered from the first packet, and the object delivered as the grouped one is neither of the two |
| `Startup.GroupedIsFlushed` | src/common/transport_quicly.c:1913-1932 | The grouped object of that trace is what a grouping run of one packet and one tick publishes, as object 0 |
| `Lifetime.NackRepair` | src/common/transport_quicly.c:560-684 | A residency sent a NACK short enough to be read whole; the publisher handled it while the object was among the last 32; every datagram sent in answer arrived, in any order among other traffic; and at most 16 slots were claimed since the residency began. Then the slot still belongs to the residency and is decoded, and the object was delivered once by it |
| `NackPath.NackBytesRepair` | src/common/transport_quicly.c:560-684 | The same from byte to byte: the publisher's step is the one that its control parser makes of the bytes of the residency's NACK |
| `NackPath.NackHandedOver` | src/common/transport_quicly.c:560-592 | The bytes of any residency's NACK of at most 256 symbols have one effect at the publisher, the NACK with its alias, group, object and list as they were sent; no byte stays unread and the connection is left as it was |
| `Lifetime.NackReadBackIff` | src/common/transport_quicly.c:1041-1052 | The NACK of a residency can be encoded, and is read back whole and looked at whole, if and only if the object has at most 256 symbols beyond ceil(k/2) |
| `Lifetime.NackSize` | src/common/transport_quicly.c:1041-1046 | The NACK of a residency lists all symbols but ceil(k/2) |
| `Lifetime.ResidencyLasts` | src/common/transport_quicly.c:968-971 | A residency lasts exactly until 16 further slots have been claimed |
| `Lifetime.RunFifo` | src/common/transport_quicly.c:968-971 | In every reachable state the next slot to take over is the number of claims modulo 16, and a used slot belongs to one of the last 16 residencies, each in its own slot |
| `Objects.ObjectConservation` | src/common/transport_quicly.c:968-1112 | Per object, in every reachable state: slots claimed for it = its OBJECT events + its LOST events + 1 if a slot is pending on it |
| `Outcomes.ReclaimIff` | src/common/transport_quicly.c:958-971 | Step t being the latest to claim a slot for an object, the arrival of one of its symbols claims another if and only if at least 16 slots have been claimed in between |
| `Outcomes.ClaimedExactly` | src/common/transport_quicly.c:958-971 | In every run a step claims a slot for an object if and only if a symbol of it passes the checks of the datagram path and the object has had no residency yet, or at least 16 slots have been claimed since its latest began |
| `Outcomes.OutcomesExact` | src/common/transport_quicly.c:968-1112 | The deliveries and losses of an object are as many as the residencies its arrivals have begun, less one if a slot is still pending on it |
| `Outcomes.SecondOutcomeIff` | src/common/transport_quicly.c:958-1112 | By any moment of any run an object has had a second outcome if and only if a residency that was not its first has ended |
| `Objects.ReclaimApart` | src/common/transport_quicly.c:958-971 | Between two claims for one object there are at least 16 others |
| `Objects.OutcomesBounded` | src/common/transport_quicly.c:958-1112 | An object with e outcomes needs more than 17 * (e - 1) claims in all; with at most 17 claims each object is delivered or lost at most once |
| `Scenarios.DeliveredTwice` | src/common/transport_quicly.c:958-1112 | A run of 18 claims in which one object is delivered twice, so that the bound is reached |
| `Scenarios.LostAfterDelivery` | src/common/transport_quicly.c:968-984 | A run in which a two-symbol object is delivered, evicted, claimed again by one late symbol, and then reported lost |
| `Repair.ListedSymbolsComplete` | src/common/transport_quicly.c:1028-1112 | If every symbol listed by a residency's NACK arrives while the residency lasts, the slot is decoded and its object delivered once |
| `Repair.RunAnswersExactly` | src/common/transport_quicly.c:582-674 | In every reachable state a NACK for a published DATA object, unless the search ends at a stray, is answered with exactly the datagrams first sent for the first 256 requested symbols if the object is among the last 32 remembered, and with nothing otherwise |
| `Repair.AnswersReachNetwork` | src/common/transport_quicly.c:642-674 | When the publisher handles a NACK for a recent object, each of the first 256 requested symbols that exists is put on the network |
| `Repair.RunKeepsSlot` | src/common/transport_quicly.c:958-1112 | Between any two states of a run a slot that keeps its residency forgets no symbol, stays with its object, and never becomes undecoded |
| `Repair.ArrivedSymbolStays` | src/common/transport_quicly.c:1028-1036 | A symbol that arrives while the slot works on its object is in the slot as long as the residency lasts |
| `Repair.UnlistedStay` | src/common/transport_quicly.c:1041-1052 | The symbols a NACK does not list are in the slot from then on |
| `Progress.DeliveryPossibleIff` | src/common/transport_quicly.c:892-952 | From every reachable state a published object can still be delivered, by arrivals alone, if and only if it is not under the telemetry alias and has at most 16384 symbols |
| `Progress.DeliveryRemainsPossible` | src/common/transport_quicly.c:880-1114 | The run that does it: no sequence of losses, evictions and duplicates ever makes an object undeliverable |
| `Progress.OnlyDeliverableArrives` | src/common/transport_quicly.c:892-952 | Whatever gets a slot in any run is not under the telemetry alias and has at most 16384 symbols |
| `Progress.RunOnNetwork` | src/common/transport_quicly.c:2247-2286 | In every reachable state every symbol of every published object has been handed to the network |
| `Scenarios.SomeRunDelivers` | src/common/transport_quicly.c:880-1114 | A concrete run with the XOR code publishes and delivers a two-symbol object, so the assumptions can be met |
| `Scenarios.LongObjectIsNeverDelivered` | src/common/transport_quicly.c:951-952 | An object of 16385 symbols can be published, and no continuation delivers it |
| `Delivery.RunKeeps` | src/common/transport_quicly.c:880-1114 | Every state of every run keeps the system invariant: honest network, ring = last 32 DATA objects, strays included, slots hold only their object's symbols, log and outcomes consistent |
| `Delivery.PublishKeeps` | src/common/transport_quicly.c:2235-2308 | Publishing keeps the invariant |
| `Delivery.StashKeeps` | src/common/transport_quicly.c:2235-2308 | Publishing a DATA object that no peer gets keeps the invariant; it is remembered all the same |
| `Delivery.AnswerKeeps` | src/common/transport_quicly.c:560-684 | Handling any NACK that is not answered from a stray keeps the invariant; one longer than the parser reads arrives here cut to 256 indices, and LongNack says what its remainder does |
| `Delivery.ArriveKeeps` | src/common/transport_quicly.c:880-1114 | The arrival of any datagram ever sent keeps the invariant |
| `Delivery.AnswerIsHonest` | src/common/transport_quicly.c:592-674 | Whatever is sent in answer to a NACK, unless from a stray, is a symbol of some published object under that object's key |
| `Residency.AbsorbHolds` | src/common/transport_quicly.c:1025-1112 | One more symbol leaves the slot holding its object; delivery happens exactly when it becomes decoded and carries the published object; the NACK goes out exactly when the count first reaches the threshold |
| `Residency.RecoveredIsData` | src/common/transport_quicly.c:1054-1084 | Recovery puts the object's own data symbols in place; it succeeds once all data symbols are there, and with an any-k code once k distinct symbols are there |
| `Residency.DecodedIsData` | src/common/transport_quicly.c:1066-1083 | Decoding, with the code both sides chose, puts the object's own data symbols in place whatever the missing blocks hold |
| `Residency.StoreFills` | src/common/transport_quicly.c:1031-1036 | Storing a codeword symbol keeps received blocks equal to the codeword and the count equal to the mask, duplicates included |
| `Assembler.StoredOnce` | src/common/transport_quicly.c:1031-1036 | The first symbol of its number is written over the front of its buffer, marked and counted, and touches nothing else; a later one changes nothing, whatever it carries |
| `Residency.ClaimHolds` | src/common/transport_quicly.c:986-1023 | A slot taken over, with whatever bytes it held, starts out holding no symbol of the new object and all its parameters |
| `Residency.NackPhase` | src/common/transport_quicly.c:1038-1052 | The NACK guard, in terms of the distinct count alone |
| `Sender.RetransmissionFidelity` | src/common/transport_quicly.c:607-674 | The answer to a NACK is, bit for bit and in order, the datagrams first published for the requested symbols, parity included, apart from path id and send time |
| `Sender.KindsAgree` | src/common/transport_quicly.c:2224-2233 | Whenever parity is sent, sender and receiver choose the same code, and for DATA objects the retransmitter too: RaptorQ exactly for DATA objects of more than 255 symbols |
| `Sender.StampedAsGiven` | src/common/transport_quicly.c:2262-2284 | Each datagram of a publish carries the path and send time given for its symbol, its number, and the symbol itself |
| `Sender.RepairSymbolsAgree` | src/common/transport_quicly.c:611-640 | The symbols rebuilt from the sent-object ring are those first sent |
| `Sender.OriginalsCover` | src/common/transport_quicly.c:642-674 | Every requested symbol that exists is answered |
| `Sender.OriginalsOnly` | src/common/transport_quicly.c:642-674 | Nothing but requested symbols is sent |
| `Sender.AssembleSplit` | src/common/transport_quicly.c:1086-1096 | Reassembling the zero-padded symbols of an object gives back its bytes |
| `Sender.SymbolByte` | src/common/transport_quicly.c:2205-2218 | Byte j of symbol i is byte i * t + j of the object, or zero behind its end |
| `Sender.DataSymbols` | src/common/transport_quicly.c:2077-2079 | The least number of symbols, and at least one, that hold the object |
| `Sender.RememberHoldsLatest` | src/common/transport_quicly.c:2289-2308 | The ring holds exactly the last min(n, 32) remembered objects, each at its number modulo 32 |
| `Sender.OccupiedIsRecent` | src/common/transport_quicly.c:2289-2308 | Every occupied slot of the ring holds one of the latest 32 objects |
| `SenderImpl.BlocksForPublish` | src/common/transport_quicly.c:2205-2218 | The publish loop, which copies only the last block, yields the zero-padded symbols of the specification |
| `SenderImpl.BlocksForRepair` | src/common/transport_quicly.c:615-626 | The retransmission loop, which copies every block, yields the same symbols |
| `SenderImpl.SliceOrPad` | src/common/transport_quicly.c:2205-2218 | A full symbol as a slice of the payload, any other padded: the t bytes from the offset, zero padded |
| `SenderImpl.CopyOverZeros` | src/common/transport_quicly.c:615-626 | A copy over a zeroed block: the same bytes |
| `SenderImpl.SendSymbols` | src/common/transport_quicly.c:2247-2286 | The send loop yields one datagram per symbol, data first, each with its own header |
| `SenderImpl.SendOne` | src/common/transport_quicly.c:2262-2284 | One datagram: header, then data or parity block |
| `SenderImpl.AnswerAll` | src/common/transport_quicly.c:642-674 | The answer loop yields the specified answers in the order of the request, skipping indices out of range |
| `SenderImpl.AnswerOne` | src/common/transport_quicly.c:642-672 | The answer to one index: nothing if it is out of range, else header and symbol |
| `SenderImpl.Publisher.Publish` | src/common/transport_quicly.c:2235-2308 | Sends to a subscribed peer what the specification says, and remembers DATA objects in the ring |
| `SenderImpl.Publisher.FindCached` | src/common/transport_quicly.c:594-604 | The first ring slot with the requested track, group and object |
| `SenderImpl.Publisher.OnNack` | src/common/transport_quicly.c:592-684 | The whole NACK path equals its specification and leaves the ring alone |
| `Assembler.MissingExact` | src/common/transport_quicly.c:1041-1046 | The list of missing indices is ascending and has exactly the unset mask bits |
| `ReceiverImpl.ListMissing` | src/common/transport_quicly.c:1041-1046 | The loop that builds that list |
| `ReceiverImpl.HasAllData` | src/common/transport_quicly.c:1055-1061 | True if and only if the first k mask bits are set |
| `ReceiverImpl.ErasureMarks` | src/common/transport_quicly.c:1076-1080 | Marks exactly the symbols not received |
| `ReceiverImpl.CopyOut` | src/common/transport_quicly.c:1087-1095 | Copying chunk by chunk gives the first original-size bytes of the data blocks laid end to end |
| `ReceiverImpl.TryRecover` | src/common/transport_quicly.c:1054-1084 | The decision whether and with which code to decode, and its result |
| `ReceiverImpl.CheckDatagram` | src/common/transport_quicly.c:892-956 | Which datagrams reach the assembler: telemetry, short, unknown-alias and oversized ones do not |
| `Assembler.AdmittedIff` | src/common/transport_quicly.c:892-956 | A datagram reaches the assembler if and only if it has a whole header and a whole symbol, is not under alias 6, its alias means a track, and it speaks of at most 16384 symbols of at most 4096 bytes |
| `Assembler.ClaimAllocates` | src/common/transport_quicly.c:986-1008 | Buffers that suffice stay with what is in them; otherwise there are new ones, all zero, at least 256 of at least 1250 bytes |
| `ReceiverImpl.AssemblerRing.FindSlot` | src/common/transport_quicly.c:958-966 | The first used slot with the header's alias, group and object |
| `ReceiverImpl.AssemblerRing.Acquire` | src/common/transport_quicly.c:958-1023 | The slot found, or the next one taken over with the LOST event of what it held |
| `ReceiverImpl.AssemblerRing.RequestRepair` | src/common/transport_quicly.c:1038-1052 | One NACK, listing the missing symbols, exactly when it is due; otherwise nothing changes |
| `ReceiverImpl.AssemblerRing.Absorb` | src/common/transport_quicly.c:1025-1112 | Store, NACK and delivery together equal their specification and touch no other slot |
| `ReceiverImpl.AssemblerRing.Take` | src/common/transport_quicly.c:958-1112 | Everything behind the checks: slot, LOST event, store, NACK and delivery equal their specification |
| `ReceiverImpl.AssemblerRing.OnDatagram` | src/common/transport_quicly.c:892-1114 | The whole receive path equals its specification |
| `Wire.HeaderRoundTrip` | src/common/transport_quicly.c:360-373 | Parsing the 32 header bytes in front of any payload gives back every field |
| `Wire.HeaderLayout` | src/common/transport_quicly.c:360-373 | Where each field lies in the 32 bytes, most significant byte first |
| `Wire.BigEndian` | src/common/transport_quicly.c:360-373 | The first byte of a 16-bit or 32-bit field is the most significant |
| `ErasureCode.XorCodeMeetsContract` | src/common/fec.h:28-33 | A single-parity XOR code meets the contract assumed of the libraries, any-k included |
| `ErasureCode.XorRecovers` | src/common/fec.h:28-33 | With one symbol missing the XOR of the others is that symbol, whatever the missing block held |
| `RaptorQ.Decode` | src/common/fec.c:183-260 | In place: every failing exit leaves the blocks unchanged; with k symbols received only the library can fail; success writes exactly the dropped source blocks |
| `RaptorQ.DecodedIsSource` | src/common/fec.c:183-260 | Given a library that solves the replaced system, decoding codeword symbols returns the source symbols or nothing, whatever the missing blocks hold |
| `RaptorQ.RaptorQIsLawful` | src/common/fec.c:183-260 | With a library that keeps sizes and solves what it says it solves, a code that decodes this way meets the contract every guarantee of the object protocol assumes |
| `RaptorQ.EnoughRepairs` | src/common/fec.c:201-203 | With at least k symbols received there is a repair for every drop, so the count guard never rejects |
| `RaptorQ.RowsAreDistinctReceived` | src/common/fec.c:241-251 | Each of the k rows is filled by one received symbol, and all of them are different |
| `RaptorQ.RowsReplaced` | src/common/fec.c:241-251 | The rows are the codeword's source symbols with each drop replaced by its repair symbol |
| `RaptorQ.DropsExact` | src/common/fec.c:185-191 | The drops are exactly the missing source symbols, ascending |
| `RaptorQ.RepairsExact` | src/common/fec.c:193-199 | The repairs are received parity symbols, ascending |
| `RaptorQ.RepairsComplete` | src/common/fec.c:193-199 | No received parity symbol is left out of the repairs |
| `RaptorQ.ListDrops` | src/common/fec.c:185-191 | The drop loop |
| `RaptorQ.ListRepairs` | src/common/fec.c:193-199 | The repair loop |
| `RaptorQ.FillRows` | src/common/fec.c:236-251 | The two fill loops put each row's own symbol, or its repair, in the row |
| `RaptorQ.CopyReceived` | src/common/fec.c:241-245 | The first fill loop: received source symbols go to their own rows |
| `RaptorQ.Scatter` | src/common/fec.c:246-251 | The second fill loop, and the output loop: the listed places are written and nothing else |
| `RaptorQ.MixOut` | src/common/fec.c:253-258 | The output loop overwrites exactly the dropped blocks |
| `Session.ControlChunkIndependence` | src/common/transport_quicly.c:403-689 | For arbitrary bytes and any split into receive calls: same effects in the same order, same connection state including flag and subscriptions, same unread suffix as one call on the whole |
| `Session.TrackChunkIndependence` | src/common/transport_quicly.c:717-778 | The same for track streams |
| `Session.ControlRoundTrip` | src/common/transport_quicly.c:403-689 | Parsing any sequence of encoded messages applies them in order and leaves no byte unread when the gate is open; the rows of Meaning say what each message does |
| `Session.TrackRoundTrip` | src/common/transport_quicly.c:2039-2061 | An alias byte followed by length-prefixed records is parsed into exactly these records; Meaning.TrackEvents says what each raises |
| `Meaning.ControlEvents` | src/common/transport_quicly.c:403-689 | Whatever the callback does, an open control stream of encoded messages raises exactly the events they stand for, with their values, in order, and leaves no byte unread |
| `Meaning.TrackEvents` | src/common/transport_quicly.c:745-776 | Whatever the callback does, a track stream raises each record once, in order and whole, as a keyframe of the track its alias means; under an unknown alias it has no effect at all |
| `Meaning.SubscribeDoes` | src/common/transport_quicly.c:420-457 | The bytes of a SUBSCRIBE enter the track with its alias, then raise it with its type, flags and name; then come the callback's calls and the next message |
| `Meaning.UnsubscribeDoes` | src/common/transport_quicly.c:420-457 | The bytes of an UNSUBSCRIBE deactivate the entry, then raise the track |
| `Meaning.KeyframeDoes` | src/common/transport_quicly.c:420-457 | The bytes of a keyframe request raise the track and change nothing |
| `Meaning.UnicastDoes` | src/common/transport_quicly.c:458-489 | A unicast of at most 1 MiB is raised whole as an object of the INPUT track, not a keyframe; a larger one closes the connection |
| `Meaning.AuthDoes` | src/common/transport_quicly.c:490-507 | A token is raised as it was sent, gate open or not |
| `Meaning.AuthReplyDoes` | src/common/transport_quicly.c:508-521 | A reply sets the flag exactly if its status is 1, and raises that verdict, gate open or not |
| `Meaning.ObjectDoes` | src/common/transport_quicly.c:522-558 | An object on the control stream is raised as a keyframe of its alias's track, marked reliable and not FEC; it goes by under an unknown alias, and closes the connection above 1 MiB or with the gate closed |
| `Meaning.NackDoes` | src/common/transport_quicly.c:560-592 | A NACK of at most 256 indices is handed over with its alias, group, object and indices as written, if the alias means a track, and otherwise goes by |
| `Meaning.UnknownPasses` | src/common/transport_quicly.c:685-689 | A byte that starts no message is skipped |
| `Meaning.ClosedGateRefuses` | src/common/transport_quicly.c:415-418 | With the gate closed every message but the handshake closes the connection, has no other effect, and stays unread |
| `Meaning.ClosedTrackRefuses` | src/common/transport_quicly.c:757-760 | With the gate closed a record closes the connection and stays unread |
| `Meaning.PartWaits` | src/common/transport_quicly.c:403-689 | A message that has not arrived whole has no effect and stays unread |
| `Meaning.ClosedEarly` | src/common/transport_quicly.c:412-418 | With the gate closed five bytes of a SUBSCRIBE, UNSUBSCRIBE or keyframe request close the connection |
| `Meaning.NameIsCut` | src/common/transport_quicly.c:429-432 | A track name is taken up to its first NUL byte, and no more than 63 bytes of it |
| `Meaning.WireExamples` | src/common/transport_quicly.c:2431-2450 | The bytes of one message of each type |
| `Meaning.NackExample` | src/common/transport_quicly.c:846-878 | The bytes of a NACK for two symbols |
| `Codec.HeadRoundTrip` | src/common/transport_quicly.c:403-689 | With the gate open an encoded message is read back whole if and only if it is within the limits (unicast at most 1 MiB, NACK at most 256 indices) |
| `Codec.NackHead` | src/common/transport_quicly.c:846-878 | What the parser makes of any encoded NACK: the first 256 indices at most, advancing past no more than those |
| `Codec.NackOverflow` | src/common/transport_quicly.c:582-684 | A NACK of 257 indices is not read back |
| `LongNack.NackRemainder` | src/common/transport_quicly.c:560-684 | With the gate open a NACK of any length is handed over with its alias, group, object and first 256 indices, and parsing goes on with the bytes of the other indices in front of whatever follows |
| `LongNack.LongNackSubscribes` | src/common/transport_quicly.c:420-445 | A NACK that lists 0 to 255 + n is parsed as one of 256 indices and n / 3 SUBSCRIBE messages that nobody sent, with up to four bytes left for the message that follows |
| `LongNack.LongNackFillsIff` | src/common/transport_quicly.c:316-342 | Handling it fills the daemon's table, if that has no track of type 1, if and only if the entries in use and n / 3 more make 32 |
| `Codec.HeadStable` | src/common/transport_quicly.c:403-689 | Once an iteration has decided, more bytes behind never change its decision |
| `Codec.RecordStable` | src/common/transport_quicly.c:745-760 | The same for track records |
| `Codec.RecordRoundTrip` | src/common/transport_quicly.c:2058-2061 | An encoded record is read back whole |
| `Codec.RecordShiftExact` | src/common/transport_quicly.c:776-776 | The 32-bit shift is exact if and only if the announced size is below 2^32 - 4, which holds below 4 GiB of unread bytes |
| `StreamParser.ChunkIndependence` | src/common/transport_quicly.c:781-795 | Every parser whose decisions are stable gives the same result for any chunking |
| `StreamParser.Split` | src/common/transport_quicly.c:781-795 | Parsing x and then y behind what x left unread equals parsing x + y |
| `StreamParser.Stream.Receive` | src/common/transport_quicly.c:781-795 | The in-place receive loop equals the recursive parser |
| `Gate.GatedAfterGrant` | src/common/transport_quicly.c:415-418 | On a server connection, over every interleaving of control bytes, track bytes, datagrams and calls, each subscribe, unsubscribe, keyframe, object, NACK and datagram effect comes after an event that set the flag |
| `Gate.FlagExactlyGranted` | src/common/transport_quicly.c:512-515 | After every run the flag is set if and only if one of the two granting events has happened |
| `Gate.FlagNeverCleared` | src/common/transport_quicly.c:512-515 | No input ever clears the flag |
| `Gate.DaemonGate` | src/daemon/main.c:61-75 | On a daemon's server connection every gated effect comes after a request with the right token or an accepting reply message |
| `Gate.DaemonFlagExact` | src/daemon/main.c:61-75 | A daemon's server connection is authenticated if and only if a request with the right token or an accepting reply message has been received |
| `Gate.TokenRequiredIff` | src/common/transport_quicly.c:507-521 | Until the right token has been received: whatever arrives next short of an accepting reply, gated effects come only after the right token, if and only if no accepting reply has been received; otherwise five bytes on a new track stream reach the application as an object |
| `Gate.HandshakeExact` | src/common/transport_quicly.c:490-521 | The same on messages: after any handshake, authenticated exactly if a message carries the right token or is an accepting reply; protected, without the token, exactly if none is an accepting reply |
| `Gate.ReplyWithoutToken` | src/common/transport_quicly.c:512-515 | The bytes 05 01 authenticate every fresh server connection without a token, and a SUBSCRIBE that follows takes effect |
| `Handshake.BothAuthenticatedIff` | src/common/transport_quicly.c:2431-2468 | Two daemons, byte by byte: when the server has read the client's token and the client what the server wrote, both are authenticated if and only if the token was the right one; with any other the server writes 05 00 and closes, and neither has subscribed to anything |
| `Handshake.TracksAgreed` | src/daemon/main.c:40-82 | With the right token and at most 32 tracks between them, once each has read what the other wrote, every track of either daemon has one alias at both ends that both resolve to it, and either may publish to the other under the assumptions of the object protocol |
| `Handshake.ReplyWritten` | src/common/transport_quicly.c:2453-2468 | transport_respond_auth appends an AUTH reply message with status 1 or 0, and sets the flag or closes accordingly |
| `Handshake.ReplyRead` | src/common/transport_quicly.c:508-521 | That message, read by a daemon, raises its verdict and sets the flag if and only if it accepts |
| `Handshake.OnlyListens` | src/daemon/main.c:83-128 | Outside the handshake a daemon writes nothing, closes nothing and keeps its flag, whatever control messages it reads |
| `Handshake.ClientIgnoresToken` | src/daemon/main.c:61-75 | A client does not answer a token |
| `Handshake.SubscribeWrites` | src/common/transport_quicly.c:2360-2385 | transport_subscribe always writes a SUBSCRIBE message for the track, with the alias it has in the table; a new track gets one above 7 and above every alias in use |
| `Handshake.SubscribeWritten` | src/common/transport_quicly.c:2360-2385 | Bytes and table are those of the message that the model of the two tables puts on its way |
| `Handshake.RightTokenRead` | src/daemon/main.c:61-75 | With the right token the server writes a SUBSCRIBE message for each of its tracks, and then accepts |
| `Handshake.ClientReads` | src/daemon/main.c:76-82 | The client enters all of them, is authenticated, and writes a SUBSCRIBE message for each of its own tracks |
| `Gate.SecretSpells` | src/daemon/main.c:57-65 | The token is "secret_token_123" |
| `Gate.DatagramTakenIff` | src/common/transport_quicly.c:888-890 | A datagram is taken exactly if the gate is open, and changes nothing else |
| `Gate.PartsAsOne` | src/common/transport_quicly.c:781-795 | On a connection with any unread bytes and any streams, bytes received in two parts have the effect of bytes received at once, on the control stream and on every track stream |
| `Gate.OthersStay` | src/common/transport_quicly.c:717-778 | Every input leaves the unread bytes of all other streams alone |
| `Session.ControlAccounted` | src/common/transport_quicly.c:403-689 | The effects of any control bytes account for every change of the flag and respect the gate |
| `Session.TrackAccounted` | src/common/transport_quicly.c:717-778 | The same for track-stream bytes |
| `Session.NextAlias` | src/common/transport_quicly.c:2365-2372 | A new alias is at least 8 and above every alias in use |
| `Aliases.AliasAgreement` | src/common/transport_quicly.c:2360-2385 | After every run of one-sided subscriptions, with messages in flight and no limit on the number of tracks, the publisher's aliases and tracks determine each other and every alias it uses resolves to the same type and name at the subscriber |
| `Aliases.TablesStayUnique` | src/common/transport_quicly.c:316-342 | Entries stay unique by (type, name) at both ends; aliases of named tracks stay distinct, the subscriber's in 8..39 |
| `Aliases.RunInv` | src/common/transport_quicly.c:420-445 | The invariant of both tables and the messages in flight holds after every run |
| `Aliases.StepIsTransport` | src/common/transport_quicly.c:2360-2385 | A step of the model is transport_subscribe at one end, message included, and the control parser's handling of that message at the other |
| `Duplex.TwoWayAgreement` | src/common/transport_quicly.c:2360-2385 | Both ends subscribing at any time, every subscription to a new track made by an end that is not behind or for the track numbered next: at every moment a track known to both ends has one alias at both that both resolve to it, unnamed tracks included; with nothing on its way this goes for every track of either end |
| `Duplex.EitherEndMayPublish` | src/common/transport_quicly.c:2360-2385 | With nothing on its way either end may then publish to the other under the assumptions of the object protocol |
| `Duplex.SubscribeClashIff` | src/common/transport_quicly.c:2360-2377 | One subscription to a new track makes some alias resolve to two tracks if and only if the end is behind and the track is not the one numbered next |
| `Duplex.NeverClashIff` | src/common/transport_quicly.c:2360-2385 | Both ends subscribing and handling messages in any order, no table overflowing: no alias ever resolves to different tracks at the two ends if and only if every subscription to a new track is made by an end that is not behind or is for the track numbered next |
| `Duplex.OutOfOrderClashes` | src/common/transport_quicly.c:2365-2377 | The first subscription of the other kind clashes at once |
| `Duplex.FewFit` | src/common/transport_quicly.c:316-342 | With at most 32 subscriptions in all no table overflows |
| `Duplex.DaemonsNeverClash` | src/daemon/main.c:61-82 | Two daemons, the server subscribing before its accepting reply and the client after it, with at most 32 subscriptions: in order, and no alias ever means two tracks |
| `Duplex.CrossedSubscriptionsCollide` | src/common/transport_quicly.c:2365-2372 | Both ends subscribing before either has heard from the other: both choose alias 8, it resolves to the wrong track, and a NACK for the other track is not answered |
| `TracksImpl.FindTrack` | src/common/transport_quicly.c:274-290 | The alias lookup loop |
| `TracksImpl.SubscriptionTable.ResolveTrack` | src/common/transport_quicly.c:292-308 | The track lookup loop |
| `TracksImpl.SubscriptionTable.Subscribe` | src/common/transport_quicly.c:316-342 | In place: refreshes the entry of the track, else takes the first free one, else changes nothing |
| `TracksImpl.SubscriptionTable.Unsubscribe` | src/common/transport_quicly.c:344-358 | In place: deactivates the first entry of the track and nothing else |
| `Tracks.AddExact` | src/common/transport_quicly.c:316-342 | After a SUBSCRIBE the track has one entry with the flags and alias asked for and no other entry has changed, or the table was full and stays as it is |
| `Tracks.RemoveExact` | src/common/transport_quicly.c:344-358 | After an UNSUBSCRIBE no other entry has changed, and a named track resolves no longer if and only if it had at most one entry |
| `TracksImpl.SubscriptionTable.Request` | src/common/transport_quicly.c:2360-2377 | In place: the alias in use, or a new one above all in use, entered in the table |
| `Grouping.GroupingConserves` | src/common/transport_quicly.c:1939-2011 | For every run of publish and tick calls, whatever the tracks: the groups in order and then the buffer are the published packets; unpacking all flushed objects and then the buffer gives them back if and only if each is below 65536 bytes; fewer than 4 packets and 4000 bytes are held between calls; object ids count up |
| `Grouping.PacketFlushesIff` | src/common/transport_quicly.c:2001-2009 | Over every run a packet ends the group if and only if it is the fourth of it or brings it to 4000 bytes; otherwise it is held with the others |
| `Grouping.TickFlushesIff` | src/common/transport_quicly.c:1536-1542 | Over every run a tick ends the group if and only if there is one and its first packet is 3 ms old or more, in the clock's 64-bit arithmetic |
| `Grouping.ObjectUnpacks` | src/daemon/main.c:99-115 | Each flushed object is unpacked into its own group |
| `Grouping.TickBoundsAge` | src/common/transport_quicly.c:1536-1542 | After a tick nothing held is 3 ms old or more |
| `Grouping.FirstIsOldest` | src/common/transport_quicly.c:1980-1986 | The buffer's timestamp is not later than that of any packet held, under a clock that does not go back |
| `Grouping.UnpackRoundTrip` | src/daemon/main.c:99-115 | Unpacking framed packets gives them back |
| `Grouping.UnpackLoop` | src/daemon/main.c:101-115 | The daemon's loop forwards as many complete frames as there are at the front |
| `Grouping.PacketSurvivesIff` | src/common/transport_quicly.c:2001-2004 | A packet survives framing if and only if its size is below 65536 |
| `Grouping.OwnTracksIff` | src/common/transport_quicly.c:1980-1986 | Over every run each packet travels under its own track if and only if none is published while the buffer holds a packet of another track |
| `Grouping.ObjectHasFirstTrack` | src/common/transport_quicly.c:1980-1986 | Over every run each object, and the buffer, has the track of its first packet |
| `Grouping.TwoTracksMixed` | src/common/transport_quicly.c:1980-1986 | Two packets of two tracks within 3 ms leave as one object under the first track |
| `Grouping.PacketFiledUnder` | src/common/transport_quicly.c:1980-1986 | One call: a packet is filed under its own track, or priority, if and only if the buffer was empty or already had it |
| `GroupingImpl.GroupingBuffer.Publish` | src/common/transport_quicly.c:1980-2011 | In place, with a growing byte buffer: equals the specification whose flushes PacketFlushesIff states |
| `GroupingImpl.GroupingBuffer.Reserve` | src/common/transport_quicly.c:1988-1999 | Doubling makes room and keeps the contents |
| `GroupingImpl.GroupingBuffer.FlushBuffer` | src/common/transport_quicly.c:1913-1932 | Publishes the whole buffer as one object and empties it; does nothing when empty |
| `GroupingImpl.GroupingBuffer.OnTimer` | src/common/transport_quicly.c:1536-1542 | Flushes exactly when something held has reached the age limit |
| `EndToEnd.ForwardedPacketsArePublished` | src/daemon/main.c:99-115 | Whatever the network does and whatever else is published: each DATA object delivered was published; if it is one of a grouping run, the daemon forwards exactly one group of the published packets, and otherwise never the object as it was; the groups in order followed by what is held are the published packets |
| `EndToEnd.FramingAgreesIff` | src/common/transport_quicly.c:1942-1980 | A group of DATA packets of any number comes out as it went in if and only if the receiving side sees the FEC flag exactly when the sending side groups, and grouped packets are below 65536 bytes |
| `EndToEnd.UngroupedIsMangled` | src/common/transport_quicly.c:1096-1099 | Over datagrams to a peer that did not ask for FEC no nonempty list of DATA packets is forwarded as it was |
| `EndToEnd.GroupedAsAsked` | src/common/transport_quicly.c:1939-1978 | A peer's SUBSCRIBE for a DATA track makes its packets grouped if and only if it asks for FEC, and leaves every other track as it was |
| `EndToEnd.OthersForwarded` | src/daemon/main.c:116-121 | Objects of other tracks, and of DATA tracks without the FEC flag, are forwarded as they are |
| `FecCache.HoldsEightMostRecent` | src/common/transport_quicly.c:187-224 | Under a strictly increasing clock, parameters are held if and only if fewer than eight others were requested more recently |
| `FecCache.NoDuplicates` | src/common/transport_quicly.c:187-224 | For every clock and whichever creations fail, no two live entries have the same parameters |
| `FecCache.GivenAsRequested` | src/common/transport_quicly.c:187-224 | A context is given exactly if one is held or can be made, has precisely the requested parameters, and is held afterwards; no other parameters come in |
| `FecCache.MissEvictsOldest` | src/common/transport_quicly.c:205-223 | A request that finds no context evicts the first of the least recently used entries, also when no new context can be made, and changes no other entry |
| `FecCache.Cache.Get` | src/common/transport_quicly.c:187-224 | The single pass that looks for a hit and for the oldest entry at once equals the specification |
| `Paths.PathShares` | src/common/transport_quicly.c:2252-2260 | With n symbols and shares summing to at most n, path i carries exactly its share, and the excess goes to path 0 |
| `Paths.EveryPathCarriesItsShare` | src/common/transport_quicly.c:2178-2186 | Given an answer with sum(m) = k and x >= m, path i carries exactly x_i symbols, plus on path 0 the parity symbol that had to be forced |
| `Paths.ChoosePath` | src/common/transport_quicly.c:2252-2260 | The accumulating search loop |
| `Arena.BlocksDisjoint` | src/common/transport_quicly.c:71-92 | Blocks of one publish do not overlap and stay in the arena |
| `Arena.PublishFits` | src/common/transport_quicly.c:2200-2222 | Within the protocol's limits all data and parity blocks of a publish fit the arena |
| `Arena.Arena.Alloc` | src/common/transport_quicly.c:71-85 | Returns a zeroed block at the old offset if it fits and leaves every other byte alone; otherwise counts a heap block, up to 1024 |
| `Arena.Arena.AllocAll` | src/common/transport_quicly.c:2200-2222 | From a reset arena each block is at its own place and all are zero |
| `Arena.Arena.PublishCall` | src/common/transport_quicly.c:2200-2310 | A publish to any number of connections finds the arena empty and leaves it empty; its blocks lie apart in the first `used` bytes, which are zero, and packet buffers in the arena lie behind them, although they may overflow to the heap |
| `Arena.Arena.PublishAll` | src/common/transport_quicly.c:2310-2310 | Over any series of publishes the offset is 0 between them |
| `Arena.Arena.AllocPackets` | src/common/transport_quicly.c:2248-2249 | Packet buffers in the arena lie behind the earlier blocks and leave them as they are |
| `Arena.OnlyLastPadded` | src/common/transport_quicly.c:2205-2218 | Every data symbol but the last is a full slice, so at most one padded block is allocated |
| `Sweep.Server.Tick` | src/common/transport_quicly.c:1795-1897 | Every connection present at the start is serviced exactly once, in order, whichever are freed on the way; survivors keep their order; the loop ends although the index wraps below zero |
| `Sweep.Server.RemoveAt` | src/common/transport_quicly.c:1882-1887 | Moving the tail down removes exactly one connection |
| `Ifmon.UpdateReconstructs` | src/common/ifmon.c:120-222 | For snapshots with unique indices, applying the update to the previous view gives the current one: index set, hardware addresses, address sets |
| `Ifmon.EmptyIffSame` | src/common/ifmon.c:120-222 | The update is empty if and only if these agree |
| `Ifmon.NoChangeLostIff` | src/common/ifmon.c:703-707 | Over every run of wake-ups the callbacks compose to the latest successful snapshot, if and only if the first fetch succeeded or failed before listing anything |
| `Ifmon.FirstFetchLost` | src/common/ifmon.c:703-707 | For every nonempty list left by a failing first fetch: nothing is reported, even when a later fetch shows it |
| `Ifmon.PrevIsLatest` | src/common/ifmon.c:662-693 | After every run of wake-ups, failing fetches included, the watcher's snapshot is equivalent to the latest successful one |
| `Ifmon.CallbacksCompose` | src/common/ifmon.c:662-693 | Replaying the callbacks gives what the watcher's snapshot shows |
| `Ifmon.CallbackIff` | src/common/ifmon.c:683-690 | A wake-up calls back if and only if the fetch succeeded and shows something else than before |
| `Ifmon.ModifiedExact` | src/common/ifmon.c:144-203 | Interface x has an entry, and only one, if and only if it is in both snapshots and its hardware address or address set differs; the entry says that the hardware address changed if and only if it did, and lists exactly the addresses that came as added and exactly those that went as removed |
| `Ifmon.MissingExact` | src/common/ifmon.c:130-143 | The lists of added and removed interfaces hold exactly the indices of one snapshot that the other lacks |
| `Ifmon.GenerateUpdate` | src/common/ifmon.c:120-222 | The nested loops compute the specified update; the array bounds are never reached |
| `Ifmon.CompareAll` | src/common/ifmon.c:130-203 | The loop over the current interfaces |
| `Ifmon.Compare` | src/common/ifmon.c:144-196 | The difference of one interface: its index, the hardware flag if and only if the hardware addresses differ, and exactly the addresses that came and went |
| `Ifmon.ListAddrs` | src/common/ifmon.c:152-196 | The address loops list exactly the addresses of one interface that the other lacks, in order |
| `Ifmon.MinusConcat` | src/common/ifmon.c:152-196 | The lists keep the order of the addresses they are taken from |
| `Ifmon.Watcher.OnEvent` | src/common/ifmon.c:680-691 | In place: replaces the snapshot and calls back exactly when the update is not empty |
| `Ifmon.WatchLoop` | src/common/ifmon.c:662-707 | The start and the thread's loop together equal the run of the specification |

## Left out

- QUIC, TLS, certificates, qlog, sockets and path management: foreign libraries and I/O; they appear as a bag of datagrams and as ordered byte streams.
- nanors, nanorq and pathflow: their internals are contracts and parameters; nothing is said about which shares the optimizer chooses.
- Telemetry datagrams and replies, path statistics and moving averages: they depend on wall clocks and do not touch objects.
- Publishing to several connections at once, and the choice between grouping, reliable stream, unicast and datagrams by subscription flags: the model has one connection per publisher.
- Stream pointers kept in the subscription table, and reopening a reliable stream: the table is modelled without them.
- Encoders for UNSUBSCRIBE (0x02) and the reliable-object control message (0x07): the repository has none; the parser's side is modelled.
- Enumeration of interfaces by netlink, sysctl and Windows calls, the thread and its pipes: snapshots are inputs. A changed interface name is not part of an update in the source, nor of the view here.
- src/common/data_uds.c: the daemon's Unix socket listener, which accepts local clients and carries packets to and from them as length-prefixed blocks with a track and a priority. Its framing is the simpler kind of the one proved for track streams.
- src/host/linux/tund.c: creates and configures a TUN device and copies packets between it and that socket; device calls and poll loops.
- Benchmarks, shell scripts and command-line parsing: they illustrate use.
- Codec.DecodeRecord: advances by the exact record size; the source's 32-bit sum differs from it only for announced sizes of 2^32 - 4 and more, as RecordShiftExact states.
- Duplex.NeverClashIff: no table overflows, which at most 32 subscriptions ensure (FewFit), and each daemon makes at most 16. What happens beyond is proved for one-sided subscriptions only, by AliasAgreement and Live.
- Tracks.FindByAlias: gives the flags of an unnamed track as 0; the datagram path of the source leaves them uninitialised before it sets two of their bits.
- Arena.Arena.Alloc: a block that does not fit comes from the heap in the source, not zeroed; the model says only that it is not in the arena. PublishCall shows that this does not happen to data and parity blocks within the limits.
- ReceiverImpl.AssemblerRing.OnDatagram: requires that what the header says stays within the slot's buffers, because the source is undefined otherwise; it need not say what the slot was claimed with. Guarantees.EveryPossibleStepIsSafe proves it in every run.
- ReceiverImpl.AssemblerRing.Absorb: the same.
- LongNack.LongNackFillsIff: runs of the object protocol handle the first 256 indices of a NACK; the tables they use do not include what the remainder of a longer one enters.
- Live.LiveIsRun: subscriptions are made by the receiving end only, as in Aliases.
- Sweep.Server.Tick: which connections a tick frees is given as a set; what servicing does inside QUIC is not modelled.
- Session.TrackChunkIndependence: chunks of one stream are consecutive; interleaving with another stream that changes the subscription table in between is not claimed to be independent of chunking.
