# Ziggurat, modelled and proved in Dafny

Ziggurat is a Zigbee stack that runs on a host or on a microcontroller. This project models
the parts of it whose guarantees span whole runs, and proves those guarantees for every
input, every run and every interleaving:

- the send-confirm pipeline, as a concurrent protocol of resolvers, requesters and one
  reactor (`ConfirmPipeline.dfy`, `SendConfirms.dfy`, `SendTracker.dfy`), and the table of
  unicasts that settles each send once (`UnicastSends.dfy`);
- the broadcast admission budget (`BroadcastBudget.dfy`);
- the Spinel link: octet stuffing, the resynchronising deframer, frames, packed integers,
  transaction ids (`Hdlc.dfy`, `SpinelFrame.dfy`, `PackedIntegers.dfy`, `Transactions.dfy`,
  `SpinelProtocol.dfy`);
- the APS security layer: key lifecycle and frame counters (`ApsSecurity.dfy`);
- mesh forwarding: the broadcast transaction table and the flood it controls
  (`Broadcasts.dfy`), source routes and route records (`SourceRoute.dfy`);
- the address map over the sorted-vector map (`AddressMap.dfy`, `FlatMap.dfy`);
- the 802.15.4 frame codec and its checksum (`MacFrame.dfy`, `Fcs.dfy`).

`dafny verify dfyconfig.toml` checks the whole project. Paths below are relative to the root
of the repository.

## How to read it

Code that updates fields or loops over a buffer is a class or a method. Each such method is
proved equal to a specification function on values (`ensures State() == Refill(old(State()),
now, p)`), and the theorems are lemmas about runs of those functions. Code that only computes
is a function. A panic of the source (`unwrap`, `expect`, `assert!`) is a value of the result
(`None`, `Panic`), and the lemmas say when it cannot happen.

Clocks, random numbers, the radio, the cipher, hashes and checksums of the serial link are
parameters. Nothing is assumed of them: the link's checksum, the cipher and the key
derivations are arbitrary functions.

What the proofs found, where code and comment or expectation differ:

- The comment at `crates/ziggurat-driver/src/broadcast_budget.rs:14` says that a token frees
  no sooner than `retry_in`. It frees no later, and up to one interval sooner.
  `AdmittedExactlyFrom` gives the exact time, `FreesEarlyIff` says when it is early.
- A flag-free stretch over 4096 bytes is dropped at the end of a read, so reads can be split
  or joined freely only below that. `OverlongSplitAgreesIff` says exactly when they agree
  above it, and `LongBodyCanBeLost` shows a payload that is lost. Sessions recover from any
  garbage, dropped or not.
- The packed-integer writer accepts 2^21, which its own reader cannot read back; every
  smaller value survives (`PackedRoundTrip`).
- `begin_join` can leave an all-empty device entry, contrary to the comment that such entries
  are pruned. `StaysPrunedIff` says exactly when, `BlankIsReachable` gives a run that does it,
  and `PruningIsUnobservable` shows that no answer can tell.
- Restoring an incoming frame counter can reopen the window for a replay;
  `RestoreReopensIff` says exactly when.
- Our own entry in the address map is not protected; `OwnMappingSurvivesIff` says exactly
  when an operation takes it away.
- The comment at `crates/ziggurat-zigbee/src/nwk/next_hop.rs:48-50` says that an empty source
  route means direct delivery. The code panics on it, in every build. On any other multiple of
  256 relays the byte-wide length reaches zero: a build with overflow checks stops, and one
  without wraps the index to 255 (`RoutePrecedence`, `IndexIsLastIff`). The host interface
  rejects an empty list and counts relays in a byte, so neither reaches it
  (`AllowedNeverPanics`).
- Two live sends tracked under one request id: the second takes the entry of the first, which
  is then never confirmed (`RestLosesDisplaced`); no other send is affected (`LostIff`).

## Model

| member | source | states |
|---|---|---|
| `BroadcastBudget.Budget.constructor` | crates/ziggurat-driver/src/broadcast_budget.rs:34-39 | a new budget holds the given tokens, as of time zero |
| `BroadcastBudget.Budget.RefillTokens` | crates/ziggurat-driver/src/broadcast_budget.rs:51-85 | the in-place refill is the function `Refill` |
| `BroadcastBudget.Budget.Take` | crates/ziggurat-driver/src/broadcast_budget.rs:90-119 | the answer and the bucket left are those of a refill followed by one draw |
| `BroadcastBudget.RefillClosedForm` | crates/ziggurat-driver/src/broadcast_budget.rs:51-85 | a refill adds one token per whole interval and moves the clock by exactly those intervals, or fills the bucket as of now; no addition saturates |
| `BroadcastBudget.RefillComposes` | crates/ziggurat-driver/src/broadcast_budget.rs:51-85 | refilling at s and then at t is refilling at t |
| `BroadcastBudget.CriticalNonInterference` | crates/ziggurat-driver/src/broadcast_budget.rs:51-119 | deleting every Critical ask from any run leaves every Host and Forwarding answer, with its retry time, unchanged |
| `BroadcastBudget.AdmissionsBounded` | crates/ziggurat-driver/src/broadcast_budget.rs:51-119 | Host and Forwarding admissions of a run are paid for by the tokens held and the time that passes |
| `BroadcastBudget.RateBound` | crates/ziggurat-driver/src/broadcast_budget.rs:51-119 | after any history, any window of length L sees at most capacity + L / interval Host and Forwarding admissions |
| `BroadcastBudget.AdmittedExactlyFrom` | crates/ziggurat-driver/src/broadcast_budget.rs:69-119 | a refused class is admitted again if and only if its floor is below the capacity and its missing tokens have accrued since the last whole token |
| `BroadcastBudget.RetryBracket` | crates/ziggurat-driver/src/broadcast_budget.rs:42-119 | a refused class is admitted at every time from now + retry_in on and refused at every time up to now + retry_in - interval |
| `BroadcastBudget.FreesEarlyIff` | crates/ziggurat-driver/src/broadcast_budget.rs:107-118 | the token frees before the advertised time if and only if the refusal did not come a whole number of intervals after the bucket's clock |
| `BroadcastBudget.TokenFreesEarly` | crates/ziggurat-driver/src/broadcast_budget.rs:107-118 | an input at which it does |
| `BroadcastBudget.ForwardingReserveHolds` | crates/ziggurat-driver/src/broadcast_budget.rs:42-119 | no run of Host and Critical asks keeps a bucket that held the reserves from admitting the next Forwarding ask |
| `BroadcastBudget.CriticalReserveHolds` | crates/ziggurat-driver/src/broadcast_budget.rs:42-119 | no run of asks of any class takes the bucket below the critical reserve |
| `BroadcastBudget.AdmittedIff` | crates/ziggurat-driver/src/broadcast_budget.rs:90-119 | after a refill Forwarding is admitted exactly above the critical reserve, Host exactly above both, Critical always; an admission takes one token, a Critical one none |
| `BroadcastBudget.RefillElsewhere` | crates/ziggurat-driver/src/broadcast_budget.rs:51-85 | without a limit, or at or above capacity, a refill fills the bucket as of now; before the bucket's clock it does nothing |
| `FlatMaps.FlatMap.constructor` | crates/ziggurat-zigbee/src/flat_map.rs:15-19 | a new map is empty |
| `FlatMaps.FlatMap.IndexOf` | crates/ziggurat-zigbee/src/flat_map.rs:21-23 | binary search finds the key, or the one position where it belongs |
| `FlatMaps.FlatMap.Get` | crates/ziggurat-zigbee/src/flat_map.rs:25-35 | lookup agrees with the abstract map |
| `FlatMaps.FlatMap.Insert` | crates/ziggurat-zigbee/src/flat_map.rs:37-45 | insert updates the abstract map, keeps the keys strictly ascending and returns the value replaced |
| `FlatMaps.FlatMap.Remove` | crates/ziggurat-zigbee/src/flat_map.rs:47-49 | remove takes exactly that key out and returns its value |
| `FlatMaps.FlatMap.PopFirst` | crates/ziggurat-zigbee/src/flat_map.rs:51-57 | pops the entry of the least key, or nothing exactly when empty |
| `FlatMaps.FlatMap.Retain` | crates/ziggurat-zigbee/src/flat_map.rs:70-74 | keeps exactly the entries the filter accepts, with the values it leaves in them, in order |
| `FlatMaps.FlatMap.Extend` | crates/ziggurat-zigbee/src/flat_map.rs:155-161 | inserts pairs one after the other; a later pair wins |
| `FlatMaps.FlatMap.LookUp` | crates/ziggurat-zigbee/src/flat_map.rs:59-68 | an entry is occupied exactly when the key is present, and points at its place |
| `FlatMaps.FlatMap.AndModify` | crates/ziggurat-zigbee/src/flat_map.rs:234-242 | changes the value of an occupied entry only |
| `FlatMaps.FlatMap.OrInsertWith` | crates/ziggurat-zigbee/src/flat_map.rs:220-225 | a vacant entry is filled at its place, an occupied one is left alone |
| `FlatMaps.FilteredRepresents` | crates/ziggurat-zigbee/src/flat_map.rs:70-74 | filtering the vector filters the map |
| `FlatMaps.Canonical` | crates/ziggurat-zigbee/src/flat_map.rs:126-132 | the vector is determined by its map, so comparing vectors compares maps |
| `AddressMaps.AddressMap.constructor` | crates/ziggurat-zigbee/src/nwk/addresses.rs:18-23 | a new map holds our own mapping |
| `AddressMaps.AddressMap.NwkFor` | crates/ziggurat-zigbee/src/nwk/addresses.rs:25-27 | the address of a device, if known |
| `AddressMaps.AddressMap.Eui64For` | crates/ziggurat-zigbee/src/nwk/addresses.rs:29-34 | the owner of an address, if any |
| `AddressMaps.AddressMap.ClaimedByOther` | crates/ziggurat-zigbee/src/nwk/addresses.rs:67-70 | whether an address is ours or another device's |
| `AddressMaps.AddressMap.UpdateMapping` | crates/ziggurat-zigbee/src/nwk/addresses.rs:46-64 | records a mapping unless it conflicts, and says whether it did |
| `AddressMaps.AddressMap.ClaimAddress` | crates/ziggurat-zigbee/src/nwk/addresses.rs:109-114 | an announced mapping evicts every other owner of the address |
| `AddressMaps.AddressMap.ForgetAddress` | crates/ziggurat-zigbee/src/nwk/addresses.rs:116-118 | removes the owners of an address |
| `AddressMaps.AddressMap.GenerateUnused` | crates/ziggurat-zigbee/src/nwk/addresses.rs:90-106 | draws until an address is nobody's |
| `AddressMaps.AddressMap.Allocate` | crates/ziggurat-zigbee/src/nwk/addresses.rs:77-88 | a known device keeps its address; another gets an unused one |
| `AddressMaps.RunKeepsSingleOwner` | crates/ziggurat-zigbee/src/nwk/addresses.rs:46-132 | after any run of operations no two devices share an address, so the two lookups are mutual inverses |
| `AddressMaps.AllocationSticks` | crates/ziggurat-zigbee/src/nwk/addresses.rs:46-106 | recording an allocated address never conflicts, and allocating again returns it, whatever the neighbours and random numbers |
| `AddressMaps.FreshAddress` | crates/ziggurat-zigbee/src/nwk/addresses.rs:77-106 | an unknown device gets the first candidate in 0x0001..0xFFF7 that is not ours, no device's and no neighbour's, and none exactly when there is no such candidate |
| `AddressMaps.OperationsMean` | crates/ziggurat-zigbee/src/nwk/addresses.rs:46-118 | in terms of the two lookups: what a claim, a removal and an update give the device named, and that all others keep theirs, save the owners evicted |
| `AddressMaps.ClaimCanEvictUs` | crates/ziggurat-zigbee/src/nwk/addresses.rs:109-132 | a claim of our address by another device takes our own mapping away |
| `AddressMaps.OwnMappingSurvivesIff` | crates/ziggurat-zigbee/src/nwk/addresses.rs:46-132 | exactly which operations take our own mapping away |
| `FrameCheck.ComputeFcs` | crates/ziggurat-ieee-802154/src/lib.rs:607-619 | the nibble-multiply loop computes the bit-serial CRC with generator x^16+x^12+x^5+1, on every byte string |
| `FrameCheck.ReverseNibble` | crates/ziggurat-ieee-802154/src/lib.rs:607-619 | four steps of the reflected register are one multiplication by 0x1081 |
| `FrameCheck.ResidueIsZero` | crates/ziggurat-ieee-802154/src/lib.rs:607-619 | two check bytes give residue zero if and only if they are the checksum, low byte first |
| `FrameCheck.CorruptOctetIsDetected` | crates/ziggurat-ieee-802154/src/lib.rs:607-619 | changing any one octet, check bytes included, changes the checksum |
| `MacFrames.FromBytes` | crates/ziggurat-ieee-802154/src/lib.rs:346-500 | the cursor-driven parser is the function `Parse` |
| `MacFrames.HeaderFromBytes` | crates/ziggurat-ieee-802154/src/lib.rs:366-455 | the header fields are read in order, each error where the source raises it |
| `MacFrames.ToBytesWithoutFcs` | crates/ziggurat-ieee-802154/src/lib.rs:512-570 | the growing vector is the function `Bytes` |
| `MacFrames.HeaderRoundTrip` | crates/ziggurat-ieee-802154/src/lib.rs:346-570 | a header that fits is recovered from its bytes, for all addressing modes, PAN compression and sequence suppression |
| `MacFrames.HeaderIsWhatWasRead` | crates/ziggurat-ieee-802154/src/lib.rs:346-570 | a header that was read fits and prints as the bytes it was read from |
| `MacFrames.BodyRoundTrip` | crates/ziggurat-ieee-802154/src/lib.rs:290-342 | a command or other body that fits is recovered, undecodable commands included |
| `MacFrames.PrintThenParse` | crates/ziggurat-ieee-802154/src/lib.rs:502-577 | every frame that fits a packet is recovered from its bytes, with their checksum |
| `MacFrames.ParseThenPrint` | crates/ziggurat-ieee-802154/src/lib.rs:346-570 | a parsed frame prints as a prefix of its input |
| `MacFrames.CodecFixedPoint` | fuzz/fuzz_targets/ieee802154_frame_roundtrip.rs:5-18 | any input that parses re-serialises to at most its own length and re-parses to the same frame up to the checksum field |
| `MacFrames.CorruptFrameIsRefused` | crates/ziggurat-ieee-802154/src/lib.rs:346-365 | an intact frame is refused once any one of its octets is changed |
| `MacFrames.ParsesIff` | crates/ziggurat-ieee-802154/src/lib.rs:346-500 | the parser takes exactly the inputs of 4 to 127 octets whose checksum, check octets included, is zero and that begin with the bytes of a fitting frame |
| `MacFrames.RefusedAs` | crates/ziggurat-ieee-802154/src/lib.rs:346-365 | shorter inputs, longer inputs and damaged ones are refused as such |
| `MacFrames.ControlLowIs` | crates/ziggurat-ieee-802154/src/lib.rs:26-103 | the first control octet as a sum of its fields' values |
| `MacFrames.ControlHighIs` | crates/ziggurat-ieee-802154/src/lib.rs:26-103 | the second control octet as a sum of its fields' values |
| `MacFrames.ControlDecodesIff` | crates/ziggurat-ieee-802154/src/lib.rs:26-103 | two octets are a control field exactly when one is written so |
| `MacFrames.HeaderLayout` | crates/ziggurat-ieee-802154/src/lib.rs:512-562 | at which octets a header has its sequence number, PAN ids and addresses, and its length |
| `MacFrames.BodyLayout` | crates/ziggurat-ieee-802154/src/lib.rs:290-342 | at which octets a beacon and each command have their fields |
| `MacFrames.KnownStatuses` | crates/ziggurat-ieee-802154/src/lib.rs:63-85 | association answers carry one of five statuses and disassociations one of three reasons; anything else is kept verbatim |
| `MacFrames.KnownAck` | crates/ziggurat-ieee-802154/src/lib.rs:728-755 | the octets 02 00 d1 bc 72 are an acknowledgement of sequence number 209 |
| `MacFrames.KnownBeaconRequest` | crates/ziggurat-ieee-802154/src/lib.rs:872-893 | the octets 03 08 6d ff ff ff ff 07 are a beacon request to all |
| `MacFrames.KnownControl` | crates/ziggurat-ieee-802154/src/lib.rs:627-650 | the control octets 61 88 are a data frame between short addresses in one PAN that asks for an acknowledgement |
| `Hdlc.EscapeInto` | crates/ziggurat-spinel/src/lib.rs:417-439 | appends the escaped payload and check bytes |
| `Hdlc.UnescapeInto` | crates/ziggurat-spinel/src/lib.rs:350-410 | the in-place unescape is the function `Decoded` |
| `Hdlc.StuffedRoundTrip` | crates/ziggurat-spinel/src/lib.rs:350-439 | unstuffing undoes stuffing, on every byte string |
| `Hdlc.StuffedIsPlain` | crates/ziggurat-spinel/src/lib.rs:417-439 | a stuffed string holds no flag and at most doubles in length |
| `Hdlc.EncodedRoundTrip` | crates/ziggurat-spinel/src/lib.rs:350-439 | a payload is recovered from its escaped, checked form, for any checksum |
| `Hdlc.DecodedIff` | crates/ziggurat-spinel/src/lib.rs:350-410 | a payload is delivered if and only if the bytes unescape to it followed by its own check bytes |
| `Hdlc.ShortIsRefused` | crates/ziggurat-spinel/src/lib.rs:350-410 | fewer than two bytes are no frame |
| `Hdlc.BadEscapeIsRefused` | crates/ziggurat-spinel/src/lib.rs:350-410 | an escape of a byte that is never escaped spoils the whole frame |
| `Hdlc.StuffedHidesSpecials` | crates/ziggurat-spinel/src/lib.rs:417-439 | flag, XON, XOFF and vendor byte never appear in a stuffed string |
| `Hdlc.PlainIsSentAsIs` | crates/ziggurat-spinel/src/lib.rs:417-439 | a string without special bytes is sent as it is |
| `Hdlc.ScanIsSplit` | crates/ziggurat-spinel/src/lib.rs:647-695 | the deframer splits its bytes at the flags and decodes the stretches between them, no more and no less |
| `Hdlc.FeedIsSplit` | crates/ziggurat-spinel/src/lib.rs:647-695 | so does a read, on what was left and what came |
| `Hdlc.DeliveredIsChecked` | crates/ziggurat-spinel/src/lib.rs:350-410 | every payload of every read stands in a stretch that a flag ends, escaped and followed by its own check bytes |
| `Hdlc.BufferLimit` | crates/ziggurat-spinel/src/lib.rs:654-661 | 4096 bytes without a flag are kept, one more discards them |
| `Hdlc.ScanSplits` | crates/ziggurat-spinel/src/lib.rs:647-695 | scanning a concatenation is scanning on from where the first part ended |
| `Hdlc.TwoReads` | crates/ziggurat-spinel/src/lib.rs:647-695 | two reads give the payloads and the state of one, while the first leaves at most 4096 bytes |
| `Hdlc.ChunkingIndependence` | crates/ziggurat-spinel/src/lib.rs:647-695 | the same for any number of reads |
| `Hdlc.OverlongSplitAgreesIff` | crates/ziggurat-spinel/src/lib.rs:654-661 | above 4096 bytes the two ways of reading agree, in payloads and in state, if and only if the residue would not have become a payload at the next flag, or, without a flag, the second read is empty or discarded too |
| `Hdlc.LostPayloadIsClosed` | crates/ziggurat-spinel/src/lib.rs:654-661 | the payload that a discarded residue costs is what it and the bytes up to the next flag would have decoded to |
| `Hdlc.StreamDecodes` | crates/ziggurat-spinel/src/client.rs:333-356 | payloads written flag, body, flag are read back in order, after at most one more closed by what came before |
| `Hdlc.ChunkedSession` | crates/ziggurat-spinel/src/lib.rs:647-695 | from any state and after any garbage, over any cutting into reads, discarded stretches included, a stream whose escaped bodies fit the 4096-byte buffer decodes to its payloads as the tail of the output |
| `Hdlc.LongBodyCanBeLost` | crates/ziggurat-spinel/src/lib.rs:654-661 | the limit is exact: any longer body is lost, and only that one, when a read ends just before its closing flag |
| `Hdlc.LongBodiesExist` | crates/ziggurat-spinel/src/lib.rs:654-661 | a payload of 4095 zero bytes is such a body, under any checksum |
| `SpinelFrames.FrameRoundTrip` | crates/ziggurat-spinel/src/lib.rs:466-552 | a frame survives serialising and parsing if and only if it is well formed |
| `SpinelFrames.ParsedFramePrints` | crates/ziggurat-spinel/src/lib.rs:506-552 | a frame that was parsed is well formed and prints as its input |
| `SpinelFrames.ParsesIff` | crates/ziggurat-spinel/src/lib.rs:506-552 | which bytes are a frame, with its fields read off them, and which error the others give |
| `SpinelFrames.SessionRoundTrip` | crates/ziggurat-spinel/src/lib.rs:681-695 | from any state, after any garbage and over any cutting into reads, well-formed frames whose escaped form fits the buffer arrive in order as the last ones read, for any checksum |
| `SpinelFrames.LinkSession` | crates/ziggurat-spinel/src/lib.rs:17 | the same for every frame up to the link's own limit of 1300 bytes, with no other condition |
| `PackedIntegers.ToBytes` | crates/ziggurat-spinel/src/lib.rs:294-318 | writes the groups of seven bits, and panics exactly above 2^21 |
| `PackedIntegers.Deserialize` | crates/ziggurat-spinel/src/lib.rs:276-292 | reads at most three groups, below 2^21, and returns what follows |
| `PackedIntegers.UnpackPacked` | crates/ziggurat-spinel/src/lib.rs:276-318 | a packed value unpacks to itself if it fits in the groups read, else to nothing |
| `PackedIntegers.PackedRoundTrip` | crates/ziggurat-spinel/src/lib.rs:276-318 | of the values the writer accepts, all but 2^21 are read back |
| `PackedIntegers.KnownPacking` | crates/ziggurat-spinel/src/lib.rs:276-318 | the bytes of one value: low group first, all but the last with the high bit set |
| `Transactions.ProbeFinds` | crates/ziggurat-spinel/src/lib.rs:808-820 | the probe skips only pending ids and stops at a free one within seven steps |
| `Transactions.IdsOverRuns` | crates/ziggurat-spinel/src/lib.rs:808-844 | over every run an issued id lies in 1..7 and was free, and allocation fails exactly when all seven are pending |
| `Transactions.RequestsEndOnce` | crates/ziggurat-spinel/src/lib.rs:632-844 | over every run of prepare, response, cancel and reset each request ends at most once, and exactly when it is no longer pending |
| `Transactions.IssuesTakeTurns` | crates/ziggurat-spinel/src/lib.rs:808-820 | between two issues of one id every other id was issued, or skipped while pending |
| `Transactions.ResponsesReachTheirRequest` | crates/ziggurat-spinel/src/lib.rs:721-806 | over every run a response reaches the request its id was last issued to, and ends only that; an announced reset ends all; anything else ends none |
| `Transactions.ResetStatusesClear` | crates/ziggurat-spinel/src/lib.rs:780-806 | a packed last status clears the pending requests and is announced exactly from 112 to 120 |
| `Transactions.UpdatesAreRouted` | crates/ziggurat-spinel/src/lib.rs:721-774 | a report of another property reaches its receiver exactly if known, and clears nothing |
| `Transactions.OtherCommandsAreIgnored` | crates/ziggurat-spinel/src/lib.rs:721-774 | any other command outside a transaction is ignored |
| `Transactions.CancelEndsOne` | crates/ziggurat-spinel/src/lib.rs:632-844 | after any run a cancel ends the request that has the id and only that; a reset ends all |
| `SpinelProtocols.SpinelProtocol.constructor` | crates/ziggurat-spinel/src/lib.rs:601-612 | the link starts out of sync, at id 1, with nothing pending |
| `SpinelProtocols.SpinelProtocol.NextFrameInto` | crates/ziggurat-spinel/src/lib.rs:647-679 | takes the next payload of the scan out of the buffer, or leaves what the end of a read leaves |
| `SpinelProtocols.SpinelProtocol.ParseFramesFromBytes` | crates/ziggurat-spinel/src/lib.rs:681-695 | returns the frames of exactly the payloads the read completed |
| `SpinelProtocols.SpinelProtocol.HandleInboundFrame` | crates/ziggurat-spinel/src/lib.rs:721-774 | routes one frame as `RouteOf` and `PendingAfter` say |
| `SpinelProtocols.SpinelProtocol.HandleUnsolicitedLastStatus` | crates/ziggurat-spinel/src/lib.rs:780-806 | a known status from 112 on is a reset and clears the pending requests; any other changes nothing |
| `SpinelProtocols.SpinelProtocol.HandleInboundBytes` | crates/ziggurat-spinel/src/lib.rs:697-717 | deframes a read, routes its frames in order and keeps the object ready for the next request |
| `SpinelProtocols.SpinelProtocol.PrepareRequest` | crates/ziggurat-spinel/src/lib.rs:808-840 | issues the first free id of the cycle, records the request and builds its frame, or panics exactly when none is free |
| `SpinelProtocols.SpinelProtocol.CancelRequest` | crates/ziggurat-spinel/src/lib.rs:842-844 | frees one id |
| `SpinelProtocols.SpinelProtocol.NotifyReset` | crates/ziggurat-spinel/src/lib.rs:632-642 | frees every id |
| `SpinelProtocols.ServingIsChunkIndependent` | crates/ziggurat-spinel/src/lib.rs:697-774 | what two reads route, answer and leave pending is what one read of both does, while the first leaves at most 4096 bytes |
| `ApsSecurityLayer.ApsSecurity.constructor` | crates/ziggurat-zigbee/src/aps/security.rs:114-126 | a new layer knows no device |
| `ApsSecurityLayer.ApsSecurity.PruneIfEmpty` | crates/ziggurat-zigbee/src/aps/security.rs:142-150 | removes an entry exactly when it holds nothing |
| `ApsSecurityLayer.ApsSecurity.RestoreDeviceKey` | crates/ziggurat-zigbee/src/aps/security.rs:153-158 | records a verified key, keeping the rest of the entry |
| `ApsSecurityLayer.ApsSecurity.RestoreIncomingFrameCounter` | crates/ziggurat-zigbee/src/aps/security.rs:161-166 | overwrites the replay counter |
| `ApsSecurityLayer.ApsSecurity.RestoreOutgoingFrameCounter` | crates/ziggurat-zigbee/src/aps/security.rs:181-183 | never moves the outgoing counter back |
| `ApsSecurityLayer.ApsSecurity.SetProvisionalKey` | crates/ziggurat-zigbee/src/aps/security.rs:188-193 | records an install-code key |
| `ApsSecurityLayer.ApsSecurity.BeginJoining` | crates/ziggurat-zigbee/src/aps/security.rs:199-216 | the in-place join is the function `BeginJoin` |
| `ApsSecurityLayer.ApsSecurity.IssueDeviceKey` | crates/ziggurat-zigbee/src/aps/security.rs:240-249 | holds the issued key as pending and returns it |
| `ApsSecurityLayer.ApsSecurity.VerifyDeviceKey` | crates/ziggurat-zigbee/src/aps/security.rs:277-301 | the in-place verify is the function `VerifyKey` |
| `ApsSecurityLayer.ApsSecurity.EncryptFrame` | crates/ziggurat-zigbee/src/aps/security.rs:304-421 | draws the next outgoing counter for the chosen key, or refuses, or panics |
| `ApsSecurityLayer.ApsSecurity.DecryptFrame` | crates/ziggurat-zigbee/src/aps/security.rs:430-485 | tries the candidate keys in order and applies the replay check to unique keys |
| `ApsSecurityLayer.ReplaySafety` | crates/ziggurat-zigbee/src/aps/security.rs:430-485 | over any run in which no restore lowers a counter, frames accepted from one source under its unique link key carry strictly increasing counters |
| `ApsSecurityLayer.AcceptedIff` | crates/ziggurat-zigbee/src/aps/security.rs:430-485 | after any run without a restored counter, exactly which frames are accepted: none with the maximum counter; under the network or the well-known key those that open; under a unique link key those newer than every frame so accepted before |
| `ApsSecurityLayer.RestoreReopensIff` | crates/ziggurat-zigbee/src/aps/security.rs:161-166 | an accepted frame is refused when repeated, and accepted again after a restore if and only if that takes the counter back to the frame's or lower |
| `ApsSecurityLayer.RejectionIsSilent` | crates/ziggurat-zigbee/src/aps/security.rs:430-485 | a rejected frame leaves the state unchanged |
| `ApsSecurityLayer.LinkKeyIsStable` | crates/ziggurat-zigbee/src/aps/security.rs:240-301 | issuing keys, failed verifies, encryption, decryption and counter restores never change any device's link key |
| `ApsSecurityLayer.VerifyPromotesLastIssued` | crates/ziggurat-zigbee/src/aps/security.rs:240-301 | after any run, a verify of a pending key that succeeds makes the link key the one last issued; one that fails changes nothing |
| `ApsSecurityLayer.VerifyIff` | crates/ziggurat-zigbee/src/aps/security.rs:277-301 | in every state, with or without a pending key: no answer exactly without a key on record, yes exactly when that key hashes to what was sent, and only a yes changes anything |
| `ApsSecurityLayer.VerifiedIsEarned` | crates/ziggurat-zigbee/src/aps/security.rs:153-301 | over any run a key is on record as verified only after a restore of it or a verify with its hash |
| `ApsSecurityLayer.SeedDecides` | crates/ziggurat-zigbee/src/aps/security.rs:129-275 | which key is issued, and which is shared while none is on record, with a seed and without |
| `ApsSecurityLayer.JoinAfterStore` | crates/ziggurat-zigbee/src/aps/security.rs:153-216 | a provisional key survives a fresh join, a restored one does not |
| `ApsSecurityLayer.RunIsKeyed` | crates/ziggurat-zigbee/src/aps/security.rs:240-301 | every reachable state has no unverified stored key, and a pending key is the last issued |
| `ApsSecurityLayer.DataIsAlwaysSealed` | crates/ziggurat-zigbee/src/aps/security.rs:370-403 | after any run data frames and acknowledgements are sealed with the device's link key, unless the counter is used up |
| `ApsSecurityLayer.JoinKeepsProvisional` | crates/ziggurat-zigbee/src/aps/security.rs:199-216 | a fresh join keeps a provisional key and the replay counter, drops every other key, and touches no other device |
| `ApsSecurityLayer.ReplyUsesRequestKey` | crates/ziggurat-zigbee/src/aps/security.rs:351-366 | a reply secured with the key-pair entry that opened the request uses a key that opens the request |
| `ApsSecurityLayer.SealedWith` | crates/ziggurat-zigbee/src/aps/security.rs:304-421 | for each key identifier, which derivation of which key a frame is sealed with |
| `ApsSecurityLayer.OpenedWith` | crates/ziggurat-zigbee/src/aps/security.rs:430-485 | which derivation of which key opened an accepted frame |
| `ApsSecurityLayer.CountersAreDrawn` | crates/ziggurat-zigbee/src/aps/security.rs:181-307 | a refusal draws no counter, and no frame is sealed with one up to a restored counter |
| `ApsSecurityLayer.NoncesAreUnique` | crates/ziggurat-zigbee/src/aps/security.rs:304-307 | over any run, with any restores, the counters of sealed frames are strictly increasing |
| `ApsSecurityLayer.PruningIsUnobservable` | crates/ziggurat-zigbee/src/aps/security.rs:142-216 | states that differ only in empty entries answer every later run alike |
| `ApsSecurityLayer.StaysPrunedIff` | crates/ziggurat-zigbee/src/aps/security.rs:142-216 | of all operations exactly a join of a known device with neither key nor counter leaves an empty entry |
| `ApsSecurityLayer.BlankIsReachable` | crates/ziggurat-zigbee/src/aps/security.rs:199-216 | issuing a key and then joining afresh reaches a table of one empty entry |
| `ApsSecurityLayer.JoinLeavesBlank` | crates/ziggurat-zigbee/src/aps/security.rs:199-216 | the empty entry it leaves is alike to none |
| `BroadcastTable.Broadcasts.constructor` | crates/ziggurat-zigbee/src/nwk/broadcasts.rs:26-29 | a new table is empty |
| `BroadcastTable.Broadcasts.FilterReceived` | crates/ziggurat-zigbee/src/nwk/broadcasts.rs:36-65 | says whether an unexpired transaction knows the broadcast; the table left is the function `Digest` |
| `BroadcastTable.Broadcasts.RecordTransmission` | crates/ziggurat-zigbee/src/nwk/broadcasts.rs:69-85 | our own broadcast begins a transaction that no one was heard relaying |
| `BroadcastTable.Broadcasts.PassivelyAcked` | crates/ziggurat-zigbee/src/nwk/broadcasts.rs:93-117 | the two counting loops decide `Acked` |
| `BroadcastTable.AckedIff` | crates/ziggurat-zigbee/src/nwk/broadcasts.rs:93-117 | a broadcast is acknowledged if and only if its transaction is gone, or a quorum of its live audience was heard, or all of it |
| `BroadcastTable.TableTells` | crates/ziggurat-zigbee/src/nwk/broadcasts.rs:36-85 | over every history: a broadcast is held exactly when a transaction of it began and is not forgotten; expiry and audience are those of the beginning, and the senders heard are exactly those since |
| `BroadcastTable.DuplicateIff` | crates/ziggurat-zigbee/src/nwk/broadcasts.rs:36-65 | over every history: a broadcast is a duplicate exactly within the delivery time of that beginning |
| `BroadcastTable.AckedByThoseHeard` | crates/ziggurat-zigbee/src/nwk/broadcasts.rs:36-117 | over every history: acknowledgement in terms of the senders heard since the beginning |
| `BroadcastTable.DuplicatesOnlyAcknowledge` | crates/ziggurat-zigbee/src/nwk/broadcasts.rs:36-117 | hearing a duplicate never takes an acknowledgement back |
| `BroadcastFlood.FloodSafety` | crates/ziggurat-driver/src/zigbee_stack/nwk.rs:962-1023 | in every run of any mesh with local clocks, each relay is of another node's broadcast, with a radius one smaller; relays of one broadcast by one node are a delivery time apart; none comes in the startup wait |
| `BroadcastFlood.StepKeepsSpacing` | crates/ziggurat-driver/src/zigbee_stack/nwk.rs:43-78 | no step schedules a relay that the table still remembers |
| `BroadcastFlood.RadiusIsSpent` | crates/ziggurat-driver/src/zigbee_stack/nwk.rs:962-1023 | hops and radius of every copy add up to the radius its originator gave |
| `BroadcastFlood.RelaysAreFew` | crates/ziggurat-driver/src/zigbee_stack/nwk.rs:177-204 | in any window of the delivery time a broadcast is relayed at most once per node other than its originator |
| `BroadcastFlood.RelaysIff` | crates/ziggurat-driver/src/zigbee_stack/nwk.rs:962-1023 | in every run from silence a node that hears a copy relays it, with a radius one smaller, exactly when it is another node's data with radius left, after the startup wait, and not within the delivery time of when the node last began to know it |
| `BroadcastFlood.OriginationsAreAired` | crates/ziggurat-driver/src/zigbee_stack/nwk.rs:177-204 | in every run the originals on the air are exactly the broadcasts originated, in order, with the radius given |
| `BroadcastFlood.RunGoesOn` | crates/ziggurat-driver/src/zigbee_stack/nwk.rs:962-1023 | any node can originate or hear at any time on its clock |
| `SourceRoutes.RoutePrecedence` | crates/ziggurat-zigbee/src/nwk/next_hop.rs:80-132 | a forced route, then what the stack knows, then a hint; discovery or discard exactly without any; the header changes only for a source route; a panic exactly on an empty source route, an overflow exactly on another multiple of 256 |
| `SourceRoutes.StackDecidesOn` | crates/ziggurat-zigbee/src/nwk/next_hop.rs:80-143 | the stack's own order: child, forced discovery, a short enough route record, the routing table |
| `SourceRoutes.AllowedNeverPanics` | crates/ziggurat-protocol/src/bridge.rs:359-382 | nothing the stack stores or the host interface lets through panics or overflows |
| `SourceRoutes.EmptyRoutePanics` | crates/ziggurat-zigbee/src/nwk/next_hop.rs:145-154 | an empty source route panics |
| `SourceRoutes.IndexIsLastIff` | crates/ziggurat-zigbee/src/nwk/next_hop.rs:145-154 | the byte-wide index names the last relay if and only if the list has at most 256, wrapped at 256 |
| `SourceRoutes.NwkFrame.ApplySourceRoute` | crates/ziggurat-zigbee/src/nwk/next_hop.rs:145-154 | rewrites the header in place to carry the list, index at its last entry |
| `SourceRoutes.NwkFrame.RelayUnicast` | crates/ziggurat-driver/src/zigbee_stack/nwk.rs:774-912 | the in-place relay is the function `Relay`, whose index is in bounds for every frame; `StopsIff` says for every node and frame when it drops |
| `SourceRoutes.FollowsRoute` | crates/ziggurat-driver/src/zigbee_stack/nwk.rs:846-876 | from the relay its index names, a frame visits the entries below it, then its destination |
| `SourceRoutes.SourceRouteTraversal` | crates/ziggurat-driver/src/zigbee_stack/nwk.rs:802-876 | a source-routed frame visits the relays in reverse order and then the destination, or cuts across at the first relay that parents it, as far as its radius and, for a route record, the room left in it carry it |
| `SourceRoutes.ArrivesIff` | crates/ziggurat-driver/src/zigbee_stack/nwk.rs:802-876 | without such a shortcut it arrives if and only if its radius exceeds the number of relays and a route record has room for them |
| `SourceRoutes.StopsIff` | crates/ziggurat-driver/src/zigbee_stack/nwk.rs:774-912 | a frame short of its destination goes no further if and only if its range is used up, its relay list does not name the node, or, without a list, the node knows no way |
| `SourceRoutes.UnlistedHop` | crates/ziggurat-driver/src/zigbee_stack/nwk.rs:878-912 | without a relay list a neighbour is reached directly and anything else over the routing table |
| `SourceRoutes.StoreRouteRecord` | crates/ziggurat-zigbee/src/nwk/routing.rs:297-313 | the loop stores the path for its source and for every relay on it, and says whether the route changed |
| `SourceRoutes.StoredSuffix` | crates/ziggurat-zigbee/src/nwk/routing.rs:297-313 | each relay is reached over what follows its last place on the path; other records stay |
| `SourceRoutes.RecordCollectsPath` | crates/ziggurat-driver/src/zigbee_stack/nwk.rs:820-844 | a route record that walks a path arrives listing it, if there is room and radius |
| `SourceRoutes.RecordedRouteRetraces` | crates/ziggurat-zigbee/src/nwk/routing.rs:297-351 | once a device's record was stored, a frame back to it travels the recorded path in reverse and arrives |
| `SendConfirms.SweepCompletesScript` | crates/ziggurat-protocol/src/send_tracker.rs:95-160 | one pass over an entry completes what its verdicts call for, and finishes it exactly when nothing more can follow |
| `SendConfirms.SweepIsIdempotent` | crates/ziggurat-protocol/src/send_tracker.rs:95-160 | a second pass over the same verdicts emits nothing |
| `SendConfirms.ScriptGrows` | crates/ziggurat-driver/src/zigbee_stack/send_handle.rs:48-82 | later verdicts only extend what was called for, and leave a complete script alone |
| `SendTracking.SendSlot.constructor` | crates/ziggurat-driver/src/zigbee_stack/send_handle.rs:32-36 | a new slot has no verdict |
| `SendTracking.SendSlot.HandedOff` | crates/ziggurat-driver/src/zigbee_stack/send_handle.rs:48-62 | the first handoff is recorded and wakes its waiter and the tracker; a repeated one does neither |
| `SendTracking.SendSlot.Settled` | crates/ziggurat-driver/src/zigbee_stack/send_handle.rs:66-82 | the final verdict is recorded, back-fills a missing handoff and wakes everyone |
| `SendTracking.SendSlot.SetCompletionWake` | crates/ziggurat-driver/src/zigbee_stack/send_handle.rs:153-155 | registers the tracker's wake and nothing else |
| `SendTracking.Notify.NotifyOne` | crates/ziggurat-driver/src/sync.rs:24-44 | stores one permit |
| `SendTracking.SendTracker.constructor` | crates/ziggurat-protocol/src/send_tracker.rs:58-63 | a new tracker is empty |
| `SendTracking.SendTracker.Insert` | crates/ziggurat-protocol/src/send_tracker.rs:74-84 | registers the wake and tracks the send, with nothing emitted |
| `SendTracking.SweepOne` | crates/ziggurat-protocol/src/send_tracker.rs:99-158 | the branches of the loop body are the function `SweepEntry` |
| `SendTracking.SendTracker.Sweep` | crates/ziggurat-protocol/src/send_tracker.rs:95-167 | emits what every entry owes, in the order of the ids, and leaves exactly the unfinished entries |
| `ConfirmPipeline.StepKeepsInvariant` | crates/ziggurat-ncp-api/src/lib.rs:54-66 | every critical section keeps the links, the lock, the order of confirms and the attention each owed frame has |
| `ConfirmPipeline.NoLostConfirm` | crates/ziggurat-ncp-api/src/lib.rs:178-191 | in every interleaving, an entry that owes a frame has a stored permit, someone between unlock and notify, or a reactor that has yet to read it |
| `ConfirmPipeline.ConfirmsFollowScript` | crates/ziggurat-protocol/src/send_tracker.rs:95-167 | in every run at most one send or broadcast confirm per send, an acknowledgement confirm only after a successful handoff's, statuses equal to the verdicts |
| `ConfirmPipeline.SlotsTellRun` | crates/ziggurat-driver/src/zigbee_stack/send_handle.rs:48-82 | in every run the slots are the sends made, in order, each with the verdicts written for it |
| `ConfirmPipeline.RestartIsFresh` | crates/ziggurat-ncp-api/src/lib.rs:175-191 | after a restart the new tracker is empty and at rest, and no wake given out before is its own |
| `ConfirmPipeline.RunGoesOn` | crates/ziggurat-ncp-api/src/lib.rs:54-66 | a send can be made at any time, and whatever is enabled happens |
| `ConfirmPipeline.QuietMeansConfirmed` | crates/ziggurat-ncp-api/src/lib.rs:178-191 | at rest every tracked send's client has heard all that is called for, and no finished send is left |
| `ConfirmPipeline.NeverStuck` | crates/ziggurat-ncp-api/src/lib.rs:178-191 | while not at rest, the system can go on without outside help |
| `ConfirmPipeline.InternalStepsCost` | crates/ziggurat-ncp-api/src/lib.rs:178-191 | every such step uses up some of a bound computed from the state |
| `ConfirmPipeline.SchedulesEnd` | crates/ziggurat-ncp-api/src/lib.rs:178-191 | every schedule of such steps ends within the bound of the state it starts from |
| `ConfirmPipeline.RestConfirmsSettled` | crates/ziggurat-ncp-api/src/lib.rs:178-191 | whenever the system comes to rest, a tracked send with its final verdict was confirmed in full, once, and removed, unless another send under its id was taking its entry |
| `ConfirmPipeline.RestLosesDisplaced` | crates/ziggurat-protocol/src/send_tracker.rs:74-84 | a send whose entry is being taken by another under its id is lost |
| `ConfirmPipeline.LostIff` | crates/ziggurat-protocol/src/send_tracker.rs:74-84 | a send is lost to a restart or to an insert under its own id, and to nothing else |
| `ConfirmPipeline.ComesToRest` | crates/ziggurat-ncp-api/src/lib.rs:178-191 | from every reachable state it can come to rest |
| `UnicastSends.StepIsSound` | crates/ziggurat-zigbee/src/sends/unicasts.rs:127-446 | no operation panics; each keeps a frame on loan exactly while its record is transmitting, and every send settled at most once |
| `UnicastSends.RunGoesOn` | crates/ziggurat-zigbee/src/sends/unicasts.rs:127-446 | every operation that can be called goes through from every state reached |
| `UnicastSends.AlwaysOpen` | crates/ziggurat-zigbee/src/sends/unicasts.rs:127-446 | admitting, cancelling, passes, dropping a device's frames and shutdown can be called in every state |
| `UnicastSends.SettledExactlyOnce` | crates/ziggurat-zigbee/src/sends/unicasts.rs:198-446 | over every run, shutdown included, each admitted send is live and unsettled, or gone and settled exactly once |
| `UnicastSends.StepFollows` | crates/ziggurat-zigbee/src/sends/unicasts.rs:127-446 | whether an operation takes a send out of the table, and what it makes of its record otherwise, told from that record alone |
| `UnicastSends.RecordTells` | crates/ziggurat-zigbee/src/sends/unicasts.rs:127-446 | over every run: stage, deadline, attempts left, priority and loan of a live send are what its own admission, dequeues, reports, polls, acknowledgements and the passes since say |
| `UnicastSends.LifetimeIsExact` | crates/ziggurat-zigbee/src/sends/unicasts.rs:127-446 | over every run: a pass settles a live send if and only if it is not in the radio and its time is up: handoff timeout or persistence time from admission, an admitted deadline replacing the first and capping the second, or the acknowledgement wait from the handoff |
| `UnicastSends.OfferedIff` | crates/ziggurat-zigbee/src/sends/unicasts.rs:160-169 | over every run: a live send is offered to the radio exactly while it is queued and its time is not up |
| `UnicastSends.AckGoesToOldest` | crates/ziggurat-zigbee/src/sends/unicasts.rs:326-353 | an acknowledgement goes to the oldest send that waits for it, and to none exactly when there is none |
| `UnicastSends.PollAsksForOldest` | crates/ziggurat-zigbee/src/sends/unicasts.rs:295-324 | a poll asks for the oldest frame held for the device that still has time, and for none exactly when there is none |
| `UnicastSends.OutcomesAreEarned` | crates/ziggurat-zigbee/src/sends/unicasts.rs:198-446 | every outcome names what happened: delivered, failed, timed out, expired, cancelled or shut down |
| `UnicastSends.AttemptsAreBounded` | crates/ziggurat-zigbee/src/sends/unicasts.rs:127-243 | a direct unicast is transmitted at most once more than it has retries |
| `UnicastSends.StepAnnounces` | crates/ziggurat-zigbee/src/sends/unicasts.rs:174-295 | only a dequeue hands a frame out; a send that leaves while waiting for its acknowledgement has had its handoff announced twice, any other never, except at shutdown |
| `UnicastSends.TransmissionsAreDequeues` | crates/ziggurat-zigbee/src/sends/unicasts.rs:174-196 | over every run the transmissions logged for a send are its dequeues |
| `UnicastSends.DequeuesInOrder` | crates/ziggurat-zigbee/src/sends/unicasts.rs:160-169 | frames dequeued one after another go by priority, then by age |
| `UnicastSends.NextExists` | crates/ziggurat-zigbee/src/sends/unicasts.rs:160-169 | some frame is next exactly when one is ready, and only one is |
| `UnicastSends.PollGoesFirst` | crates/ziggurat-zigbee/src/sends/unicasts.rs:295-324 | the frame a poll asks for goes before all others, save older urgent ones |
| `UnicastSends.WakeIsExact` | crates/ziggurat-zigbee/src/sends/unicasts.rs:81-102 | a pass does something to a record from its wake on, and nothing before it |
| `UnicastSends.TickIsExact` | crates/ziggurat-zigbee/src/sends/unicasts.rs:423-450 | a pass changes nothing if and only if it comes before every record's wake |
| `UnicastSends.TickLeavesNoneOverdue` | crates/ziggurat-zigbee/src/sends/unicasts.rs:423-446 | after a pass every send left is in the radio or has time left |
| `UnicastSends.ActionsCommute` | crates/ziggurat-driver/src/zigbee_stack/sends.rs:112-148 | however a handoff and the later settlement interleave, the waiter ends with a successful handoff and the final verdict |
| `UnicastSends.RepetitionIsNeeded` | crates/ziggurat-zigbee/src/sends/unicasts.rs:271-295 | without the repeated handoff, order would matter exactly for failures |

## Left out

- The routing and neighbour tables beyond what a relay and a resolver ask of them: they are parameters of `SourceRoutes`.
- The unrouted-unicast and broadcast send tables, and dequeuing across the three: they repeat the settlement argument of the unicasts.
- `UnicastSends` is modelled on values, not as an object updated in place; a poll or an acknowledgement goes to the oldest match, and a call that finds none is not an operation. The frame-pending flag of a dequeue is not modelled. Ids are unbounded; the source counts them in 32 bits. Which broadcast a unicast is a copy of is not recorded.
- Waiting for a slot's stages (`handed_off().await`, `delivered().await`): the tracker never does.
- The status codes and byte layout of confirm frames: a confirm carries the verdict itself.
- Outbound queueing after the reactor, and its drop-oldest policy.
- The list of Spinel property ids: which ids exist is a parameter; property updates are routed but their receivers are not modelled.
- Durations below a microsecond: the budget's interval is a whole number of microseconds, and zero means no limit.
- `FlatSet`, which is a map to unit.
- In the frame codec, payloads of data frames are opaque bytes, and the superframe and other command payloads are those the source decodes; unknown ones are kept as bytes.
- AES, CCM and the hashes, executors, serial, TCP and WebSocket transports, joining, ZDP, and the many-to-one scheduler.
