# Verification of iec61850-rust

A Dafny model of the parts of this IEC 61850 stack in which state, arithmetic
and untrusted input meet, with proofs about it. The model follows the code,
branch by branch, where code and documentation differ.

## What is modelled

**GOOSE on the wire.** `BerLength`, `BerInteger`, `MmsData`, `GoosePdu` and
`GooseFrame` are the encodings as functions on octets; `MmsDataCodec`,
`GoosePduCodec` and the methods of `GooseFrame` are the loops of the program,
on buffers and positions, proved equal to them. Round trips are stated as
equivalences: what comes back, and that nothing else does. The length encoder
keeps the low 16 bits of a longer length, as a release build does, so the
equivalences say exactly which PDUs that loses.

**GOOSE publisher and subscriber.** `Publisher` is the publisher as a class
over a prebuilt header that it patches in place, proved to send what plain
encoding would. `Subscriber` is the subscriber as a class over its bounded table
of publications. `RecencyList`, `SubscriberHistory` and `SubscriberOverflow`
relate that table to the history of all messages, `SubscriberIsolation` and
`SubscriberRoom` separate the publications in it, and `SubscriberExpiry` bounds
its Expired events. `Receiver` is the APPID index over many subscribers, and `ReceiveLoop`
the polling loop around it. `Link` and `LinkSupervision` join a publisher to a
subscriber through encoding, padding and decoding, and prove sequence numbers
and supervision over whole runs; `Transmission` carries both from the calls on
the publisher object to the listeners of the subscriber objects. Instants and
durations are nanoseconds as natural numbers.

**Client paging.** `Journal`, `JournalExact`, `JournalAhead` and
`JournalClient` are the journal read, `NameList` the GetNameList walk, both
against a server that is any function of the request, and then against honest
ones of several kinds. `DeviceModel` is
the cached device model as a state machine: every step a task takes under a
lock is one step, interleaved in any order with connects, disconnects and
invalidations.

**Object references.** `Text`, `ObjectRef` and `ObjectRefCodec` are the MMS and
IEC notations, `ObjectPath` the MMS address they resolve to, `DataSetMember` the
way back from a data set member. Text here holds one character for each octet
of its UTF-8 form, so that lengths are the program's.

**Address parameters.** `Hex`, `AddressForm` and `AddressNormalForm` are the
lenient reader, the strict schema check and the writer of the parameters of an
SCL address. Text here holds Unicode characters.

## Results that are not what one might expect

- A body or contents of more than 65535 octets is encoded without an error and
  does not decode (`BerLength.LengthRoundTrip`, `GoosePdu.PduRoundTrip`).
- The publisher accepts reference strings of more than 129 octets, empty bit
  strings and binary times of any length, none of which arrives
  (`Publisher.PublicationDelivered`), and VLAN IDs of more than twelve bits,
  which arrive without their upper bits (`Publisher.PublicationArrives`).
- One lost publication is reported as an expiry as long as the intervals still
  grow, since the announced time is twice the current interval: by default in
  every phase but the last (`LinkSupervision.LossByDefault`), in the first after
  9 ms (`LinkSupervision.FirstLossIsReported`). The exact condition is in
  `LinkSupervision.OneLoss`.
- In a table of one slot a simulation turns a repetition of the original
  publication into a new state (`SubscriberRoom.SimulationDisturbs`); exactly
  with a slot for each, publications never disturb each other
  (`SubscriberRoom.RoomExactly`).
- Two data changes with the first unpublished read as a rollback when stNum
  passes its maximum in between (`Link.SkippedAcrossWrap`); the exact condition
  is in `Link.SkippedStates`.
- The 64-bit recency counter evicts the publication just heard when it overflows,
  in tables of every size from two slots on (`SubscriberOverflow.OverflowHappens`)
  and not in one of a single slot (`SubscriberOverflow.OverflowExactly`).
- With an entry count, a journal server that resumes at the cursor and counts
  that entry is read one entry short (`JournalExact.InclusiveCountFallsShort`),
  except in one request without a cursor or when the log ends within the count
  (`JournalExact.CountedAtCursor`).
- With an entry count, a journal server that resumes ahead of the cursor and
  counts what it sends again can make the read return an entry that the query
  excludes (`JournalAhead.AheadReturnsExcluded`): exactly when the first page ends
  ahead of the cursor, as long as later pages reach theirs
  (`JournalAhead.AheadExactly`).
- A device model mixes two associations when the 64-bit association number comes
  round during one read (`DeviceModel.ReusedNumberMixes`).
- A data set member whose leading component holds a `$` is mapped to a reference
  that does not lead back to it (`DataSetMember.DollarIsLost`).
- The schema form of an IPv4 address is not unique: `1.02.3.4` has it and is
  rewritten to `1.2.3.4` (`AddressNormalForm.FixedPoints`).

## Model

| member | source | states |
|---|---|---|
| `BerLength.LengthRoundTrip` | crates/iec61850-asn1/src/length.rs:26-75 | A length followed by anything decodes to itself if and only if it is at most 65535; a longer one decodes to its low 16 bits, which is what the encoder wrote |
| `BerLength.EncodedLengthIsShortest` | crates/iec61850-asn1/src/length.rs:26-75 | No length field the decoder accepts is shorter than the one the encoder writes for the same value |
| `BerLength.ReadTlvShift` | crates/iec61850-goose/src/pdu.rs:316-340 | Reading a tag and length at a position inside a window is reading it at the start of that window, shifted |
| `BerLength.ReadTlvOfPrefix` | crates/iec61850-goose/src/pdu.rs:316-340 | Any prefix of an encoded element and its successors that still reads as an element gives the same tag and, of the content, exactly as much as the length field can state |
| `BerInteger.IntegerContentIsMinimal` | crates/iec61850-goose/src/pdu.rs:170-187 | The contents octets of every integer hold its two's complement value and no redundant sign octet (section 8.3.2 of ISO/IEC 8825-1) |
| `BerInteger.MinimalIsUnique` | crates/iec61850-goose/src/pdu.rs:170-187 | Minimal contents octets are the contents octets of their value, so the minimal form is unique |
| `BerInteger.EncodeU32` | crates/iec61850-goose/src/pdu.rs:170-187 | Stripping leading zero octets and restoring a sign octet gives the minimal contents of any 32-bit number |
| `BerInteger.EncodeI64` | crates/iec61850-goose/src/pdu.rs:209-228 | Stripping redundant sign octets gives the minimal contents of any signed 64-bit number |
| `BerInteger.EncodeU64` | crates/iec61850-goose/src/pdu.rs:229-251 | Stripping zero octets and restoring a sign octet gives the minimal contents of any unsigned 64-bit number, nine octets at most |
| `MmsData.PrimitiveRoundTrip` | crates/iec61850-goose/src/pdu.rs:201-303 | The contents of a value that is neither array nor structure decode to it if and only if it is storable: a bit string with content and at most seven padding bits, a binary time of four or six octets, anything of the other kinds |
| `MmsData.ElementRoundTrip` | crates/iec61850-goose/src/pdu.rs:369-519 | A storable value within the nesting limit and with contents of at most 65535 octets, encoded and followed by anything, decodes to itself and consumes exactly its own octets |
| `MmsData.ItemsRoundTrip` | crates/iec61850-goose/src/pdu.rs:522-531 | A list of storable values decodes from its encoding to itself |
| `MmsData.ElementFaithful` | crates/iec61850-goose/src/pdu.rs:369-519 | Conversely, a value that decodes from any prefix of its own encoding and successors was storable, had contents that fit the length field, and was read to its end |
| `MmsData.ItemsFaithful` | crates/iec61850-goose/src/pdu.rs:522-531 | The same for lists: only storable values decode back, and only from their whole encoding |
| `MmsData.DecodedItemsAreStorable` | crates/iec61850-goose/src/pdu.rs:369-531 | Whatever decodes from arbitrary octets is storable and nested within the limit |
| `MmsDataCodec.WriteTlv` | crates/iec61850-goose/src/pdu.rs:144-148 | Appends tag, length and contents to the buffer and changes nothing else in it |
| `MmsDataCodec.EncodeMmsValue` | crates/iec61850-goose/src/pdu.rs:201-303 | The recursive encoder appends exactly the specified encoding, and fails exactly when the nesting exceeds the limit |
| `MmsDataCodec.EncodeMmsValues` | crates/iec61850-goose/src/pdu.rs:287-300 | The element loop appends the encodings of all elements in order |
| `MmsDataCodec.DecodeI64` | crates/iec61850-goose/src/pdu.rs:406-420 | The octet loop with its sign extension computes the two's complement value |
| `MmsDataCodec.DecodeU64` | crates/iec61850-goose/src/pdu.rs:421-444 | The octet loop computes the unsigned value |
| `MmsDataCodec.DecodeDataElement` | crates/iec61850-goose/src/pdu.rs:369-519 | The recursive decoder on positions in a buffer agrees with decoding the window, errors included |
| `MmsDataCodec.DecodeElements` | crates/iec61850-goose/src/pdu.rs:522-531 | The element loop on positions agrees with decoding the list in the window |
| `GoosePdu.U32RoundTrip` | crates/iec61850-goose/src/pdu.rs:346-364 | Every 32-bit number decodes from its own contents |
| `GoosePdu.DecodedPduIsPresentable` | crates/iec61850-goose/src/pdu.rs:658-817 | Whatever PDU is accepted from arbitrary octets meets every limit the decoder enforces |
| `GoosePdu.PduRoundTrip` | crates/iec61850-goose/src/pdu.rs:585-817 | Decoding the encoding of a PDU followed by any octets gives the PDU back if and only if it is well formed: reference strings of at most 129 octets, stNum not 0, an entry count equal to the number of values, storable values and a body of at most 65535 octets; the encoder refuses exactly the values nested too deeply |
| `GoosePdu.PduNormalForm` | crates/iec61850-goose/src/pdu.rs:369-817 | A PDU accepted from arbitrary octets (long length fields, reordered, repeated or unknown members, tag 0x80 data) re-encodes and decodes to the same PDU exactly when the re-encoded body fits 65535 octets |
| `GoosePduCodec.DecodeU32FromBytes` | crates/iec61850-goose/src/pdu.rs:346-364 | The octet loop reads one to four octets, or five with a zero in front, and refuses all others |
| `GoosePduCodec.BuildHead` | crates/iec61850-goose/src/pdu.rs:585-625 | Lists the eleven members in front of allData, in order, with their contents |
| `GoosePduCodec.EncodeBer` | crates/iec61850-goose/src/pdu.rs:585-638 | The encoder appends the specified encoding, or fails and appends nothing |
| `GoosePduCodec.ReadMembers` | crates/iec61850-goose/src/pdu.rs:670-790 | The member loop on positions agrees with decoding the members of the window |
| `GoosePduCodec.DecodeBer` | crates/iec61850-goose/src/pdu.rs:658-817 | The decoder agrees with the specified decoding on every input, errors included |
| `GooseFrame.FrameRoundTrip` | crates/iec61850-goose/src/frame.rs:167-313 | A frame with any padding behind it decodes to what was sent if and only if its VLAN ID has twelve bits and its size fits the Length field |
| `GooseFrame.FrameNormalForm` | crates/iec61850-goose/src/frame.rs:167-313 | A frame accepted from arbitrary octets is carriable, encodes to no more octets than it came from and, with any padding, decodes to the same frame |
| `GooseFrame.FrameLayout` | crates/iec61850-goose/src/frame.rs:167-202 | Every field of every frame stands at its offset: addresses, tag 0x8100 with priority and VLAN ID, EtherType 0x88B8, APPID, Length, the S bit on top of Reserved1, Reserved2, PDU |
| `GooseFrame.Encode` | crates/iec61850-goose/src/frame.rs:167-202 | Appends the octets of the frame to the buffer and returns how many |
| `GooseFrame.Decode` | crates/iec61850-goose/src/frame.rs:216-313 | The positional decoder agrees with the specified decoding on every input, errors included |
| `Publisher.IntervalsGrow` | crates/iec61850-goose/src/publisher.rs:194-261 | Every interval derived from MinTime and MaxTime lies between them, each phase doubles it up to the longest, and none is below a millisecond |
| `Publisher.StNumStaysPositive` | crates/iec61850-goose/src/publisher.rs:550-569 | No sequence of operations brings stNum to 0 |
| `Publisher.StateSchedule` | crates/iec61850-goose/src/publisher.rs:692-699 | Publication number n of a state carries the sqNum of its number, 0 first and never 0 again, and the next is due after the interval of its number: T1 to T4 after the first four, the longest after every other |
| `Publisher.PatchLength` | crates/iec61850-goose/src/publisher.rs:682-688 | Overwriting the two Length octets of the header of an empty PDU gives the header of any PDU |
| `Publisher.PatchSimulation` | crates/iec61850-goose/src/publisher.rs:455-465 | Setting or clearing one bit of the header gives the header with that simulation flag |
| `Publisher.GoosePublisher.constructor` | crates/iec61850-goose/src/publisher.rs:338-395 | A new publisher has stNum 1, sqNum 0 and a header equal to the plainly encoded one |
| `Publisher.NewPublisher` | crates/iec61850-goose/src/publisher.rs:338-395 | An empty gocbRef or data set reference is refused, and nothing else is |
| `Publisher.GoosePublisher.SetSimulation` | crates/iec61850-goose/src/publisher.rs:455-465 | Changes the flag, and the header stays equal to the plainly encoded one |
| `Publisher.GoosePublisher.SetDataSetRef` | crates/iec61850-goose/src/publisher.rs:428-435 | Refuses an empty reference and changes nothing then |
| `Publisher.GoosePublisher.IncreaseStNum` | crates/iec61850-goose/src/publisher.rs:550-557 | The next state number, skipping 0, sqNum 0, the first phase and a publication due at once |
| `Publisher.GoosePublisher.Reset` | crates/iec61850-goose/src/publisher.rs:563-569 | State 1, sqNum 0, the first phase and a publication due at once |
| `Publisher.GoosePublisher.Tick` | crates/iec61850-goose/src/publisher.rs:614-630 | A publication is due exactly when none was scheduled or its time has come |
| `Publisher.GoosePublisher.TimeAllowedToLiveMs` | crates/iec61850-goose/src/publisher.rs:528-535 | The override, or twice the next interval capped to 32 bits |
| `Publisher.GoosePublisher.BuildFrame` | crates/iec61850-goose/src/publisher.rs:682-688 | The copied and patched header followed by the PDU is the plainly encoded frame |
| `Publisher.GoosePublisher.PublishAt` | crates/iec61850-goose/src/publisher.rs:651-702 | The frame is the plainly encoded one of the state before; sqNum, phase and schedule move on; a failure changes nothing |
| `Publisher.Drive` | crates/iec61850-goose/src/publisher.rs:355-702 | Over any interleaving of setters, state changes, successful and failed publications, the frames are those of plain encoding with the current simulation bit, and the state is that of the specification |
| `Publisher.PublicationDelivered` | crates/iec61850-goose/src/publisher.rs:651-702 | A published frame with any padding decodes to the publisher's fields, flags and data, with twelve bits of the VLAN ID, if and only if the reference strings are at most 129 octets and the values are storable |
| `Publisher.PublicationArrives` | crates/iec61850-goose/src/publisher.rs:651-702 | End to end: a published frame with any padding decodes, frame then PDU, to exactly the fields, flags and data of the publisher if and only if the reference strings are at most 129 octets, the VLAN ID has 12 bits and the values are storable |
| `Subscriber.GooseSubscriber.constructor` | crates/iec61850-goose/src/subscriber.rs:258-279 | A new subscriber tracks nothing and has room for at least one publication |
| `Subscriber.GooseSubscriber.EvictLeastRecent` | crates/iec61850-goose/src/subscriber.rs:561-579 | Removes the first publication with the least recency stamp by moving the last one into its place |
| `Subscriber.GooseSubscriber.UpdateAndDispatch` | crates/iec61850-goose/src/subscriber.rs:451-558 | The table after a message and the one call to the listener, for every combination of wrap, rollback, repetition, configuration change, free slot and eviction |
| `Subscriber.GooseSubscriber.CheckExpiredAt` | crates/iec61850-goose/src/subscriber.rs:595-609 | Marks every overdue publication and reports each that was not marked, in table order |
| `RecencyList.RecencyIsSorted` | crates/iec61850-goose/src/subscriber.rs:531-579 | The list of keys by last occurrence has strictly decreasing stamps and no repetitions |
| `RecencyList.RecencyMember` | crates/iec61850-goose/src/subscriber.rs:531-558 | The list holds exactly the keys heard |
| `RecencyList.LeastStampIsOldest` | crates/iec61850-goose/src/subscriber.rs:561-579 | The slot with the least stamp holds the key heard least recently of those held |
| `RecencyList.HearFull` | crates/iec61850-goose/src/subscriber.rs:531-579 | With every slot taken, evicting that slot and adding the new key leaves exactly the most recently heard keys |
| `SubscriberHistory.TableRefinesHistory` | crates/iec61850-goose/src/subscriber.rs:451-579 | After any run of fewer than 2^64 messages the table holds exactly the most recently heard publications, as many as fit, each once and each with its latest message |
| `SubscriberHistory.SlotIsLatest` | crates/iec61850-goose/src/subscriber.rs:531-558 | No message of a tracked publication came after the one its slot holds |
| `SubscriberHistory.NextStampIsNewest` | crates/iec61850-goose/src/subscriber.rs:529-531 | The next recency stamp exceeds every other if and only if the 64-bit counter does not overflow |
| `SubscriberOverflow.OverflowEvictsNewest` | crates/iec61850-goose/src/subscriber.rs:529-579 | In any table that 2^64 - 1 messages lead to, the publication heard next is evicted by the one after it, when that is new and the table is full |
| `SubscriberOverflow.SingleSlotHolds` | crates/iec61850-goose/src/subscriber.rs:529-579 | A table of one slot holds the publication heard last after any run, beyond the overflow too |
| `SubscriberOverflow.OverflowExactly` | crates/iec61850-goose/src/subscriber.rs:529-579 | After the overflow and a new publication, a full table holds the most recently heard publications if and only if it has one slot |
| `SubscriberOverflow.OverflowHappens` | crates/iec61850-goose/src/subscriber.rs:529-579 | For every number of slots from two to 2^64 - 1 and any publications, one more than there are slots, there is a run from a new subscriber after which the table is wrong |
| `SubscriberIsolation.KeptRun` | crates/iec61850-goose/src/subscriber.rs:451-609 | From any table, the events of a publication that the run never evicts are those of a subscriber that hears only it and the sweeps, whatever happens to the others |
| `SubscriberIsolation.IsolatedRun` | crates/iec61850-goose/src/subscriber.rs:451-609 | The same from any table with room for all publications of the run |
| `SubscriberIsolation.IsolatedUnlessEvicted` | crates/iec61850-goose/src/subscriber.rs:451-609 | The NewState, Retransmission and Expired events of a publication that is never evicted equal those of the run projected to it, so others, a simulation of it too, do not disturb it |
| `SubscriberIsolation.Isolation` | crates/iec61850-goose/src/subscriber.rs:451-609 | The same of every publication of a run that concerns no more publications than there are slots |
| `SubscriberRoom.RoomExactly` | crates/iec61850-goose/src/subscriber.rs:451-609 | The publications of a set never disturb each other, in any run of them, if and only if there is a slot for each |
| `SubscriberRoom.SimulationDisturbs` | crates/iec61850-goose/src/subscriber.rs:531-579 | With one slot, a simulation heard between two equal messages of the original turns the second into a new state |
| `SubscriberExpiry.RunIsTraced` | crates/iec61850-goose/src/subscriber.rs:451-609 | Every run is a trace of tables, each the step from the one before |
| `SubscriberExpiry.ExpiredOncePerArming` | crates/iec61850-goose/src/subscriber.rs:531-609 | Between two Expired events of a publication lies a message of it that is not an sqNum repetition or rollback, or its eviction |
| `Receiver.GooseReceiver.AddSubscriber` | crates/iec61850-goose/src/receiver.rs:76-88 | Appends the subscriber and keeps the APPID index and the wildcard list in agreement with the list |
| `Receiver.GooseReceiver.RemoveSubscriber` | crates/iec61850-goose/src/receiver.rs:91-109 | Empties the slot and keeps the index in agreement; false exactly when the slot was empty or absent |
| `Receiver.CandidatesExact` | crates/iec61850-goose/src/receiver.rs:216-223 | The index lookup selects exactly the subscribers whose APPID filter accepts, each once |
| `Receiver.GooseReceiver.DispatchThroughIndex` | crates/iec61850-goose/src/receiver.rs:263-274 | Every subscriber ends up as a plain scan over all of them says: handed the message once if its APPID, MAC, gocbRef and simulation filters accept it, untouched otherwise |
| `Receiver.GooseReceiver.HandleFrame` | crates/iec61850-goose/src/receiver.rs:225-277 | Skipping the PDU decode when no subscriber accepts the frame changes no subscriber's outcome; an undecodable PDU is reported exactly when some subscriber accepts the frame header |
| `Receiver.GooseReceiver.DoHandleMessage` | crates/iec61850-goose/src/receiver.rs:201-277 | Any octets are decoded and delivered as the plain scan says; the error of an undecodable frame is always reported, that of an undecodable PDU exactly when some subscriber accepts the frame header, and neither touches anybody |
| `Receiver.GooseReceiver.CheckAllExpired` | crates/iec61850-goose/src/receiver.rs:281-285 | Every subscriber is swept once at the same instant |
| `Receiver.GooseReceiver.HandleMessageAt` | crates/iec61850-goose/src/receiver.rs:158-170 | Delivery as the plain scan says, then the sweep, for every subscriber, with the listener calls in that order |
| `Receiver.GooseReceiver.TickAt` | crates/iec61850-goose/src/receiver.rs:186-194 | A polled frame is handled and swept after, an idle poll only sweeps, and the answer tells whether a frame with content came |
| `ReceiveLoop.PollAll` | crates/iec61850-goose/src/receiver.rs:158-194 | Polling through any frames, whatever octets they hold, leaves every subscriber with the table and the listener calls of its own run over the messages its filters accept and the sweeps |
| `Link.ArrivalCarries` | crates/iec61850-goose/src/publisher.rs:651-702 | A publication that is built and publishable reaches a subscriber, through encoding, padding and decoding, with every field of the publisher: references, numbers, flags, time stamp, values, announced time and addresses |
| `Link.EveryPublicationHeard` | crates/iec61850-goose/src/subscriber.rs:451-558 | In any run, resets and sweeps included, NewState and Retransmission are raised once for each successful publication, in order, with everything it carried |
| `Link.Delivery` | crates/iec61850-goose/src/subscriber.rs:451-558 | The same as a bounded table hears it, among any other publications, that never evicts this one |
| `Link.EventsWellSequenced` | crates/iec61850-goose/src/subscriber.rs:451-558 | In any run without reset that publishes every state, publications that fail to build included, every message is valid, at both counter wraps too, and NewState is raised exactly for sqNum 0 |
| `Link.Sequencing` | crates/iec61850-goose/src/publisher.rs:550-557 | The same as a bounded table hears it, among any other publications, that never evicts this one |
| `Link.LoneSequencing` | crates/iec61850-goose/src/publisher.rs:550-557 | The same for a publisher heard alone, by a table of any size |
| `Link.SkippedStates` | crates/iec61850-goose/src/subscriber.rs:614-616 | When of k data changes only the last is published, its message is judged valid if and only if, whole turns of the counter aside, stNum moved up without passing its maximum or stepped from the maximum to 1; it is a new state unless k is a multiple of 2^32 - 1 |
| `Link.SkippedAcrossWrap` | crates/iec61850-goose/src/subscriber.rs:468-477 | Two changes across the maximum with the first unpublished read as a rollback |
| `LinkSupervision.CoversExactly` | crates/iec61850-goose/src/publisher.rs:528-535 | The announced time covers the interval if and only if the interval in milliseconds is at most the override or, without one, 2^32 - 1 |
| `LinkSupervision.OnePublication` | crates/iec61850-goose/src/subscriber.rs:595-622 | No sweep up to the next publication finds a message overdue if and only if its announced time covers the interval |
| `LinkSupervision.OverdueBeyondTwice` | crates/iec61850-goose/src/publisher.rs:528-535 | Without an override a message becomes overdue exactly one millisecond beyond twice its interval in whole milliseconds |
| `LinkSupervision.OneLoss` | crates/iec61850-goose/src/publisher.rs:528-535 | When the next publication is lost, no sweep up to the one after it finds this one overdue if and only if its announced time covers both intervals |
| `LinkSupervision.LossInWholeMillis` | crates/iec61850-goose/src/publisher.rs:194-261 | With intervals of whole milliseconds and no override, that is so if and only if the second interval is no longer than the first |
| `LinkSupervision.LossByDefault` | crates/iec61850-goose/src/publisher.rs:194-261 | With the default intervals and no override, that is so if and only if the phase is the stable one |
| `LinkSupervision.LossIsReported` | crates/iec61850-goose/src/subscriber.rs:595-622 | A loss that is not covered is reported by a sweep at the instant the publication after the lost one is due |
| `LinkSupervision.FirstLossIsReported` | crates/iec61850-goose/src/subscriber.rs:595-622 | By default the second message of a state is due after 4 ms and the third after 12 ms, and when the second is lost a sweep after 9 ms reports the first |
| `LinkSupervision.Supervision` | crates/iec61850-goose/src/publisher.rs:697-699 | In any run in which time never passes the instant the last publication set for the next, across phases, data changes and resets published at any instant up to it, interval changes and publications that fail to build, no sweep raises Expired |
| `LinkSupervision.NoExpiryReported` | crates/iec61850-goose/src/subscriber.rs:595-609 | The same as a bounded table hears it, among any other publications, that never evicts this one |
| `LinkSupervision.LoneSupervision` | crates/iec61850-goose/src/subscriber.rs:595-609 | The same for a publisher heard alone, by a table of any size |
| `LinkSupervision.ShortTimeIsReported` | crates/iec61850-goose/src/subscriber.rs:595-622 | A publication whose announced time falls short is reported by a sweep at the very instant the next one is due |
| `Transmission.PolledInputs` | crates/iec61850-goose/src/receiver.rs:201-277 | What a receiver polled with the frames of a publisher hands to a subscriber that wants them is what the link says arrives, with a sweep behind each |
| `Transmission.Transmit` | crates/iec61850-goose/src/receiver.rs:158-194 | Publishing any run and polling the receiver with the frames brings the publisher to the specified state and every subscriber to its own run over what its filters accept |
| `Transmission.HeardInSequence` | crates/iec61850-goose/src/publisher.rs:651-702 | A new subscriber that wants a publisher that publishes every state hears only valid messages, and as new exactly those with sqNum 0 |
| `Transmission.HeardOneByOne` | crates/iec61850-goose/src/receiver.rs:201-277 | A new subscriber that wants a publisher hears each of its successful publications once, in order and with everything it carried |
| `Transmission.HeardInTime` | crates/iec61850-goose/src/publisher.rs:528-535 | A new subscriber that wants a punctual publisher hears of no expiry |
| `Transmission.TransmitToNew` | crates/iec61850-goose/src/receiver.rs:158-194 | All three on the objects themselves: from the calls on the publisher to the listener calls of every new subscriber behind the receiver's index |
| `Journal.ReceivedGrows` | crates/iec61850-client/src/journal.rs:374-407 | A page that lets the read continue brings an EntryID not received before, of which there are at most 2^64, so the read ends against any server |
| `Journal.AnyServer` | crates/iec61850-client/src/journal.rs:374-407 | Whatever a server answers, a result has distinct EntryIDs, nothing past the end time, no more than the entry count, and is a subsequence of the pages received |
| `JournalExact.Exact` | crates/iec61850-client/src/journal.rs:222-407 | Over a log with distinct EntryIDs, from a server that resumes after the cursor, at it, or at earlier entries such as those of its time, and whose pages pass the cursor while more follow, the result is exactly the selected entries in order; also when the server ignores the end time, and with an entry count that leaves out what is sent again |
| `JournalExact.ReadAtCursor` | crates/iec61850-client/src/journal.rs:198-407 | What is read with an entry count from any server that resumes at the cursor and counts that entry: the selection when the first request, without a cursor, is the only one, and otherwise the selection with a count of one less |
| `JournalExact.CountedAtCursor` | crates/iec61850-client/src/journal.rs:198-407 | Such a read, of any log with distinct EntryIDs and with or without a first cursor, is exact if and only if it takes no resumed request or the entries behind the cursor are fewer than the count |
| `JournalExact.InclusiveCountFallsShort` | crates/iec61850-client/src/journal.rs:198-208 | The smallest failing read: of two entries, sent one at a time, the second is missing |
| `JournalAhead.AheadWithoutCursor` | crates/iec61850-client/src/journal.rs:210-407 | With an entry count and no cursor to begin with, a result from any server that resumes ahead of its cursor and counts what it sends again is a beginning of the selection |
| `JournalAhead.AheadExactly` | crates/iec61850-client/src/journal.rs:210-407 | With or without such a cursor, and continuations that reach theirs, the result is a beginning of the selection if and only if the first page does not end ahead of the cursor |
| `JournalAhead.AheadReturnsExcluded` | crates/iec61850-client/src/journal.rs:222-233 | The smallest failing read: of three entries, one asked for after the second, the first is returned |
| `JournalClient.KeepNewEntries` | crates/iec61850-client/src/journal.rs:222-233 | The search from the back and the retaining loop keep the entries behind the last occurrence of the cursor that are new, each once |
| `JournalClient.DropPastEnd` | crates/iec61850-client/src/journal.rs:237-241 | Keeps the entries not past the end time, in order, and tells whether any was dropped |
| `JournalClient.QueryJournalAll` | crates/iec61850-client/src/journal.rs:374-407 | The loop ends against any server and returns the specified reading, errors included |
| `NameList.AnyServer` | crates/iec61850-client/src/directory.rs:113-165 | Against any server at most limit + 1 requests; a result is the names received, each once, in the order of first arrival, at most the limit; the limit error is returned exactly when more distinct names arrived |
| `NameList.Exact` | crates/iec61850-client/src/directory.rs:113-165 | From a server that pages through a list of distinct names the walk returns the whole list, or the limit error exactly when it is longer than the limit |
| `NameList.FetchAllNames` | crates/iec61850-client/src/directory.rs:113-165 | The nested loops end against any server and return the specified walk, errors included |
| `DeviceModel.NextInv` | crates/iec61850-client/src/directory.rs:208-240 | Every step of any task, connect, disconnect or invalidation keeps the provenance invariant: what a task holds was answered since it read the association number, and after the second reading on that one association |
| `DeviceModel.Purity` | crates/iec61850-client/src/directory.rs:178-270 | In any interleaving in which no single read lasts through 2^64 new associations, every model cached, returned, or given without a request holds only names answered on one association that bore its number; a model given without a request, which takes one step for the number and one for the cache, only names of the association whose number was read, unless 2^64 associations lie between |
| `DeviceModel.PurityByNumber` | crates/iec61850-client/src/directory.rs:178-270 | Within the first 2^64 associations that one association is the one the number names |
| `DeviceModel.ReusedNumberMixes` | crates/iec61850-mms/src/mms/client/connection.rs:878-893 | The bound is needed and sharp: the number is 64 bits wide and wraps, and after exactly 2^64 associations during one read the returned model mixes two of them |
| `DeviceModel.AddTaggedNames` | crates/iec61850-client/src/directory.rs:113-165 | The names a task collects are those the GetNameList walk collects |
| `Text.DecimalRoundTrip` | crates/iec61850-model/src/object_ref.rs:223-243 | Every 32-bit index reads back from its decimal form |
| `Text.ParsedIsShortest` | crates/iec61850-model/src/object_ref.rs:223-243 | No accepted spelling of an index, with a plus sign or zeros in front, is shorter than the printed one |
| `ObjectRef.FcRoundTrip` | crates/iec61850-model/src/fc.rs:66-125 | Every functional constraint reads back from its abbreviation |
| `ObjectRef.MmsRoundTrip` | crates/iec61850-model/src/object_ref.rs:71-178 | A reference survives MMS notation if and only if it has a functional constraint, its domain is not empty and has no `/`, its node and names are not empty and have no `$`, no name has `(`, an index stands only behind a name, and the text has at most 128 octets |
| `ObjectRef.IecRoundTrip` | crates/iec61850-model/src/object_ref.rs:112-196 | The same for IEC notation with `.` and without a functional constraint |
| `ObjectRef.MmsNormalForm` | crates/iec61850-model/src/object_ref.rs:71-178 | Every accepted MMS text prints to one no longer that reads the same |
| `ObjectRef.IecNormalForm` | crates/iec61850-model/src/object_ref.rs:112-196 | Every accepted IEC text prints to one no longer that reads the same |
| `ObjectRef.RefRoundTrip` | crates/iec61850-model/src/object_ref.rs:150-196 | With the notation detected by `$`, a reference survives if and only if it is well formed in its notation and, in IEC notation, holds no `$` |
| `ObjectRef.RefNormalForm` | crates/iec61850-model/src/object_ref.rs:150-196 | Every text accepted in either notation prints to one no longer that reads the same |
| `ObjectRefCodec.PushTokenWithIndex` | crates/iec61850-model/src/object_ref.rs:223-243 | Pushes the name and the index of a token, or fails |
| `ObjectRefCodec.ParseMms` | crates/iec61850-model/src/object_ref.rs:71-103 | The token loop agrees with the specified reading, errors included |
| `ObjectRefCodec.ParseIec` | crates/iec61850-model/src/object_ref.rs:112-139 | The token loop agrees with the specified reading, errors included |
| `ObjectRefCodec.Parse` | crates/iec61850-model/src/object_ref.rs:150-156 | The notation is MMS exactly when the text has a `$` |
| `ObjectRefCodec.ToMmsString` | crates/iec61850-model/src/object_ref.rs:162-178 | The printing loop gives a text that reads back whenever the reference is well formed |
| `ObjectRefCodec.ToIecString` | crates/iec61850-model/src/object_ref.rs:181-196 | The printing loop gives a text that reads back whenever the reference is well formed |
| `ObjectPath.ElementAddress` | crates/iec61850-client/src/object_io.rs:118-163 | Names in front of the one index make the item identifier, names behind it the component |
| `ObjectPath.ScanExactly` | crates/iec61850-client/src/object_io.rs:127-156 | A path is refused exactly when it has more than one index |
| `ObjectPath.NotationsAgree` | crates/iec61850-client/src/object_io.rs:95-163 | The MMS and the IEC spelling of a reference resolve to the same address, or are both refused |
| `ObjectPath.ResolveInjective` | crates/iec61850-client/src/object_io.rs:95-163 | Two texts, in either notation, that resolve to one address under one functional constraint name the same reference |
| `ObjectPath.ParseIecObjectPath` | crates/iec61850-client/src/object_io.rs:95-163 | The segment loop agrees with the specified resolution, errors included |
| `DataSetMember.MemberIsWritten` | crates/iec61850-client/src/dataset_directory.rs:65-138 | The pushed text is the IEC notation of the reference the member names, leading components included |
| `DataSetMember.MemberResolvesBack` | crates/iec61850-client/src/dataset_directory.rs:65-138 | Every member resolves back to its item, extended by its leading components, index and component if and only if its names have no `.` or `(`, its leading components are not empty and have no `$`, its domain is not empty and has no `/` or `$`, and the reference has at most 128 octets |
| `DataSetMember.DollarIsLost` | crates/iec61850-client/src/dataset_directory.rs:65-138 | A member of any item with a leading component that holds a `$` is mapped to a reference that does not resolve back to it |
| `DataSetMember.SplitLeading` | crates/iec61850-mms/src/mms/pdu/common.rs:1283-1301 | The loop splits off the components that lead a selection |
| `DataSetMember.MemberFromEntry` | crates/iec61850-client/src/dataset_directory.rs:65-138 | The loops give the specified member, errors included, which resolves back exactly when it is plain |
| `AddressNormalForm.ReadDecimalMeans` | crates/iec61850-model/src/comm.rs:391-405 | Stripping zeros and the bound of ten digits never change which decimal numbers are read, nor their value |
| `AddressNormalForm.Written` | crates/iec61850-model/src/comm.rs:258-315 | Every value of a type is written in a form that passes the schema check and reads back to the value |
| `AddressNormalForm.NormalForm` | crates/iec61850-model/src/comm.rs:258-315 | Whatever is rewritten passes the schema check, reads to the same value and is rewritten to itself |
| `AddressNormalForm.CheckedIsReadable` | crates/iec61850-model/src/comm.rs:554-616 | Every value that passes the schema check can be read |
| `AddressNormalForm.FixedPoints` | crates/iec61850-model/src/comm.rs:258-315 | The values that are rewritten to themselves are exactly those that pass the schema check and, for a dotted IPv4 address, have no octet with a leading zero |
| `AddressNormalForm.UnreadableExactly` | crates/iec61850-model/src/comm.rs:242-250 | A value is classed unreadable exactly when its accessor finds nothing |
| `AddressNormalForm.ReadMacOctets` | crates/iec61850-model/src/comm.rs:409-421 | The octet loop agrees with the specified reading of a MAC address |
| `AddressNormalForm.ReadIpv4Octets` | crates/iec61850-model/src/comm.rs:425-436 | The octet loop agrees with the specified reading of an IPv4 address |

## Left out

- Offsets and sizes inside truncation errors, which serve messages only.
- The fields inside a UTC time stamp; only which eight octets are one is modelled.
- Logging, the enabled flag and the background loops of publisher and receiver; time is a parameter.
- The clock behind the timestamp source of a publisher; its reading is a parameter of the operation that takes it.
- The builder methods and plain accessors of publisher and subscriber.
- The MMS association, its PDUs and the alternate access encoding below journal, directory and data set services; a server is any function of the request, or any answer at each step.
- The values inside a journal entry, and the conversion of wire entries to client entries.
- Splitting of a journal reference into domain and item; the walk takes its outcome as the server's answer.
- The directory services built on the device model, which only filter its names.
- JournalAhead.AheadExactly: does not say how many of the selected entries are read, because that depends on how many entries the server repeats in each page; for servers that repeat the cursor entry alone JournalExact.ReadAtCursor does.
- Error texts of the reference parsers; all malformed references are one error.
- Address parameter types whose lenient and strict forms differ by design (OSI-AE-Qualifier, OSI-AE-Invoke, OSI-AP-Invoke, OSI-AP-Title, IPv6FlowLabel), IP-ClassOfTraffic, DNSName, the IPv6 types, and extension types.
- The list of parameters of an address and its lookup by type, which would add only easy members.
- The data model tree, its builder and the common data classes.
