# Verified model of the serial transport stack

A Dafny model of the serial transport of `rust-moteconnection` and of the thin layers above it that
an end-to-end statement needs: HDLC framing, the packet checksum and the three packet formats, the
retransmission protocol between the writer thread and the reader thread, the receive-side duplicate
cache, the ActiveMessage codec, the dispatch byte and the selection of a receiver.

Usage: `dafny verify dfyconfig.toml`.

## Layout

| file | content |
|---|---|
| `Basics.dfy` | byte strings, numbers held in a byte, `Option` and `Result` |
| `Hdlc.dfy` | the streaming decoder, the encoder, and the declarative reading of a stream |
| `Crc.dfy` | the checksum loop |
| `Polynomials.dfy` | polynomials over GF(2), long division, uniqueness of the remainder |
| `CrcTheory.dfy` | the checksum loop is long division |
| `CrcDetection.dfy` | linearity, which errors are missed, bursts, parity, residue |
| `CrcDistance.dfy` | the order of x modulo the generator, and so all two-bit errors |
| `Packets.dfy`, `PacketErrors.dfy` | the packet codecs, and which damaged packets are refused |
| `WireFormat.dfy` | the formats on the wire in numbers |
| `Endpoint.dfy` | the writer and the acknowledgement step as a step system |
| `Retransmission.dfy`, `Runs.dfy` | the invariant of the step system, and what holds in every run |
| `Acknowledgements.dfy` | how often each submission is transmitted, and what its acknowledgement changes |
| `Quiescence.dfy` | how the table drains, and when nothing more is written |
| `Writer.dfy` | the writer's objects under interference by the reader, each method shown to be a sequence of steps |
| `DuplicateCache.dfy` | the cache of recently accepted sequence numbers |
| `Receiver.dfy`, `Delivery.dfy` | the reader's object, and delivery over a faulty wire |
| `SingleDelivery.dfy` | one delivery per submission: the cooldown end to end |
| `Am.dfy`, `Registry.dfy` | ActiveMessage messages, and the choice of a receiver |
| `FullStack.dfy` | the dispatch byte, and all layers together |

## How the source is modelled

- Bytes are `bv8` and checksums `bv16`, with the source's masks and shifts. Sequence numbers, AM
  identifiers and dispatch bytes, which the source uses as map keys, are read as numbers below 256.
- The two threads share one table under a lock. A step of the model is one write to the port or one
  critical section, so acknowledgements may fall between the first transmission of a packet and its
  entry into the table, or between a retransmission round and its writes. A theorem about
  `Allowed(INITIAL, actions)` is about every interleaving and every run length.
- A hash table is visited in an arbitrary order. The order of a round is part of its step
  (`Endpoint.IsOrder`), and the writer's loop picks its next key nondeterministically.
- An acknowledgement that the reader queues is sent as ordinary data, so it is one more submission
  with its own packet, sequence number and retries; the submitted data are arbitrary.
- Before each of its steps, every method of the writer's object calls `AckTable.Unlocked`, which takes
  an arbitrary choice of entries out of the table, as the reader may while the lock is free. Each
  method is shown to be its own sequence of steps with those acknowledgements in between, and
  `Delivery.ArrivalsAreAckSteps` shows that the reader does nothing else to the table.
- Time is an integer on a non-decreasing clock and is a parameter of whatever reads the clock.
- `retries` is an `int`; that the source's `u8` decrement never underflows is a theorem
  (`Runs.TableIsUsedSafely`), used where the writer loop calls the round.
- `History` records, next to the state, which submission each frame and each table entry belongs
  to. `Retransmission.Record` only adds to it and never influences a step.

Findings about the code:

- A packet with empty data can be built and printed but no parser accepts it: `AckPacketParseIff` and
  `NoAckPacketParseIff` hold exactly for non-empty data (src/transport/serial/packets.rs:80, 215).
- `Message::try_from` panics when the length byte exceeds 248 and at least 7 bytes are given: the
  `u8` addition overflows, and in a build that wraps, the slice that follows starts after its end
  (src/dispatcher/am/mod.rs:140, 152, 160). `Am.PanicIff` says exactly when.
- The text of the error for short messages asks for 8 bytes; the code accepts 7
  (src/dispatcher/am/mod.rs:131-134). The model follows the code.
- Two wrong bits in the checksummed bytes go unnoticed exactly when their distance is a multiple of
  32767, so no body of up to 4095 bytes can hide them.
- The errors that go unnoticed are exactly the multiples of the generator (`CrcDetection.ErrorMissedIff`).
  No burst of up to 16 bits is one, and of those of 17 bits only the generator itself
  (`CrcDetection.SeventeenBitBurstMissedIff`; `CrcDetection.SeventeenBitBurstMissed` is an instance).
- An acknowledgement that overtakes the entry of its packet into the table is lost, and the packet is
  sent again (`Acknowledgements.EarlyAckIsLost`).

## Model

| member | source | states |
|---|---|---|
| `Hdlc.HdlcCodec.constructor` | src/transport/serial/hdlc.rs:102-109 | a new codec has no open frame and no pending escape |
| `Hdlc.HdlcCodec.Decode` | src/transport/serial/hdlc.rs:29-71 | one call takes the codec from any state through the whole input, byte by byte, and returns the completed frames in order |
| `Hdlc.ChunkIndependence` | src/transport/serial/hdlc.rs:29-71 | for every state and every way of cutting a stream into reads, the frames and the final state are those of one call on the whole stream |
| `Hdlc.SplitIffJoin` | src/transport/serial/hdlc.rs:50-58 | the flag-free segments of a stream are uniquely determined: they are the ones that, joined by single flags, give the stream |
| `Hdlc.UnstuffIffStuffed` | src/transport/serial/hdlc.rs:32-66 | a flag-free segment carries x exactly when it is the stuffed form of x |
| `Hdlc.DecodeRefinesSplit` | src/transport/serial/hdlc.rs:29-71 | a fresh codec delivers exactly the valid non-empty segments with a flag on both sides, in order, and ends in the state of the last segment |
| `Hdlc.DecodeRefinesSplitFromAnyState` | src/transport/serial/hdlc.rs:29-71 | the same from every codec state, read as an unfinished beginning of the stream |
| `Hdlc.EmittedExactly` | src/transport/serial/hdlc.rs:51-58 | the byte at a position completes frame x exactly when it is a flag, x is non-empty, and the stuffed form of x since an earlier flag precedes it |
| `Hdlc.StuffShape` | src/transport/serial/hdlc.rs:84-95 | no flag inside a transmitted body; between one and two bytes per byte, one exactly when nothing needs an escape |
| `Hdlc.EncodeShape` | src/transport/serial/hdlc.rs:84-99 | a frame has its flags at both ends and nowhere else, and between |x|+2 and 2|x|+2 bytes |
| `Hdlc.Resynchronise` | src/transport/serial/hdlc.rs:29-71 | after any bytes at all, an encoded frame completes at most the unfinished buffer and then itself, and leaves the codec clean |
| `Hdlc.FrameListRoundTrip` | src/transport/serial/hdlc.rs:29-99 | decoding the concatenated encodings of any list gives back its non-empty members in order |
| `Hdlc.EncodeInjective` | src/transport/serial/hdlc.rs:84-99 | different byte strings have different frames |
| `Hdlc.SharedFlagRoundTrip` | src/transport/serial/hdlc.rs:50-58 | the same when adjacent frames share one flag |
| `WireFormat.FrameLayout` | src/transport/serial/hdlc.rs:84-99 | a frame in numbers, byte by byte: 7E at both ends, 7D 5E for 7E, 7D 5D for 7D, every other byte as it is |
| `WireFormat.PlainFrame` | src/transport/serial/hdlc.rs:75-82 | the documented example: the frame of 44 00 FF 9D DF is 7E 44 00 FF 9D DF 7E |
| `WireFormat.EscapedFrame` | src/transport/serial/hdlc.rs:84-95 | the frame of 7E 7D is 7E 7D 5E 7D 5D 7E |
| `Crc.CalculateCrc` | src/transport/serial/packets.rs:8-22 | the nested loops compute the checksum function that the theorems below characterise |
| `Crc.CrcConcat` | src/transport/serial/packets.rs:8-22 | the checksum of a concatenation continues from the checksum of its first part |
| `WireFormat.GeneratorPowers` | src/transport/serial/packets.rs:15 | the generator has the powers 16, 12, 5 and 0 |
| `Polynomials.SerialIsRemainder` | src/transport/serial/packets.rs:13-19 | bitwise long division finds the one polynomial of degree below 16 that differs from m(x)*x^16 by a multiple of the generator |
| `CrcTheory.BitStepIsTimesX` | src/transport/serial/packets.rs:13-19 | one turn of the inner loop multiplies the register by x modulo x^16+x^12+x^5+1 |
| `CrcTheory.ByteStepIsSerial` | src/transport/serial/packets.rs:11-20 | one turn of the outer loop feeds the eight bits of its byte to the long division |
| `CrcTheory.CrcIsRemainder` | src/transport/serial/packets.rs:8-22 | for every message, the checksum is the unique remainder of M(x)*x^16 modulo the generator |
| `CrcDetection.ChecksumXor` | src/transport/serial/packets.rs:8-22 | an error pattern changes the checksum of any message by its own checksum |
| `CrcDetection.ErrorMissedIff` | src/transport/serial/packets.rs:8-22 | an error leaves the checksum unchanged if and only if it is a multiple of the generator |
| `CrcDetection.BurstMissedIff` | src/transport/serial/packets.rs:8-22 | whether an error confined to some stretch of bits is missed depends on those bits alone, not on their place: exactly when they are a multiple of the generator |
| `CrcDetection.BurstDetected` | src/transport/serial/packets.rs:8-22 | every non-zero error confined to 16 consecutive bits changes the checksum |
| `CrcDetection.SeventeenBitBurstMissedIff` | src/transport/serial/packets.rs:8-22 | a non-zero error confined to 17 consecutive bits is missed if and only if those bits are the generator |
| `CrcDetection.ChecksumParity` | src/transport/serial/packets.rs:8-22 | the checksum has the bit parity of the message |
| `CrcDetection.OddErrorsDetected` | src/transport/serial/packets.rs:8-22 | an odd number of wrong bits changes the checksum |
| `CrcDetection.Residue` | src/transport/serial/packets.rs:8-22 | a message followed by its checksum, high byte first, has checksum zero |
| `CrcDistance.PeriodIffMultiple` | src/transport/serial/packets.rs:13-19 | x has order exactly 32767 modulo the generator |
| `CrcDistance.TwoBitErrorMissedIff` | src/transport/serial/packets.rs:8-22 | a two-bit error is missed if and only if the bits are a multiple of 32767 apart |
| `CrcDistance.FewBitErrorsDetected` | src/transport/serial/packets.rs:8-22 | in up to 4095 bytes, one, two or three wrong bits always change the checksum |
| `Packets.TryAckPacket` | src/transport/serial/packets.rs:79-114 | cutting the buffer from both ends gives the declared result, error kinds included |
| `Packets.TryAck` | src/transport/serial/packets.rs:145-175 | the same for acknowledgements |
| `Packets.TryNoAckPacket` | src/transport/serial/packets.rs:214-242 | the same for packets without acknowledgement |
| `Packets.AckPacketParseIff` | src/transport/serial/packets.rs:59-128 | the parser accepts a byte string as a packet if and only if the packet is a constructed one with data and the string is its printed form |
| `Packets.AckParseIff` | src/transport/serial/packets.rs:130-194 | the same for acknowledgements, without exception |
| `Packets.NoAckPacketParseIff` | src/transport/serial/packets.rs:196-256 | the same for packets without acknowledgement, with data |
| `Packets.ParsersDisjoint` | src/transport/serial/packets.rs:79-242 | no byte string is accepted by two of the three parsers |
| `WireFormat.AckPacketLayout` | src/transport/serial/packets.rs:59-128 | a packet is 44, the sequence number, the data and the checksum of all that, low byte first |
| `WireFormat.AckLayout` | src/transport/serial/packets.rs:130-194 | an acknowledgement is 43, the sequence number and their checksum, low byte first |
| `WireFormat.NoAckPacketLayout` | src/transport/serial/packets.rs:196-256 | a packet without acknowledgement is 45, the data and their checksum, low byte first |
| `WireFormat.AckPacketRefused` | src/transport/serial/packets.rs:79-114 | each error exactly when it is due: fewer than 5 bytes, another first byte than 44, or else not the printed form of any packet |
| `WireFormat.AckRefused` | src/transport/serial/packets.rs:145-175 | the same for acknowledgements: not 4 bytes, another first byte than 43, or else not a printed form |
| `WireFormat.NoAckPacketRefused` | src/transport/serial/packets.rs:214-242 | the same for packets without acknowledgement: fewer than 4 bytes, another first byte than 45, or else not a printed form |
| `WireFormat.FirstBytes` | src/transport/serial/mod.rs:28-30 | what is accepted starts with 44, 43 or 45, by parser, and the reader knows exactly these first bytes |
| `WireFormat.AckPacketVector` | src/transport/serial/packets.rs:286-293 | the packet with sequence number 0 and data 00 is 44 00 00 6D C1 |
| `WireFormat.AckVectors` | src/transport/serial/packets.rs:316-335 | the acknowledgements of 00 and 54 are 43 00 9F 58 and 43 54 EE 42 |
| `WireFormat.NoAckPacketVector` | src/transport/serial/packets.rs:347-349 | the packet without acknowledgement with data 00 is 45 00 39 F2 |
| `WireFormat.ByteIsNumber` | src/connection.rs:308 | a byte used as a key is read as the number it is |
| `PacketErrors.AcceptedIsEven` | src/transport/serial/packets.rs:79-242 | every accepted packet has an even number of ones, trailer included |
| `PacketErrors.OddDamageRejected` | src/transport/serial/packets.rs:79-242 | an odd number of wrong bits anywhere in an accepted packet makes all three parsers refuse it |
| `PacketErrors.DetectableDamageRejected` | src/transport/serial/packets.rs:79-242 | a burst of up to 16 bits, an odd number of wrong bits or up to three wrong bits in the checksummed bytes make all three parsers refuse the packet |
| `Runs.FourTransmissions` | src/transport/serial/mod.rs:335-398 | at any moment of any run each submission that has entered the table accounts for four transmissions: written, staged, still in the table or forfeited by its acknowledgement; at least one and at most four are written |
| `Runs.RunRecords` | src/transport/serial/mod.rs:335-365 | the record kept beside a run lists exactly the data submitted, in order, counts the rounds, and has every submission but the one in transit entered in the table |
| `Runs.TransmissionsConserved` | src/transport/serial/mod.rs:335-398 | at every moment of every run, under every interleaving: frames written + packets staged + retries in the table + retries forfeited by acknowledgements + 3 owed while the last submission is not yet in the table = 4 for each submission |
| `Acknowledgements.TransmissionsOfSubmission` | src/transport/serial/mod.rs:288-398 | in every run, every submission is transmitted once, and once for each of the first three rounds after its entry into the table and before the next acknowledgement of its sequence number; four times if none comes |
| `Acknowledgements.AckEndsTransmissions` | src/transport/serial/mod.rs:288-305 | an acknowledgement that finds its entry belongs to one submission, and apart from what is already staged no copy of that submission is transmitted ever after |
| `Acknowledgements.EarlyAckIsLost` | src/transport/serial/mod.rs:358-365 | an acknowledgement between the first transmission and the entry into the table changes nothing |
| `Runs.RecentSequenceNumbers` | src/transport/serial/mod.rs:335-407 | at the loop head a pending (s, r) has 1 <= r <= 2 and 1 <= (seq_num - s) mod 256 <= 3 - r, in runs of any length |
| `Runs.AtMostTwoPending` | src/transport/serial/mod.rs:335-407 | at the loop head at most two packets are pending |
| `Runs.TableIsUsedSafely` | src/transport/serial/mod.rs:367-398 | an insertion never hits an existing key, and every counter is between 1 and 3 when it is decremented |
| `Runs.OutputDecodes` | src/transport/serial/mod.rs:358-398 | the whole port output of a run, in any reads, decodes to exactly the packets written, in order, retransmissions being the bytes of the first transmission |
| `Runs.PendingPackets` | src/transport/serial/mod.rs:358-398 | what waits under sequence number s is the AckPacket with sequence number s of a datum submitted under s, and its frame has been written |
| `Quiescence.ThreeRoundsEmptyTheTable` | src/transport/serial/mod.rs:367-388 | three rounds after the last submission the table is empty, wherever the writer was at that moment, under any interleaving |
| `Quiescence.AtRestNothingIsWritten` | src/transport/serial/mod.rs:367-388 | with an empty table, nothing but what the round in progress has staged is written until the next submission |
| `Quiescence.ComesToRest` | src/transport/serial/mod.rs:367-388 | from the third round after the last submission on, the table stays empty and only the rest of that round is written, until something new is submitted |
| `Quiescence.RoundsAndAcksOnlyTakeAway` | src/transport/serial/mod.rs:288-388 | in every run a round takes exactly one retry from every entry, drops those at their last, and so lowers the pending retries by the number of entries; an acknowledgement removes its own entry and nothing else |
| `Writer.ConnectionWorker.constructor` | src/transport/serial/mod.rs:319-333 | a new writer starts at sequence number 0 |
| `Writer.AckTable.Unlocked` | src/transport/serial/mod.rs:288-305 | while the lock is free, the reader may take any entries out of the table, and changes nothing else in it |
| `Writer.ConnectionWorker.HandleData` | src/transport/serial/mod.rs:358-365 | one datum is a submission, an entry into the table and an advance of the sequence number, in this order, with any acknowledgements before and between |
| `Writer.ConnectionWorker.WriteToStream` | src/transport/serial/mod.rs:390-393 | a packet is written as one HDLC frame |
| `Writer.ConnectionWorker.MarkAsWaitingForAck` | src/transport/serial/mod.rs:395-398 | the packet is entered under the current sequence number with three retries |
| `Writer.ConnectionWorker.BumpSeqNum` | src/transport/serial/mod.rs:400-406 | the sequence number wraps from 255 to 0 |
| `Writer.ConnectionWorker.StageRetransmissions` | src/transport/serial/mod.rs:369-384 | the critical section stages every entry once in some order, takes a retry from each and drops the exhausted ones |
| `Writer.ConnectionWorker.HandleUnackedData` | src/transport/serial/mod.rs:367-388 | a round is its critical section followed by the writes of what it staged, with any acknowledgements before and between |
| `Writer.ConnectionWorker.WriteStaged` | src/transport/serial/mod.rs:385-387 | the staged packets are written in their order, with any acknowledgements in between |
| `Writer.ConnectionWorker.Start` | src/transport/serial/mod.rs:335-356 | whatever the reader acknowledges meanwhile, the loop is a run of the endpoint that submits exactly the data received before the first stop, with one round per turn |
| `Writer.InboxIsRead` | src/transport/serial/mod.rs:335-349 | everything up to the first stop is handled, and nothing after it |
| `Writer.DataOfConcat` | src/transport/serial/mod.rs:337-339 | of what is received, every datum counts, in order, and timeouts do not |
| `DuplicateCache.SeqNumCache.Insert` | src/transport/serial/mod.rs:417-433 | a sequence number is accepted, and stamped, when it is new or its stamp is older than the timeout; a rejection changes nothing |
| `DuplicateCache.CacheHoldsLatest` | src/transport/serial/mod.rs:417-433 | after any log of attempts the cache holds exactly the time of the latest acceptance of each sequence number |
| `DuplicateCache.AcceptedIff` | src/transport/serial/mod.rs:417-433 | on a non-decreasing clock an attempt is accepted if and only if all earlier acceptances of its sequence number are more than the timeout old |
| `DuplicateCache.WindowHoldsAtMost256` | src/transport/serial/mod.rs:417-433 | no window of at most the timeout holds more than 256 acceptances |
| `Receiver.SerialWorker.HandleData` | src/transport/serial/mod.rs:244-256 | a packet is dispatched by its first byte, for the three known types |
| `Receiver.SerialWorker.HandleAckPacket` | src/transport/serial/mod.rs:271-286 | a valid packet off cooldown is passed up and its acknowledgement queued; otherwise nothing changes |
| `Receiver.SerialWorker.HandleAck` | src/transport/serial/mod.rs:288-305 | a valid acknowledgement removes its entry from the shared table, if present |
| `Receiver.SerialWorker.HandleNoAckPacket` | src/transport/serial/mod.rs:307-317 | a valid packet without acknowledgement is passed up |
| `Receiver.SerialWorker.Start` | src/transport/serial/mod.rs:233-269 | over any list of reads, all packets of the stream are handled in order |
| `Delivery.ReceiverState` | src/transport/serial/mod.rs:271-286 | after any arrivals of acknowledged packets, damaged ones included, a new reader has passed up one payload and queued one acknowledgement per accepted copy, in order |
| `Delivery.WholeFramesDecode` | src/transport/serial/mod.rs:258-269 | whatever frames of a run get through, in any order and number and in any reads, are decoded to their packets |
| `Delivery.OnlySubmissionsAreDelivered` | src/transport/serial/mod.rs:271-286 | over a wire that delivers frames of the sender's port in any order and number, every payload passed up was submitted, and its acknowledgement carries the sequence number it was submitted under |
| `SingleDelivery.OneDelivery` | src/transport/serial/mod.rs:271-286 | an arrival that the cache admits adds one payload and one acknowledgement; every other arrival under its sequence number within the cooldown, before or after, changes nothing |
| `SingleDelivery.RepetitionIgnoredIff` | src/transport/serial/mod.rs:224-286 | a packet whose sequence number was accepted up to 10000 milliseconds ago changes nothing; in every other case it is stamped, passed up and acknowledged |
| `SingleDelivery.AdmittedIff` | src/transport/serial/mod.rs:271-286 | among any arrivals, a valid packet is admitted if and only if every admitted arrival under its sequence number is more than the cooldown older |
| `SingleDelivery.CopiesDeliveredOnce` | src/transport/serial/mod.rs:271-286 | whoever sends: a copy of a packet that finds every admitted arrival under its number more than the cooldown old is passed up and acknowledged once, its repetitions within the cooldown ignored |
| `SingleDelivery.SubmissionDeliveredOnce` | src/transport/serial/mod.rs:271-286 | over a wire that drops, repeats and reorders the frames of a run: unless copies of another submission under the same number came within the cooldown before, the first copy of a submission to arrive is passed up and acknowledged under its number, and its other copies in the cooldown after are ignored |
| `SingleDelivery.DeliveredNotEmpty` | src/transport/serial/mod.rs:271-317 | no payload passed up is empty, so the dispatch byte that the connection strips is always there |
| `Delivery.AckFrameIsAckStep` | src/transport/serial/mod.rs:288-305 | receiving the raw acknowledgement of s is exactly the acknowledgement step of the endpoint |
| `Delivery.ArrivalsAreAckSteps` | src/transport/serial/mod.rs:244-317 | over any arrivals, the reader does to the shared table exactly what the acknowledgement steps for the valid acknowledgements among them do |
| `Delivery.UnacknowledgedDelivery` | src/transport/serial/mod.rs:307-317 | a packet without acknowledgement is passed up at every arrival, past the cache, and nothing is queued |
| `Delivery.DamagedPacketIgnored` | src/transport/serial/mod.rs:271-317 | a packet with detectable damage changes neither queues nor cache nor table |
| `Am.RoundTripIff` | src/dispatcher/am/mod.rs:114-181 | a message comes back from its bytes if and only if its length byte is its payload length and payload and metadata fit in 248 bytes |
| `Am.ParsedReserializes` | src/dispatcher/am/mod.rs:116-180 | whatever parses is well formed and serialises to the bytes it came from |
| `Am.PanicIff` | src/dispatcher/am/mod.rs:131-152 | parsing panics exactly on 7 to 255 bytes with a length byte above 248 |
| `Am.RefusedIff` | src/dispatcher/am/mod.rs:119-151 | too large exactly above 255 bytes, too small exactly below 7, mismatch exactly when the length byte of up to 248 says more than is there; accepted exactly otherwise |
| `Am.MessageLayout` | src/dispatcher/am/mod.rs:163-180 | destination and source with the high byte first, then length, group and identifier, the payload and the metadata |
| `Registry.ReceiverRegistry.RegisterReceiver` | src/dispatcher/am/dispatcher.rs:176-181 | a receiver is registered for one AM identifier; its handle goes to the registry unless the registry already has it |
| `Registry.ReceiverRegistry.RegisterDefaultReceiver` | src/dispatcher/am/dispatcher.rs:183-188 | the same for the default receiver |
| `Registry.ReceiverRegistry.RegisterSnooper` | src/dispatcher/am/dispatcher.rs:190-195 | the same for a snooper of one AM identifier |
| `Registry.ReceiverRegistry.RegisterDefaultSnooper` | src/dispatcher/am/dispatcher.rs:197-202 | the same for the default snooper |
| `Registry.SelectedByHistory` | src/dispatcher/am/dispatcher.rs:175-220 | after any registrations a message to FFFF or to the own address goes to the last receiver for its identifier, else to the last default receiver, and every other message to the snoopers in the same way; a chosen receiver always has its handle |
| `Registry.LastForIff` | src/dispatcher/am/dispatcher.rs:175-202 | the one in a role is exactly the one whose registration for it no other follows |
| `FullStack.DispatcherWorker.Send` | src/connection.rs:362-370 | any dispatcher message is sent behind its dispatch byte |
| `FullStack.TransportWorker.Send` | src/connection.rs:307-313 | a transport message of any content goes, without its first byte, to the dispatcher that byte names, if any, and to no other |
| `FullStack.RoutedExactly` | src/connection.rs:307-370 | whatever one dispatcher sends reaches, unchanged, the other side's dispatcher with the same byte, and no other |
| `FullStack.DispatchedIff` | src/dispatcher/am/dispatcher.rs:225-261 | a message is dispatched to a receiver if and only if it is well formed, its bytes arrived, its group is accepted and that receiver is the one last registered for it |
| `FullStack.MessageArrives` | src/transport/serial/mod.rs:258-286 | a well-formed message with its dispatch byte, wrapped, framed and read in any pieces by a new reader, arrives unchanged at the receiver selected for it, with one acknowledgement queued |
| `FullStack.OnlySentMessagesArrive` | src/dispatcher/am/dispatcher.rs:252-261 | over such a wire every payload passed up has a dispatch byte, and every message dispatched from one was submitted by the sender, is well formed, and goes to the receiver selected for it |

## Left out

- Threads, channels, mutexes and real time: channels are sequences, a critical section is one step, and the clock is a parameter; within one read each packet has its own time.
- Opening the port, reconnecting, draining and stopping (src/transport/serial/mod.rs:79-183), and failing writes, which the source unwraps.
- The serial-forwarder transport, the raw dispatcher, connection strings, UUID generation, logging, the wording of errors and `Display` of messages.
- Packets of unknown type and unexpected events: the source panics there (src/transport/serial/mod.rs:250-253, 343-346), so they are preconditions.
- That a peer running the same code acknowledges what it receives: acknowledgements are queued as data and wrapped in a packet of their own, and repeated packets are not acknowledged again, so only the effect of a raw acknowledgement frame is stated.
- That nothing is lost when 256 or more packets arrive within the cooldown: a reused sequence number is then dropped as a repetition, as `DuplicateCache.AcceptedIff` says; `SingleDelivery.SubmissionDeliveredOnce` states the rate it needs.
- Damage that touches both the checksummed bytes and the trailer, beyond an odd number of bits: the trailer is stored low byte first, which breaks the order of the polynomial.
- `decompose_dispatch_handles` and the loops of the connection's workers around their `send` methods (src/connection.rs:274-305, 329-360, 373-386), and the notifications of connection and disconnection.
