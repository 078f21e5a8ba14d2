# Verified models of csics

Dafny models of six components of csics that carry protocols, codecs or
in-place data structures, with proofs of what they promise:

- the single-producer/single-consumer byte ring and the message queue on top
  of it (`RingArithmetic`, `SpscRing`, `SpscFifo`, `SpscRuns`, `SpscIndices`,
  `SpscMessages`, `SpscPromise`, `SpscQueues`, `SpscThreads`, `SpscRace`,
  `SpscAlone`, `SpscWitness`);
- the JSON writer that puts a comma after every value and takes the last one
  back (`JsonText`, `JsonWriter`), what a reader for RFC 8259 makes of its text
  (`JsonParser`), and that no text of the same value is shorter
  (`JsonShortest`);
- the DIS wire codec of IEEE 1278.1 for Entity State and Electromagnetic
  Emission PDUs (`Bytes`, `ByteSwaps`, `DisWire`, `DisRecords`,
  `DisEntityState`, `DisEmission`, `DisLayout`, `DisLengths`, `DisSerializer`,
  `DisDeserializer`);
- the streaming Base64 encoder (`Base64Text`, `Base64Encoders`), against
  section 4 of RFC 4648 and a strict decoder;
- the thread pool (`ThreadPool`), as a state machine over the steps of
  workers, submitters and the destructor;
- ECS storage and scheduling (`SparseSets`, `ComponentViews`, `WorldIds`,
  `FreshEntities`, `ViewTraits`, `Layers`) and the growing buffer below it
  (`GrowBuffers`).

`Bits`, `Views`, `Entities` and `Wrappers` hold what several of these share.

Code that changes things in place is a class whose methods are proved against
functions of the old state (`SpscQueue`, `SpscMessageQueue`, `JsonSerializer`,
`Base64Encoder`, `DirectSerializer`, `DirectDeserializer`, `SparseSet`,
`Iterator`, `View`, `World`, `Buffer`); the main results are lemmas about those
functions, over every input, every run or every interleaving.
`dafny verify dfyconfig.toml` checks everything.

## What the proofs found

Each of these is proved, with the condition under which the code does meet the
promise.

- The Full test of the byte ring does not count the pad. A padded write keeps
  every unread payload if and only if pad and record fit in front of the
  reader (`SpscRuns.PaddedWriteExact`); a new queue of 256 bytes gets into the
  bad case after two records of 56 (`SpscWitness.MisfitIsReached`). Messages of
  one size never meet it (`SpscMessages.MessagePadFits`).
- The ring publishes the pad marker before the record behind it. With a
  concurrent consumer, an accepted write keeps every continuation that starts
  no further pad sound if and only if it does not pad itself
  (`SpscRace.PadExact`, reached from a new queue by `SpscWitness.PadIsReached`);
  records of at most a cache line, and records of one stride that divides the
  capacity, never do.
- The comment on the message queue's capacity ("at least capacity messages can
  fit") is kept at every position that pushes and pops reach, for every number
  of messages, if and only if 24 bytes are left beside a message in its
  read_size, or more than 8 and read_size is a power of two of cache lines
  (`SpscPromise.PromiseExact`). A message that is a multiple of the line and
  larger than one gets a line more than it needs (`SpscPromise.ReadSizeLeast`),
  which keeps the promise (`SpscPromise.MultiplesAreSteady`). With lines of 64 bytes, a queue made for two
  messages of 170 bytes takes them at first, and after two rounds only one
  (`SpscPromise.BrokenAt170`). While the indices are 0 it takes them under a
  wider condition (`SpscPromise.NewPromiseExact`).
- The constructor of the ring turns a request of 0 bytes, or of more than 2^63,
  into one cache line.
- A JSON scalar serialised at the root is followed by a comma. The octets of a
  string from 0x80 on are written as if each were a code point, so that UTF-8
  text beyond ASCII comes back as other characters: the two octets of e acute,
  C3 A9, are written `\u00c3\u00a9` (`JsonParser.AccentIsLost`). A root text
  gives back its value if and only if that is an array or an object with
  nothing but ASCII in its strings (`JsonParser.RootTextExact`).
- A DIS dead-reckoning record of a type other than 1 and 2 is written with 14
  bytes of padding and read with 8 (`DisEntityState.EntityStateExact`). An
  empty list of track/jam entries is read back as an absent one
  (`DisEmission.EmissionExact`). Appearance and capabilities are written in the
  byte order of the host, so the round trip is proved for one host at a time.
- The first reuse of an entity id has the generation of its first use, so the
  two handles are equal (`WorldIds.HandlesRepeat`, `WorldIds.FirstReuseRepeats`).
  As `remove_entity` leaves the component sets as they are, that reuse inherits
  a component left behind, and until the counter wraps no other does
  (`FreshEntities.FreshExact`, `FreshEntities.FirstReuseInherits`).
- A thread pool of no workers, which `hardware_concurrency()` may ask for,
  accepts tasks and is destroyed without running them
  (`ThreadPool.WorkersNeeded`).
- `incompatible_views` decides exactly what it is meant to
  (`ViewTraits.IncompatibleExact`), but nothing in the repository uses it yet:
  `StaticWorld` accepts layers whose views conflict.

## Model

| member | source | states |
|---|---|---|
| Bits.NextPowerOfTwo | src/queue/SPSCQueue.cpp:11-22 | for 1 to 2^63 the result is a power of two at least the argument and less than twice it; 0 and larger arguments wrap to 0 |
| Bits.LeastPowerOfTwo | src/queue/SPSCQueue.cpp:11-22 | such a result is the least power of two that is large enough |
| Bits.SmearStep | src/queue/SPSCQueue.cpp:13-19 | one or-shift step doubles the run of leading ones of a word of any magnitude |
| Bits.MaskIsRemainder | src/queue/SPSCQueue.cpp:75 | masking with a power of two less one is the remainder by it |
| RingArithmetic.RoundUpBounds | src/queue/SPSCQueue.cpp:138 | the mask expression of the commits yields a multiple of the cache line, at least the index and less than a line above it |
| RingArithmetic.RoundUpLeast | src/queue/SPSCQueue.cpp:149 | it yields the least such multiple |
| SpscRing.HeaderRoundTrip | include/csics/queue/SPSCQueue.hpp:83-86 | size and pad bit of a record header survive the packing into one word |
| SpscQueues.SpscQueue.constructor | src/queue/SPSCQueue.cpp:24-31 | the capacity is the power of two above the request or a cache line, whichever is larger, and one line for the requests that wrap; the ring is at rest and empty |
| SpscQueues.SpscQueue.AcquireWrite | src/queue/SPSCQueue.cpp:66-104 | error, slot, buffer and write index are those of the ring's acquire; TooBig exactly for a request above the capacity, Full exactly when the unread bytes, header and request reach it, and neither changes anything |
| SpscRing.WriteRefused | src/queue/SPSCQueue.cpp:67-86 | which requests are TooBig and which are Full, from capacity and indices alone; a refused one leaves the ring as it was |
| SpscRing.WriteGranted | src/queue/SPSCQueue.cpp:75-104 | any other request gets the bytes behind its header, at the write index or at the start of the buffer, and the write index moves only over a pad |
| SpscRing.ReadRefused | src/queue/SPSCQueue.cpp:106-112 | a read is Empty exactly when the writer is not ahead, and then changes nothing |
| SpscQueues.SpscQueue.AcquireRead | src/queue/SPSCQueue.cpp:106-129 | error, slot and read index are those of the ring's acquire, pad skip included; Empty exactly when the writer is not ahead |
| SpscQueues.SpscQueue.CommitWrite | src/queue/SPSCQueue.cpp:131-141 | the write index moves to the first multiple of a line at or behind the end of the record; a null or empty slot changes nothing |
| SpscQueues.SpscQueue.CommitRead | src/queue/SPSCQueue.cpp:143-151 | the same for the read index |
| SpscQueues.SpscQueue.IsEmpty | include/csics/queue/SPSCQueue.hpp:74-77 | empty exactly when the indices are equal |
| SpscFifo.PushPlain | src/queue/SPSCQueue.cpp:97-103 | an accepted write that does not pad appends its payload and leaves every unread record as it was |
| SpscFifo.PushPadded | src/queue/SPSCQueue.cpp:88-103 | so does one that pads, when pad and record fit in front of the reader |
| SpscFifo.PushAppends | src/queue/SPSCQueue.cpp:66-141 | acquire, copy and commit of any payload with room and fitting pad append it to the records held |
| SpscFifo.PopHead | src/queue/SPSCQueue.cpp:106-151 | acquire, read and commit take the oldest record byte for byte, pad skip and rounding included, and leave the others in order; on an empty ring nothing changes |
| SpscRuns.RunFifo | src/queue/SPSCQueue.cpp:66-151 | over every run of pushes and pops whose padded writes fit: what was unread, then accepted, is what was delivered, then unread |
| SpscIndices.ReaderFollowsWriter | src/queue/SPSCQueue.cpp:75-151 | over every run from an empty ring whose padded writes fit, the read indices after the records delivered, pad skips and rounding included, are one by one the write indices after the records accepted |
| SpscIndices.PushEnds | src/queue/SPSCQueue.cpp:131-141 | an accepted push adds the write index it leaves to the ends of the records that the buffer determines |
| SpscIndices.PopEnds | src/queue/SPSCQueue.cpp:143-151 | a pop leaves the read index at the first of those ends and the rest as they were |
| SpscRuns.PaddedWriteExact | src/queue/SPSCQueue.cpp:80-95 | a padded write keeps all unread payloads, whatever its own bytes, if and only if the pad fits |
| SpscRuns.MisfitLoses | src/queue/SPSCQueue.cpp:84-91 | for every padded write that does not fit there is a payload after which the ring no longer drains to what was pushed |
| SpscRuns.PairsNeverFail | src/queue/SPSCQueue.cpp:66-151 | in every run of write-then-read pairs of at most half the capacity each acquire succeeds and each payload comes back |
| SpscWitness.MisfitIsReached | src/queue/SPSCQueue.cpp:80-95 | from the state of a new queue of 256 bytes a run without any pad reaches an empty queue that accepts 150 bytes whose pad does not fit, and loses some of them |
| SpscThreads.StepKeepsInv | src/queue/SPSCQueue.cpp:66-151 | every atomic step of producer or consumer that does not start a pad, with any load between the last and the current index, keeps the concurrent invariant |
| SpscThreads.RunsWithoutPadsAreSafe | src/queue/SPSCQueue.cpp:66-151 | under every interleaving without pads what is delivered is a prefix of what was committed, and a record being read is a committed one |
| SpscThreads.LineRecordsAreSafe | src/queue/SPSCQueue.cpp:80-82 | records of at most a cache line with their header never pad, so they are safe under every interleaving |
| SpscThreads.FixedStrideIsSafe | src/queue/SPSCQueue.cpp:80-82 | so are records that all take one number of lines that divides the capacity |
| SpscAlone.ProducerAlone | src/queue/SPSCQueue.cpp:66-141 | in the machine of atomic steps the producer alone does what acquire, copy and commit do, refusals and pads included |
| SpscAlone.ConsumerAlone | src/queue/SPSCQueue.cpp:106-151 | so does the consumer, pad skips included |
| SpscAlone.RunAlone | src/queue/SPSCQueue.cpp:66-151 | every run of the queue's calls is a run of the machine, with the same ring, commits and deliveries |
| SpscRace.PadRaces | src/queue/SPSCQueue.cpp:88-95 | from every reachable state a write that starts a pad has a continuation in which the consumer holds a record that was never committed |
| SpscRace.PadExact | src/queue/SPSCQueue.cpp:88-100 | an accepted write keeps every continuation that starts no further pad sound if and only if it does not pad itself |
| SpscWitness.PadIsReached | src/queue/SPSCQueue.cpp:80-95 | a schedule without pads leads from a new queue of 256 bytes to an acquire that starts a pad, the case of PadRaces |
| SpscMessages.MessagePadFits | include/csics/queue/SPSCMessageQueue.hpp:56-65 | in a queue of messages of one size an accepted message that needs a pad always fits with it |
| SpscMessages.PushMessage | include/csics/queue/SPSCMessageQueue.hpp:56-65 | try_push appends exactly when there is room and otherwise changes nothing |
| SpscMessages.PopMessage | include/csics/queue/SPSCMessageQueue.hpp:41-53 | try_pop takes the oldest message, or reports Empty and changes nothing |
| SpscMessages.MessageRunFifo | include/csics/queue/SPSCMessageQueue.hpp:41-65 | every run of a message queue is first in, first out, with no condition on its state |
| SpscPromise.ReadSizeLeast | include/csics/queue/SPSCMessageQueue.hpp:9-12 | read_size is one line for a message of at most a line, otherwise the least multiple of the line above it |
| SpscPromise.MultiplesAreSteady | include/csics/queue/SPSCMessageQueue.hpp:9-13 | messages of several whole lines of 32 bytes or more are steady |
| SpscPromise.PromiseKept | include/csics/queue/SPSCMessageQueue.hpp:9-13 | a queue of messages of any steady size, once empty after any run of pushes and pops, takes the number of messages it was asked for |
| SpscPromise.PromiseExact | include/csics/queue/SPSCMessageQueue.hpp:9-13 | for a message size, the queue does so for every request and after every run that leaves it empty if and only if the size is steady: 24 bytes left beside the message up to its last line's end, or more than 8 and a power of two of lines, as computed from n / line and n % line alone |
| SpscPromise.NewPromiseExact | include/csics/queue/SPSCMessageQueue.hpp:9-13 | with both indices still 0 it does so for every request if and only if at least 8 bytes are left, more than 8 when read_size is a power of two of lines |
| SpscPromise.BrokenAt170 | include/csics/queue/SPSCMessageQueue.hpp:9-13 | a queue of 64-byte lines made for two messages of 170 bytes: a run after which it is empty, at index 384, and no longer takes two |
| SpscMessages.LineMessagesExact | include/csics/queue/SPSCMessageQueue.hpp:56-65 | at any position of the indices, exactly as many such messages are accepted as there are free lines, less one when they fill their line |
| SpscQueues.SpscMessageQueue.constructor | include/csics/queue/SPSCMessageQueue.hpp:13-18 | the new queue is empty, and its ring is the one PromiseKept and PromiseExact speak of whenever count times read_size is positive and at most 2^63 |
| SpscQueues.SpscMessageQueue.TryPush | include/csics/queue/SPSCMessageQueue.hpp:56-65 | appends to the unread messages, or fails without effect: TooBig exactly for a message above the capacity, Full exactly when unread bytes, header and message reach it |
| SpscQueues.SpscMessageQueue.TryPop | include/csics/queue/SPSCMessageQueue.hpp:41-53 | returns and removes the oldest unread message, or reports Empty |
| SpscQueues.SpscMessageQueue.IsEmpty | include/csics/queue/SPSCMessageQueue.hpp:79 | empty exactly when no message is unread |
| JsonWriter.EmittedIsJoined | include/csics/serialization/Serializer.hpp:50-57 | a comma after every item, less the last comma, is commas between items |
| JsonWriter.EmittedMembersIsJoined | include/csics/serialization/Serializer.hpp:67-75 | the same for the members of an object |
| JsonWriter.Closed | src/serialization/JSONSerializer.cpp:85-97 | a closing bracket over the trailing comma, or after the opening bracket, completes the joined text |
| JsonWriter.JsonSerializer.EscapeChar | src/serialization/JSONSerializer.cpp:17-56 | writes the escape of an octet that section 7 of RFC 8259 allows, the sign of plain char included |
| JsonWriter.JsonSerializer.Key | src/serialization/JSONSerializer.cpp:62-78 | writes the quoted key and a colon, after a comma behind a closing bracket |
| JsonWriter.JsonSerializer.BeginObj | src/serialization/JSONSerializer.cpp:79-84 | writes the brace and pushes the state |
| JsonWriter.JsonSerializer.EndObj | src/serialization/JSONSerializer.cpp:85-97 | retracts a trailing comma, writes the brace and, inside a container, a comma; pops the state |
| JsonWriter.JsonSerializer.BeginArray | src/serialization/JSONSerializer.cpp:144-149 | writes the bracket and pushes the state |
| JsonWriter.JsonSerializer.EndArray | src/serialization/JSONSerializer.cpp:150-162 | the same as EndObj for arrays |
| JsonWriter.JsonSerializer.WriteWord | src/serialization/JSONSerializer.cpp:114-126 | writes word and comma, or nothing and BufferFull exactly when they do not fit |
| JsonWriter.JsonSerializer.WriteInt | src/serialization/JSONSerializer.cpp:164-177 | writes the decimal of an int64 and a comma, or reports BufferFull exactly when they do not fit and advances nothing |
| JsonWriter.JsonSerializer.WriteString | src/serialization/JSONSerializer.cpp:128-143 | writes the quoted, escaped string and a comma; BufferFull exactly when the view is shorter than two |
| JsonWriter.JsonSerializer.Apply | include/csics/serialization/Serializer.hpp:25-87 | for every value and any view that holds its canonical text, writes exactly that text, touches nothing else, and leaves the state stack as it was |
| JsonParser.EscapeRoundTrip | src/serialization/JSONSerializer.cpp:17-56 | the RFC 8259 reader finds the UTF-8 form of the code point numbered as the octet: the octet itself below 0x80, two octets from there on |
| JsonParser.NumberRoundTrip | src/serialization/JSONSerializer.cpp:164-177 | the reader undoes the decimal form of every int64 |
| JsonParser.ValueRoundTrip | src/serialization/JSONSerializer.cpp:62-188 | in the canonical text of every value the reader finds the value with each octet of its strings taken for a code point, and stops behind it |
| JsonParser.ReadBackExact | src/serialization/JSONSerializer.cpp:17-56 | that is the value itself if and only if its strings and keys are ASCII |
| JsonParser.WrittenRead | src/serialization/JSONSerializer.cpp:62-188 | what is left for a value, nested or at the root, is its text and then a comma unless it is a container at the root |
| JsonParser.RootTextExact | include/csics/serialization/Serializer.hpp:25-87 | what is left for a root value parses to that value if and only if it is an array or an object and all its strings are ASCII |
| JsonParser.AccentIsLost | src/serialization/JSONSerializer.cpp:17-56 | an array with the UTF-8 text C3 A9 is read back as one with C3 83 C2 A9 |
| JsonShortest.StringShortest | src/serialization/JSONSerializer.cpp:17-56 | no token that is read as an ASCII string is shorter than the one written for it |
| JsonShortest.ValueShortest | src/serialization/JSONSerializer.cpp:62-188 | no text that is read as a value with ASCII strings is shorter than its canonical text |
| JsonShortest.WrittenIsShortest | include/csics/serialization/Serializer.hpp:25-87 | what is left for an array or object with ASCII strings is a shortest JSON text of it |
| JsonParser.WrittenIsInjective | include/csics/serialization/Serializer.hpp:25-87 | two different values never have the same text |
| Bytes.BigEndianOnEveryHost | include/csics/Bit.hpp:116-127 | a value stored through be<T> has the network-order bytes on a host of either order |
| Bytes.BigEndianReadOnEveryHost | include/csics/Bit.hpp:102-111 | a value loaded through be<T> is the network-order value on a host of either order |
| Bytes.BigEndianAt | include/csics/Bit.hpp:116-127 | the octet k of a word of n in network order is its value divided by 256 to the n - 1 - k, modulo 256 |
| ByteSwaps.FallbackSwaps | include/csics/Bit.hpp:9-36 | the shifts and masks of bswap_fallback reverse the bytes of every word of 1, 2, 4 and 8 bytes |
| DisRecords.HeaderBack | include/csics/lvc/dis/serde.hpp:62-100 | a PDU header is read as it was written from any bytes that start with it; its length field holds the size modulo 2^16 |
| DisRecords.IdBack | include/csics/lvc/dis/serde.hpp:102-127 | the same for entity and event identifiers |
| DisRecords.EntityTypeBack | include/csics/lvc/dis/serde.hpp:129-164 | the same for entity types |
| DisRecords.VectorBack | include/csics/lvc/dis/serde.hpp:166-189 | the same for vectors and for the three Euler angles |
| DisRecords.WorldBack | include/csics/lvc/dis/serde.hpp:191-214 | the same for world coordinates |
| DisRecords.QuatBack | include/csics/lvc/dis/serde.hpp:241-266 | the same for quaternions |
| DisRecords.UnionBack | include/csics/lvc/dis/serde.hpp:272-326 | each union is read as written; for an unknown type the reader stops 6 bytes short |
| DisRecords.DeadReckoningBack | include/csics/lvc/dis/serde.hpp:268-341 | dead reckoning of type 1 or 2 is read as it was written |
| DisRecords.EeFundamentalBack | include/csics/lvc/dis/serde.hpp:464-495 | the same for fundamental parameter data |
| DisRecords.BeamDataBack | include/csics/lvc/dis/serde.hpp:497-528 | the same for beam data |
| DisRecords.JammingBack | include/csics/lvc/dis/serde.hpp:610-635 | the same for jamming techniques |
| DisRecords.TrackJamBack | include/csics/lvc/dis/serde.hpp:637-661 | the same for track/jam entries |
| DisEntityState.PutEntityState | include/csics/lvc/dis/serde.hpp:343-377 | the bytes written are as many as pdu_size_calc says |
| DisEntityState.ReadEntityState | include/csics/lvc/dis/serde.hpp:379-462 | returns at most 255 variable parameters and stops short of the size of what it returns when the dead-reckoning type is unknown |
| DisEntityState.EntityStateExact | include/csics/lvc/dis/serde.hpp:343-462 | from any bytes that start with a written PDU the same PDU is read and the cursor stops behind it, if and only if its type is 1 or 2 and it has at most 255 variable parameters |
| DisEntityState.EntityStateLength | include/csics/lvc/dis/serde.hpp:71 | the length field is the number of bytes written if and only if there are at most 4086 variable parameters |
| DisEmission.PutBeam | include/csics/lvc/dis/serde.hpp:663-690 | the bytes written are the bits of the record |
| DisEmission.PutEmission | include/csics/lvc/dis/serde.hpp:807-824 | the bytes written are as many as pdu_size_calc says |
| DisEmission.JamCountRange | include/csics/lvc/dis/serde.hpp:716-718 | a record length stands for at most 121 entries or, below 12, for a number near 2^64 |
| DisEmission.JamCountBack | include/csics/lvc/dis/serde.hpp:669-718 | the reader computes the number of entries written, when it is at most 121 |
| DisEmission.ReadBeam | include/csics/lvc/dis/serde.hpp:692-744 | from any bytes that a size_t can count, returns only beams with absent entries or 1 to 121 of them |
| DisEmission.BeamBack | include/csics/lvc/dis/serde.hpp:663-744 | a beam is read as it was written, an empty list as absent |
| DisEmission.SystemBack | include/csics/lvc/dis/serde.hpp:746-805 | an emitter system is read as it was written, with its beams |
| DisEmission.EmissionBack | include/csics/lvc/dis/serde.hpp:807-858 | from any bytes that start with a written PDU that fits its counts, that PDU is read, with empty lists absent, and the cursor stops behind it |
| DisEmission.EmissionExact | include/csics/lvc/dis/serde.hpp:807-858 | the very same PDU is read if and only if it has at most 255 systems, each at most 255 beams, each absent entries or 1 to 121 of them |
| DisLayout.HeaderPut | include/csics/lvc/dis/serde.hpp:62-76 | each octet of a written PDU header at its offset, octet 11 zero |
| DisLayout.UnionPut | include/csics/lvc/dis/serde.hpp:268-300 | each octet of a written union at its offset, with zeros at 1 and 2 before angles and at 1 to 14 for an unknown type |
| DisLayout.EntityStatePut | include/csics/lvc/dis/serde.hpp:343-377 | every octet of a written Entity State PDU, each field and each padding octet at its offset |
| DisLayout.SystemPut | include/csics/lvc/dis/serde.hpp:746-774 | every octet of a written emitter system and its beams, octets 2 and 3 zero |
| DisLayout.EmissionPut | include/csics/lvc/dis/serde.hpp:807-824 | every octet of a written emission, its systems one behind the other, octets 11, 26 and 27 zero |
| DisLengths.BeamLength | include/csics/lvc/dis/serde.hpp:667-670 | the length byte of a beam is its length in 32-bit words if and only if it has at most 121 entries |
| DisLengths.SystemLength | include/csics/lvc/dis/serde.hpp:751-760 | that of a system if and only if it has at most 255 words |
| DisLengths.EmissionLength | include/csics/lvc/dis/serde.hpp:811 | that of the PDU is its length in bytes if and only if it is below 2^16 |
| DisLengths.EmissionHop | include/csics/lvc/dis/serde.hpp:818-820 | hopping from the first system by the length bytes alone, as often as there are systems, ends at the end of the PDU |
| DisLengths.BeamsHop | include/csics/lvc/dis/serde.hpp:768-770 | the same for the beams of a system |
| DisSerializer.DirectSerializer.Write | include/csics/serialization/DirectSerializer.hpp:15-27 | copies behind what has been written and changes nothing else, or reports BufferFull and changes nothing |
| DisSerializer.DirectSerializer.WriteWord | include/csics/serialization/DirectSerializer.hpp:29-32 | a word through be<T> appends its network-order bytes on every host |
| DisSerializer.DirectSerializer.SerializeEntityState | include/csics/lvc/dis/serde.hpp:343-377 | appends the layout that the lemmas speak of, every octet at its offset as in DisLayout, and touches nothing behind it |
| DisSerializer.DirectSerializer.SerializeBeam | include/csics/lvc/dis/serde.hpp:663-690 | the same for a beam and its entries |
| DisSerializer.DirectSerializer.SerializeSystem | include/csics/lvc/dis/serde.hpp:746-774 | the same for an emitter system and its beams |
| DisSerializer.DirectSerializer.PduSizeCalc | include/csics/lvc/dis/serde.hpp:27-43 | the loops add up to the sum of the record sizes |
| DisSerializer.DirectSerializer.SerializeEmission | include/csics/lvc/dis/serde.hpp:807-824 | the same for an emission and its systems, padding octets zero |
| DisDeserializer.DirectDeserializer.Read | include/csics/serialization/DirectSerializer.hpp:49-74 | returns the bytes under the cursor and moves it, or nothing and leaves it |
| DisDeserializer.DirectDeserializer.Skip | include/csics/serialization/DirectSerializer.hpp:76-82 | moves the cursor when there are enough bytes |
| DisDeserializer.DirectDeserializer.DeserializeEntityState | include/csics/lvc/dis/serde.hpp:379-462 | returns what ReadEntityState says and stops where it says; the count is never used when it is missing |
| DisDeserializer.DirectDeserializer.DeserializeBeam | include/csics/lvc/dis/serde.hpp:692-744 | returns what ReadBeam says and stops where it says |
| DisDeserializer.DirectDeserializer.DeserializeSystem | include/csics/lvc/dis/serde.hpp:776-805 | the same for an emitter system |
| DisDeserializer.DirectDeserializer.DeserializeEmission | include/csics/lvc/dis/serde.hpp:826-858 | the same for an emission |
| Base64Text.EncodeLength | src/io/encdec/Base64Encoder.cpp:157-194 | the encoding of n octets has 4 characters for every 3 octets begun |
| Base64Text.EncodeAppend | src/io/encdec/Base64Encoder.cpp:33-50 | whole groups are encoded independently of what follows |
| Base64Text.DecodeExact | src/io/encdec/Base64Encoder.cpp:157-194 | a strict decoder accepts a text as an octet string if and only if it is its encoding |
| Base64Encoders.TableIsAlphabet | src/io/encdec/Base64Encoder.cpp:5-10 | the table is Table 1 of RFC 4648 |
| Base64Encoders.SecondDigit | src/io/encdec/Base64Encoder.cpp:19 | the shifted and masked halves of two octets are the second digit of their group |
| Base64Encoders.ThirdDigit | src/io/encdec/Base64Encoder.cpp:20 | the same for the third digit |
| Base64Encoders.Base64Encoder.GetFourChars | src/io/encdec/Base64Encoder.cpp:17-26 | writes the encoding of three octets and nothing else |
| Base64Encoders.Base64Encoder.NoHoldover | src/io/encdec/Base64Encoder.cpp:28-64 | encodes the whole groups and holds the rest over, or stops at a full view with the groups that fit and the octets held over unchanged |
| Base64Encoders.Base64Encoder.OneHoldover | src/io/encdec/Base64Encoder.cpp:66-99 | the same with one octet held over |
| Base64Encoders.Base64Encoder.TwoHoldover | src/io/encdec/Base64Encoder.cpp:101-131 | the same with two; NeedsInput on an empty chunk |
| Base64Encoders.Base64Encoder.Encode | src/io/encdec/Base64Encoder.cpp:133-155 | Ok exactly when the view holds 4 characters for every whole group of the octets held over and the chunk, with the text, counts and octets held over in either case |
| Base64Encoders.Base64Encoder.Finish | src/io/encdec/Base64Encoder.cpp:157-194 | Ok exactly when the view holds the padded text too; when only the last group does not fit, its octets stay held over |
| Base64Encoders.TestVectors | src/io/encdec/Base64Encoder.cpp:133-194 | the last test vectors of section 10 of RFC 4648 |
| Base64Encoders.StreamedIsEncode | src/io/encdec/Base64Encoder.cpp:133-194 | for every way of splitting an input into chunks the concatenated output is the encoding of the whole |
| Base64Encoders.StreamedExact | src/io/encdec/Base64Encoder.cpp:133-194 | a strict decoder returns the input, and two runs write the same text if and only if they were given the same octets |
| Base64Encoders.OkRunWrites | src/io/encdec/Base64Encoder.cpp:133-194 | successive calls on one view, all Ok, leave the encoding of the whole input behind and nothing else |
| Base64Encoders.RoomForAll | src/io/encdec/Base64Encoder.cpp:34-40 | all calls of a run are Ok if and only if the view holds the encoding of the whole |
| ThreadPool.StepKeepsInv | include/csics/executor/Executors.hpp:80-126 | every step of workers, submitters and destructor keeps mutex ownership, task accounting, wakeups and shutdown order |
| ThreadPool.AcceptedExact | include/csics/executor/Executors.hpp:117-126 | in every run the tasks accepted are those of the submits that reach the queue before the pool is stopped, all of them and no other |
| ThreadPool.TasksRunAtMostOnceInOrder | include/csics/executor/Executors.hpp:80-126 | in every run the tasks so submitted are taken in that order or still queued, and none runs twice |
| ThreadPool.NoLostWakeup | include/csics/executor/Executors.hpp:83-104 | in every run a worker sleeps only while each queued task has a notification or a waking worker to come, and none sleeps after notify_all |
| ThreadPool.DestroyedMeansDone | include/csics/executor/Executors.hpp:98-105 | when the joins have completed, every task submitted before the stop has run exactly once |
| ThreadPool.WorkersNeeded | include/csics/executor/Executors.hpp:75-79 | that holds of every run if and only if there is at least one worker |
| ThreadPool.NoDeadlock | include/csics/executor/Executors.hpp:80-105 | the pool can take a step by itself until it is idle or destroyed, and is never idle with a task queued |
| ThreadPool.ShutdownEnds | include/csics/executor/Executors.hpp:98-105 | after notify_all the number of steps is bounded |
| ThreadPool.ShutdownCompletes | include/csics/executor/Executors.hpp:98-105 | left to itself after notify_all the pool is destroyed with every accepted task finished |
| SparseSets.RunIsHistory | include/csics/sim/ecs/SparseSet.hpp:33-109 | after any run an id is present exactly when inserted since last removed, under the generation of the first such insert and with the component of the last |
| SparseSets.InsertNew | include/csics/sim/ecs/SparseSet.hpp:38-41 | a first insert keeps sparse and entities inverse to each other and adds the id to the map |
| SparseSets.InsertAgain | include/csics/sim/ecs/SparseSet.hpp:42-44 | a second insert replaces the component and keeps the generation |
| SparseSets.SwapRemove | include/csics/sim/ecs/SparseSet.hpp:94-108 | moving the last component into the gap keeps the inverse and removes exactly the id |
| SparseSets.RoomForOne | include/csics/sim/ecs/SparseSet.hpp:39 | there are never more components than ids, so no index is the mark of an absent id |
| SparseSets.SparseSet.Insert | include/csics/sim/ecs/SparseSet.hpp:33-45 | changes the map as specified and lists a new entity last |
| SparseSets.SparseSet.At | include/csics/sim/ecs/SparseSet.hpp:47-75 | returns the component exactly when the id is present under the generation asked for |
| SparseSets.SparseSet.Contains | include/csics/sim/ecs/SparseSet.hpp:77-83 | whether the id is present, whatever the generation |
| SparseSets.SparseSet.Remove | include/csics/sim/ecs/SparseSet.hpp:88-109 | removes the id from the map, whatever the generation; ids out of range and absent ids change nothing |
| ComponentViews.VisitedIs | include/csics/sim/ecs/View.hpp:40-56 | a loop visits the entities of the driving set that are in all sets, and no other |
| ComponentViews.VisitedInOrder | include/csics/sim/ecs/View.hpp:40-56 | in the order of the driving set |
| ComponentViews.VisitsIntersection | include/csics/sim/ecs/View.hpp:40-56 | whichever set drives it, a loop visits exactly the ids in all sets, each once |
| ComponentViews.DereferenceExact | include/csics/sim/ecs/View.hpp:64-69 | every position can be dereferenced if and only if the sets agree on the generation of the ids they share |
| ComponentViews.SetLists | include/csics/sim/ecs/SparseSet.hpp:111-112 | entities() lists the ids of the map, each once, under their generations |
| ComponentViews.Iterator.constructor | include/csics/sim/ecs/View.hpp:40-49 | the iterator starts at the first match from its start on |
| ComponentViews.Iterator.Advance | include/csics/sim/ecs/View.hpp:51-56 | ++ moves to the next match |
| ComponentViews.Iterator.Dereference | include/csics/sim/ecs/View.hpp:64-69 | returns what at answers in every set under the entity of the driving one |
| ComponentViews.View.FindSmallest | include/csics/sim/ecs/View.hpp:112-123 | finds the first of the smallest sets |
| ComponentViews.View.Begin | include/csics/sim/ecs/View.hpp:88-91 | an iterator over the smallest set at its first match |
| ComponentViews.View.End | include/csics/sim/ecs/View.hpp:93-96 | an iterator at the end of the same set |
| ComponentViews.View.Collect | include/csics/sim/ecs/View.hpp:40-96 | a loop from begin to end visits exactly the ids in all sets, each once, in the order of the smallest set, and finds at each what at answers in every set |
| WorldIds.AddKeepsPartition | include/csics/sim/ecs/World.hpp:37-49 | the id issued belongs to no live entity, and live and dead ids still partition those with a counter |
| WorldIds.RemoveKeepsPartition | include/csics/sim/ecs/World.hpp:108-115 | removing an entity keeps the partition |
| WorldIds.Run | include/csics/sim/ecs/World.hpp:37-115 | after every run of adds and of removals of live entities the partition holds |
| WorldIds.LiveDistinct | include/csics/sim/ecs/World.hpp:37-49 | no two live entities share an id |
| WorldIds.NewestReused | include/csics/sim/ecs/World.hpp:38-49 | in every run an add reuses the id removed last among those not issued since, and issues a new one when there is none |
| WorldIds.HandleGenerations | include/csics/sim/ecs/World.hpp:40-45 | in every run the generations issued for an id are 0, 0, 1, 2, ... modulo 2^32 |
| WorldIds.HandlesRepeat | include/csics/sim/ecs/World.hpp:40-45 | two handles to an id are equal if and only if they are its first two, or a multiple of 2^32 reuses apart |
| WorldIds.ReusesGrow | include/csics/sim/ecs/World.hpp:41 | of the handles that a run issues for one id, those after its first turn have growing generations until the counter wraps |
| WorldIds.FirstReuseRepeats | include/csics/sim/ecs/World.hpp:41 | the case of HandlesRepeat in one run: adding an entity, removing it and adding one returns the same handle twice |
| FreshEntities.FreshFinds | include/csics/sim/ecs/World.hpp:37-115 | in every run of adds, removals and changes of components, a fresh entity finds a component exactly when its first owner since the last removal of the component had an earlier turn of the same generation |
| FreshEntities.FreshExact | include/csics/sim/ecs/World.hpp:37-115 | until the counter of its id wraps it finds one exactly on the first reuse, when a component was left behind, and then the last one inserted |
| FreshEntities.FirstReuseInherits | include/csics/sim/ecs/World.hpp:37-115 | after adding an entity with a component and removing it, the next entity has that component |
| WorldIds.World.AddEntity | include/csics/sim/ecs/World.hpp:37-49 | issues the handle and reaches the state of the model's add |
| WorldIds.World.RemoveEntity | include/csics/sim/ecs/World.hpp:108-115 | removes the entity with this id, whatever the generation |
| WorldIds.World.HasEntity | include/csics/sim/ecs/World.hpp:121-126 | whether some live entity has this id |
| ViewTraits.FilterCounts | include/csics/sim/ecs/Traits.hpp:64-103 | filtering and stripping const keep each component as often as it was accessed in that way |
| ViewTraits.IncompatibleExact | include/csics/sim/ecs/Traits.hpp:160-170 | true if and only if some component is mutable in two places, or mutable in one and const in another |
| Layers.Commute | include/csics/sim/ecs/World.hpp:140-160 | two systems confined to compatible views leave the same data in either order |
| Layers.CompatibleViewsSuffice | include/csics/sim/ecs/World.hpp:140-161 | when incompatible_views is false, systems confined to their views leave the same data in every order of a layer: each component as the one system that may change it makes it of the data before the layer, all others as they were |
| Layers.RunsEach | include/csics/sim/ecs/World.hpp:140-161 | the same of any layer of confined, compatible systems: each listed system takes effect once |
| GrowBuffers.BitCeilLeast | include/csics/Buffer.hpp:868-869 | the PowerOfTwo capacity is the least power of two that is large enough |
| GrowBuffers.AdjustCapacity | include/csics/Buffer.hpp:865-884 | under every policy the capacity is at least the request |
| GrowBuffers.AdjustCapacityLeast | include/csics/Buffer.hpp:865-884 | it is the least the policy allows: the request, half as much again, a power of two, a multiple of the line |
| GrowBuffers.PushPaid | include/csics/Buffer.hpp:655-661 | a push keeps moves and capacity in proportion to the pushes |
| GrowBuffers.RunBounds | include/csics/Buffer.hpp:655-688 | in every run of pushes, pops and erases from an unused buffer the size stays within the capacity, and at most 3 elements are moved for each push under FiftyPercent, 2 under PowerOfTwo |
| GrowBuffers.ExactIsQuadratic | include/csics/Buffer.hpp:866-867 | under Exact, n pushes move n(n-1)/2 elements |
| GrowBuffers.Buffer.Reallocate | include/csics/Buffer.hpp:836-863 | the elements survive in storage of the adjusted capacity |
| GrowBuffers.Buffer.PushBack | include/csics/Buffer.hpp:655-661 | appends one element, within the bounds on moves |
| GrowBuffers.Buffer.PopBack | include/csics/Buffer.hpp:680-688 | removes and returns the last element |
| GrowBuffers.Buffer.Erase | include/csics/Buffer.hpp:487-508 | removes exactly the elements of the range, in place |

## Left out

- Sockets, MQTT, the UHD radio, zlib, zstd and GeographicLib: foreign calls.
- Geometry, DSP, EM and linear algebra: floating point and trigonometry, or easy algebra.
- TransmitterPDU: its serialiser calls an overload that does not exist and pads the wrong view.
- EulerAngles: laid out like Vector and modelled by the same record.
- Floating-point fields of DIS records are their bit patterns; computing quaternions from angles is not modelled.
- DisSerializer.DirectSerializer.SerializeEntityState: asks for enough room, as the other record writers do; on a shorter view the code ignores the statuses of its parts and writes some of them (the single writes and all reads are modelled with their failures).
- JsonWriter.JsonSerializer.Apply: asks for a view that holds the text; on a shorter one the code checks some parts and writes others unchecked.
- DisEmission.EmissionExact: assumes a buffer that a size_t can count; with 2^64 bytes a wrapped entry count could be met.
- JSON numbers of type double: std::to_chars is a library function.
- JsonWriter.JsonSerializer.WriteString: asks for room for the text in a view of two bytes or more, where the code writes past a view that is too short.
- JsonWriter.JsonSerializer.EscapeChar: takes plain char to be signed, so octets from 0x80 on are escaped; where it is unsigned they would be copied and UTF-8 text would survive.
- JsonWriter.JsonSerializer.WriteWord: stands for write_bool and write_null, which differ in the word only.
- JSON keys and values: field lists of structs, iterables and maps are one data type of values; template and concept selection is not modelled.
- The overload of apply for structs, which ignores the statuses of its fields, is modelled where all of them are Ok.
- Concurrent interleavings of padded queue operations beyond the race that is shown; memory-order effects beyond monotone stale loads of the other side's index.
- Queue indices that overflow size_t; slots of size 0, which the commits ignore.
- SpscPromise.PromiseExact: speaks of messages of at most 4 GiB or a cache line, so that the requests that break the promise fit a size_t; PromiseKept has no such bound.
- SpscRace.PadExact: continuations that start a further pad are left out of its second half, since that pad is again the failing case of PadRaces.
- SpscQueues.SpscMessageQueue.TryPush: messages are object representations; constructors, moves and destructors of T, and the drain in the queue's destructor, are not modelled.
- Queue move construction and assignment, and the read and write handles, which only forward.
- ThreadPool is a state machine on values, not a class: a step is a critical section or a condition-variable call, and its worker loop, mutex and queue are not updated in place. Futures, exceptions thrown by tasks and the packaging of calls are not modelled.
- ComponentViews.Iterator: the pointers into the driving set's list are that list and a position; changing the sets during an iteration is not modelled. All sets of a view share one component type and one capacity.
- SparseSets.SparseSet.At: returns the component, not a pointer to it.
- WorldIds.World.RemoveEntity: only the id bookkeeping; the removal of components works on a copy of the sets in the code.
- WorldIds.AddKeepsPartition: asks for fewer than 2^32 ids, since an id is a 32-bit number.
- Hooks, deferred commands and the executor of StaticWorld's run: a layer is the sequence of its systems, and confinement of a system to its view is assumed of the system.
- GrowBuffers.AdjustCapacity: reads the factor 1.5f as exactly 3/2 and leaves out the Custom policy; std::ceil of a float loses precision for large sizes.
- GrowBuffers.Buffer: resize, insertion, copies and moves of whole buffers, alignment and element destructors.
- BufferView arithmetic: views are positions in the underlying storage; the operators that clamp or null a view would only add easy members.
- URI parsing, IP addresses, strings and concepts.
